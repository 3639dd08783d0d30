/** Worked readings of concrete next lines: which declaration each one is taken for and the
    template lines it gets. */
module DocCommentExamples {
  import opened Wrappers
  import opened StringOps
  import opened Patterns
  import opened DocComment

  // ---------------------------------------------------------------------------
  // lines of a known shape
  // ---------------------------------------------------------------------------

  /** Trimming leaves a string without whitespace at its ends as it is. */
  lemma TrimKeeps(s: string)
    requires s != [] && !IsWhitespace(s[0]) && !IsWhitespace(s[|s| - 1])
    ensures Trim(s) == s
  {
  }

  /** Trimming drops one leading space. */
  lemma TrimDropsLeadingSpace(s: string)
    requires s != [] && !IsWhitespace(s[0]) && !IsWhitespace(s[|s| - 1])
    ensures Trim([' '] + s) == s
  {
    assert ([' '] + s)[1..] == s;
  }

  /** A separator, a return type, a separator, a name and a parenthesised list make the method
      pattern match at the first separator. */
  lemma MethodPatternOfParts(
    pre: string, sep1: char, ret: string, sep2: char, name: string, args: string, post: string)
    requires IsSep(sep1) && IsSep(sep2)
    requires |ret| > 0 && AllOf(ret, IsAlnum) && AllOf(name, IsNameChar) && ')' !in args
    ensures MethodPatternAt(pre + [sep1] + ret + [sep2] + name + "(" + args + ")" + post,
                            |pre|, ret, name, args)
  {
    var s := pre + [sep1] + ret + [sep2] + name + "(" + args + ")" + post;
    var q := |pre|;
    var r := q + 1 + |ret|;
    var o := r + 1 + |name|;
    var c := o + 1 + |args|;
    assert s[q + 1..r] == ret;
    assert s[r + 1..o] == name;
    assert s[o + 1..c] == args;
  }

  /** Two comma-separated parameters are trimmed one by one. */
  lemma ParamListOfTwo(a: string, b: string)
    requires ',' !in a && ',' !in b
    ensures ParamList(a + [','] + b) == [Trim(a), Trim(b)]
  {
    var args := a + [','] + b;
    assert Join([a, b], ',') == args;
    SplitJoin([a, b], ',');
    var segments := Split(args, ',');
    assert segments == [a, b];
    var params := ParamList(args);
    assert |params| == 2;
    assert params[0] == Trim(segments[0]);
    assert params[1] == Trim(segments[1]);
  }

  /** A line without the letter `c` holds no class declaration. */
  lemma NoClassWithoutC(s: string)
    requires 'c' !in s
    ensures ClassMatch(s).None?
  {
    forall q: nat ensures ClassMatchAt(s, q).None? {
      if q + 6 <= |s| {
        assert s[q] in s;
        assert s[q..q + 5][0] == s[q];
      }
    }
  }

  // ---------------------------------------------------------------------------
  // a class declaration
  // ---------------------------------------------------------------------------

  const ClassText := "class Foo : Bar"

  /** The class pattern matches at the start: the class is `Foo`, its parent `Bar`. */
  lemma ClassLine()
    ensures Classify(ClassText) == ClassDecl("Foo", "Bar")
  {
    var s := ClassText;
    assert ClassPatternAt(s, 0, "Foo", "Bar");
    ClassMatchAtIff(s, 0, "Foo", "Bar");
  }

  /** A one-digit placeholder number is written as that digit. */
  lemma PlaceholderOfDigit(d: nat, text: string)
    requires d < 10
    ensures Placeholder(d, text) == "${" + [DigitChar(d)] + ":" + text + "}"
  {
  }

  /** The closing line of a class template. */
  lemma ClassDocLine()
    ensures "/// " + Placeholder(1, "Class documentation") + "." == "/// ${1:Class documentation}."
  {
    PlaceholderOfDigit(1, "Class documentation");
    assert DigitChar(1) == '1';
  }

  lemma ClassDeclSnippet()
    ensures SnippetLines(ClassDecl("Foo", "Bar"))
            == ["///", "/// Class Foo", "///", "/// Inherits from Bar", "///",
                "/// ${1:Class documentation}."]
  {
    ClassDocLine();
    assert "/// Class " + "Foo" == "/// Class Foo";
    assert "/// Inherits from " + "Bar" == "/// Inherits from Bar";
  }

  lemma ClassLineSnippet()
    ensures SnippetLines(Classify(ClassText))
            == ["///", "/// Class Foo", "///", "/// Inherits from Bar", "///",
                "/// ${1:Class documentation}."]
  {
    ClassLine();
    ClassDeclSnippet();
  }

  // ---------------------------------------------------------------------------
  // an indented method with two parameters
  // ---------------------------------------------------------------------------

  const MethodText := "\tint Compute(int a, float b)"

  /** A method line that the pattern matches at its first character is read by the first try. */
  lemma MethodLineOfParts(s: string, sep1: char, ret: string, sep2: char, name: string, args: string)
    requires s == [sep1] + ret + [sep2] + name + "(" + args + ")"
    requires IsSep(sep1) && IsSep(sep2)
    requires |ret| > 0 && AllOf(ret, IsAlnum) && AllOf(name, IsNameChar) && ')' !in args
    ensures MethodMatch(s) == Some((ret, args))
  {
    assert s == [] + [sep1] + ret + [sep2] + name + "(" + args + ")" + [];
    MethodPatternOfParts([], sep1, ret, sep2, name, args, []);
    MethodMatchAtComplete(s, 0, ret, name, args);
  }

  lemma ComputeIsName()
    ensures AllOf("Compute", IsNameChar)
  {
    forall i | 0 <= i < 7 ensures IsNameChar("Compute"[i]) {
      assert 'A' <= "Compute"[i] <= 'z';
    }
  }

  lemma MethodTextParts()
    ensures MethodText == ['\t'] + "int" + [' '] + "Compute" + "(" + "int a, float b" + ")"
  {
  }

  /** The tab before `int` is the separator the method pattern starts with. */
  lemma MethodTextMatch()
    ensures MethodMatch(MethodText) == Some(("int", "int a, float b"))
  {
    ComputeIsName();
    MethodTextParts();
    assert AllOf("int", IsAlnum);
    MethodLineOfParts(MethodText, '\t', "int", ' ', "Compute", "int a, float b");
  }

  /** The raw parameter text splits at the comma and each piece is trimmed. */
  lemma MethodTextParams()
    ensures ParamList("int a, float b") == ["int a", "float b"]
  {
    calc {
      ParamList("int a, float b");
      { assert "int a, float b" == "int a" + [','] + " float b"; }
      ParamList("int a" + [','] + " float b");
      { ParamListOfTwo("int a", " float b"); }
      [Trim("int a"), Trim(" float b")];
      { TrimKeeps("int a");
        assert " float b" == [' '] + "float b";
        TrimDropsLeadingSpace("float b"); }
      ["int a", "float b"];
    }
  }

  /** No class here, so the line is read as an `int` method with two parameters. */
  lemma MethodLine()
    ensures Classify(MethodText) == MethodDecl(Some("int"), ["int a", "float b"])
  {
    assert 'c' !in MethodText;
    NoClassWithoutC(MethodText);
    MethodTextMatch();
    MethodTextParams();
  }

  /** A parameter's name is its last space-separated word. */
  lemma FirstParamName()
    ensures ParamName("int a") == "a"
  {
    calc {
      ParamName("int a");
      { assert "int a" == "int" + " " + "a"; }
      ParamName("int" + " " + "a");
      { ParamNameAfterLastSpace("int", "a"); }
      Trim("a");
      { TrimKeeps("a"); }
      "a";
    }
  }

  lemma SecondParamName()
    ensures ParamName("float b") == "b"
  {
    calc {
      ParamName("float b");
      { assert "float b" == "float" + " " + "b"; }
      ParamName("float" + " " + "b");
      { ParamNameAfterLastSpace("float", "b"); }
      Trim("b");
      { TrimKeeps("b"); }
      "b";
    }
  }

  /** The opening line of every method template. */
  lemma HeaderText()
    ensures MethodHeader() == "/// ${1:Method documentation}"
  {
    PlaceholderOfDigit(1, "Method documentation");
    assert DigitChar(1) == '1';
  }

  /** A parameter whose text holds a marker keeps it in its `@param` line: the name is put in
      unescaped, so that line carries the name's tab stop before its own. */
  lemma MarkerInParameterName(m: nat, t: string, n: nat)
    requires '$' !in t
    ensures LinePlaceholders(ParamLine(Placeholder(m, t), n)) == [m, n]
  {
    var tail := Placeholder(n, "Parameter documentation");
    assert ParamLine(Placeholder(m, t), n) == "/// @param " + Placeholder(m, t) + ": " + tail + "";
    TwoPlaceholdersOf("/// @param ", m, t, ": ", n, "Parameter documentation", "");
  }

  /** The name of the parameter `int ${7:x}` is `${7:x}`. */
  lemma MarkerParameterName()
    ensures ParamName("int ${7:x}") == "${7:x}"
  {
    calc {
      ParamName("int ${7:x}");
      { assert "int ${7:x}" == "int" + " " + "${7:x}"; }
      ParamName("int" + " " + "${7:x}");
      { ParamNameAfterLastSpace("int", "${7:x}"); }
      Trim("${7:x}");
      { TrimKeeps("${7:x}"); }
      "${7:x}";
    }
  }

  /** So the first `@param` line for `\tint f(int ${7:x})` carries tab stop 7 before tab stop 2. */
  lemma MarkerParameterLine()
    ensures LinePlaceholders(ParamLine("${7:x}", 2)) == [7, 2]
  {
    PlaceholderOfDigit(7, "x");
    assert DigitChar(7) == '7';
    assert Placeholder(7, "x") == "${7:x}";
    MarkerInParameterName(7, "x", 2);
  }

  /** A method with a return type and two parameters gets four lines. */
  lemma TwoParamTemplate(ret: Option<string>, params: seq<string>)
    requires ret != Some("void") && |params| == 2
    ensures SnippetLines(MethodDecl(ret, params))
            == [MethodHeader(), ParamLine(ParamName(params[0]), 2), ParamLine(ParamName(params[1]), 3),
                ReturnLine(4)]
  {
    var lines := SnippetLines(MethodDecl(ret, params));
    MethodTemplateReturn(ret, params);
    assert lines == [lines[0], lines[1], lines[2], lines[3]];
    MethodTemplateHeader(ret, params);
    MethodTemplateParam(ret, params, 0);
    MethodTemplateParam(ret, params, 1);
  }

  /** The template of a method returning `int` whose two parameters are named `a` and `b`. */
  lemma TwoParamSnippet(params: seq<string>)
    requires |params| == 2 && ParamName(params[0]) == "a" && ParamName(params[1]) == "b"
    ensures SnippetLines(MethodDecl(Some("int"), params))
            == [MethodHeader(), ParamLine("a", 2), ParamLine("b", 3), ReturnLine(4)]
  {
    TwoParamTemplate(Some("int"), params);
  }

  /** The header, `@param a` numbered 2, `@param b` numbered 3 and `@return` numbered 4. */
  lemma MethodLineSnippet()
    ensures SnippetLines(Classify(MethodText))
            == [MethodHeader(), ParamLine("a", 2), ParamLine("b", 3), ReturnLine(4)]
  {
    MethodLine();
    FirstParamName();
    SecondParamName();
    TwoParamSnippet(["int a", "float b"]);
  }

  // ---------------------------------------------------------------------------
  // methods without parameters
  // ---------------------------------------------------------------------------

  const VoidText := "\tvoid Run()"

  lemma VoidTextMatch()
    ensures MethodMatch(VoidText) == Some(("void", ""))
  {
    assert AllOf("void", IsAlnum);
    assert AllOf("Run", IsNameChar) by {
      forall i | 0 <= i < 3 ensures IsNameChar("Run"[i]) {
        assert 'A' <= "Run"[i] <= 'z';
      }
    }
    assert VoidText == ['\t'] + "void" + [' '] + "Run" + "(" + "" + ")";
    MethodLineOfParts(VoidText, '\t', "void", ' ', "Run", "");
  }

  /** An indented `void` method gets the opening line only. */
  lemma VoidLine()
    ensures Classify(VoidText) == MethodDecl(Some("void"), [])
  {
    assert 'c' !in VoidText;
    NoClassWithoutC(VoidText);
    VoidTextMatch();
  }

  lemma VoidLineSnippet()
    ensures SnippetLines(Classify(VoidText)) == [MethodHeader()]
  {
    VoidLine();
  }

  const UnindentedText := "void Run()"

  /** The method pattern needs a separator at its start. */
  lemma NoMethodMatchAtWithoutSep(s: string, q: nat)
    requires q < |s| ==> !IsSep(s[q])
    ensures MethodMatchAt(s, q).None?
  {
  }

  /** Every start position is tried and none matches. */
  lemma NoMethodMatchAnywhere(s: string)
    requires forall q: nat :: MethodMatchAt(s, q).None?
    ensures MethodMatch(s).None?
  {
  }

  /** The only separator of `void Run()` is the space before `Run`, and `Run` is followed by
      `(` where the pattern wants a second separator. */
  lemma NoMethodAtSpace(s: string)
    requires s == UnindentedText
    ensures MethodMatchAt(s, 4).None?
  {
    RunEndAt(s, 5, 8, IsAlnum);
    assert !IsSep(s[8]);
  }

  lemma NoMethodAtOthers(s: string, q: nat)
    requires s == UnindentedText && q != 4
    ensures MethodMatchAt(s, q).None?
  {
    assert q < |s| ==> !IsSep(s[q]);
    NoMethodMatchAtWithoutSep(s, q);
  }

  lemma NoMethodInUnindented(s: string)
    requires s == UnindentedText
    ensures MethodMatch(s).None?
  {
    forall q: nat ensures MethodMatchAt(s, q).None? {
      if q == 4 {
        NoMethodAtSpace(s);
      } else {
        NoMethodAtOthers(s, q);
      }
    }
    NoMethodMatchAnywhere(s);
  }

  /** Without a separator before the return type the method pattern finds nothing, so the
      return type stays undefined and the `@return` line is added. */
  lemma UnindentedLine()
    ensures Classify(UnindentedText) == MethodDecl(None, [])
  {
    assert 'c' !in UnindentedText;
    NoClassWithoutC(UnindentedText);
    NoMethodInUnindented(UnindentedText);
  }

  /** Without a return type and parameters: the opening line and the `@return` line. */
  lemma UndefinedReturnSnippet()
    ensures SnippetLines(MethodDecl(None, [])) == [MethodHeader(), ReturnLine(2)]
  {
    assert ParamLines([]) == [];
  }

  lemma UnindentedLineSnippet()
    ensures SnippetLines(Classify(UnindentedText)) == [MethodHeader(), ReturnLine(2)]
  {
    UnindentedLine();
    UndefinedReturnSnippet();
  }

  /** On the last line of a document the next line is empty: the method template with its
      `@return` line. */
  lemma EmptyLine()
    ensures Classify("") == MethodDecl(None, [])
    ensures SnippetLines(Classify("")) == [MethodHeader(), ReturnLine(2)]
  {
    UndefinedReturnSnippet();
  }
}
