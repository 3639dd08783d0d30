/** The doc-comment snippet synthesiser: it reads the line after the cursor as a class or a
    method declaration and builds the `///` comment template for it, with numbered
    placeholders `${n:text}` that the editor visits in ascending order. */
module DocComment {
  import opened Wrappers
  import opened StringOps
  import opened Patterns

  /** What the line after the cursor was read as. A method whose pattern did not match has no
      return type and no parameters. */
  datatype Declaration =
    | ClassDecl(name: string, parent: string)
    | MethodDecl(returnType: Option<string>, params: seq<string>)

  /** The parameter segments of a parenthesised text: comma-separated and trimmed, none for an
      empty text. */
  function ParamList(args: string): (params: seq<string>)
    ensures args == [] ==> params == []
    ensures args != [] ==> |params| == |Split(args, ',')|
    ensures args != [] ==> forall k :: 0 <= k < |params| ==> params[k] == Trim(Split(args, ',')[k])
    ensures forall k, c :: 0 <= k < |params| && c in params[k] ==> c in args
  {
    if args == [] then []
    else
      var segments := Split(args, ',');
      seq(|segments|, k requires 0 <= k < |segments| => Trim(segments[k]))
  }

  /** Reading the line: the class pattern first; otherwise the method pattern, whose absence
      leaves the return type undefined and the parameter list empty. */
  function Classify(line: string): (d: Declaration)
    ensures d.ClassDecl? ==> |d.name| > 0 && AllOf(d.name, IsLetter)
                             && |d.parent| > 0 && AllOf(d.parent, IsLetter)
    ensures d.MethodDecl? && d.returnType.Some? ==>
              |d.returnType.value| > 0 && AllOf(d.returnType.value, IsAlnum)
    ensures d.ClassDecl? <==> ClassMatch(line).Some?
  {
    match ClassMatch(line)
    case Some((name, parent)) => ClassDecl(name, parent)
    case None =>
      match MethodMatch(line)
      case Some((ret, args)) => MethodDecl(Some(ret), ParamList(args))
      case None => MethodDecl(None, [])
  }

  /** The parameters of a method are pieces of the line: no character the line lacks. */
  lemma ClassifyParamsFromLine(line: string)
    requires Classify(line).MethodDecl?
    ensures forall k, c :: 0 <= k < |Classify(line).params| && c in Classify(line).params[k] ==> c in line
  {
    if ClassMatch(line).None? && MethodMatch(line).Some? {
      MethodArgsFromLine(line);
    }
  }

  /** `p.split(" ").pop()?.trim()`: the parameter's name is the last space-separated token. */
  function ParamName(p: string): (name: string)
    ensures ' ' !in name
    ensures name == [] || (!IsWhitespace(name[0]) && !IsWhitespace(name[|name| - 1]))
    ensures forall c :: c in name ==> c in p
  {
    var tokens := Split(p, ' ');
    Trim(tokens[|tokens| - 1])
  }

  /** The name is the trimmed text after the last space. */
  lemma ParamNameAfterLastSpace(typePart: string, tail: string)
    requires ' ' !in tail
    ensures ParamName(typePart + " " + tail) == Trim(tail)
  {
    var p := typePart + " " + tail;
    assert p == typePart + [' '] + tail;
    SplitLastPiece(typePart, ' ', tail);
    var tokens := Split(p, ' ');
    assert tokens[|tokens| - 1] == tail;
  }

  /** A segment without a space is its own name. */
  lemma ParamNameWithoutSpace(p: string)
    requires ' ' !in p
    ensures ParamName(p) == Trim(p)
  {
    SplitNoSeparator(p, ' ');
  }

  // ---------------------------------------------------------------------------
  // the template lines
  // ---------------------------------------------------------------------------

  /** `${n:text}` */
  function Placeholder(n: nat, text: string): string {
    "${" + Decimal(n) + ":" + text + "}"
  }

  function MethodHeader(): string {
    "/// " + Placeholder(1, "Method documentation")
  }

  function ParamLine(name: string, n: nat): string {
    "/// @param " + name + ": " + Placeholder(n, "Parameter documentation")
  }

  function ReturnLine(n: nat): string {
    "/// @return " + Placeholder(n, "Return value documentation")
  }

  /** `xs.map((x, k) => f(x, k))` */
  function Indexed<T, U>(xs: seq<T>, f: (T, nat) -> U): (ys: seq<U>)
    ensures |ys| == |xs|
    ensures forall k :: 0 <= k < |xs| ==> ys[k] == f(xs[k], k)
  {
    seq(|xs|, k requires 0 <= k < |xs| => f(xs[k], k))
  }

  /** Mapping one more element appends its image. */
  lemma IndexedExtend<T, U>(xs: seq<T>, i: nat, f: (T, nat) -> U)
    requires i < |xs|
    ensures Indexed(xs[..i + 1], f) == Indexed(xs[..i], f) + [f(xs[i], i)]
  {
    var longer := Indexed(xs[..i + 1], f);
    var extended := Indexed(xs[..i], f) + [f(xs[i], i)];
    forall k | 0 <= k <= i ensures longer[k] == extended[k] {
      assert xs[..i + 1][k] == xs[k];
      if k < i {
        assert xs[..i][k] == xs[k];
      }
    }
  }

  /** The `@param` line of the parameter at index `k`: placeholders 1 and 2 go to the header and
      the first parameter. */
  function ParamLineAt(p: string, k: nat): string {
    ParamLine(ParamName(p), k + 2)
  }

  /** One `@param` line per parameter, left to right, numbered from 2. */
  function ParamLines(params: seq<string>): (lines: seq<string>)
    ensures |lines| == |params|
  {
    Indexed(params, ParamLineAt)
  }

  lemma ParamLinesExtend(params: seq<string>, i: nat)
    requires i < |params|
    ensures ParamLines(params[..i + 1]) == ParamLines(params[..i]) + [ParamLine(ParamName(params[i]), i + 2)]
  {
    IndexedExtend(params, i, ParamLineAt);
  }

  /** Pushing the `@param` line of the next parameter extends the template by that parameter. */
  lemma TemplateGrows(head: seq<string>, params: seq<string>, i: nat)
    requires i < |params|
    ensures head + ParamLines(params[..i]) + [ParamLine(ParamName(params[i]), i + 2)]
            == head + ParamLines(params[..i + 1])
  {
    ParamLinesExtend(params, i);
  }

  /** The template for a declaration, one element per line. */
  function SnippetLines(d: Declaration): (lines: seq<string>)
    ensures |lines| >= 1
  {
    match d
    case ClassDecl(name, parent) =>
      ["///", "/// Class " + name, "///", "/// Inherits from " + parent, "///",
       "/// " + Placeholder(1, "Class documentation") + "."]
    case MethodDecl(ret, params) =>
      [MethodHeader()] + ParamLines(params)
      + (if ret != Some("void") then [ReturnLine(|params| + 2)] else [])
  }

  /** The snippet text for the line after the cursor: its template lines joined by newlines. */
  function DocCommentSnippet(nextLine: string): (snippet: string)
    ensures '\n' !in nextLine ==> Split(snippet, '\n') == SnippetLines(Classify(nextLine))
  {
    SnippetSplitsIntoLines(nextLine);
    Join(SnippetLines(Classify(nextLine)), '\n')
  }

  lemma ClassTemplate(line: string, name: string, parent: string)
    requires ClassMatch(line) == Some((name, parent))
    ensures SnippetLines(Classify(line))
            == ["///", "/// Class " + name, "///", "/// Inherits from " + parent, "///",
                "/// " + Placeholder(1, "Class documentation") + "."]
  {
    assert Classify(line) == ClassDecl(name, parent);
  }

  lemma MethodTemplate(line: string, ret: Option<string>, params: seq<string>)
    requires ClassMatch(line).None?
    requires ret == if MethodMatch(line).Some? then Some(MethodMatch(line).value.0) else None
    requires params == if MethodMatch(line).Some? then ParamList(MethodMatch(line).value.1) else []
    ensures SnippetLines(Classify(line))
            == [MethodHeader()] + ParamLines(params)
               + (if ret != Some("void") then [ReturnLine(|params| + 2)] else [])
  {
    assert Classify(line) == MethodDecl(ret, params);
  }

  /** The synthesiser as the handler runs it: it pushes the lines one by one and numbers the
      parameters with a counter that starts at 2. */
  method GetDocCommentSnippet(nextLine: string) returns (snippet: string)
    ensures snippet == DocCommentSnippet(nextLine)
  {
    var resultLines: seq<string> := [];
    var classParts := ClassMatch(nextLine);
    if classParts.Some? {
      var (name, parent) := classParts.value;
      resultLines := resultLines + ["///"];
      resultLines := resultLines + ["/// Class " + name];
      resultLines := resultLines + ["///"];
      resultLines := resultLines + ["/// Inherits from " + parent];
      resultLines := resultLines + ["///"];
      resultLines := resultLines + ["/// " + Placeholder(1, "Class documentation") + "."];
      ClassTemplate(nextLine, name, parent);
      assert resultLines == SnippetLines(Classify(nextLine));
    } else {
      resultLines := resultLines + [MethodHeader()];
      var placeholderIndex: nat := 2;
      var methodParts := MethodMatch(nextLine);
      var returnType := if methodParts.Some? then Some(methodParts.value.0) else None;
      var params := if methodParts.Some? then ParamList(methodParts.value.1) else [];
      var i := 0;
      while i < |params|
        invariant 0 <= i <= |params|
        invariant placeholderIndex == i + 2
        invariant resultLines == [MethodHeader()] + ParamLines(params[..i])
      {
        var paramName := ParamName(params[i]);
        TemplateGrows([MethodHeader()], params, i);
        resultLines := resultLines + [ParamLine(paramName, placeholderIndex)];
        assert resultLines == [MethodHeader()] + ParamLines(params[..i + 1]);
        placeholderIndex := placeholderIndex + 1;
        i := i + 1;
      }
      assert params[..i] == params;
      if returnType != Some("void") {
        resultLines := resultLines + [ReturnLine(placeholderIndex)];
      }
      MethodTemplate(nextLine, returnType, params);
      assert resultLines == SnippetLines(Classify(nextLine));
    }
    snippet := Join(resultLines, '\n');
  }

  // ---------------------------------------------------------------------------
  // reading the placeholders back
  // ---------------------------------------------------------------------------

  /** The number of a marker body `digits:`, if the text starts with one. */
  function PlaceholderNumber(t: string): Option<nat> {
    var d := RunEnd(t, 0, IsDigit);
    RunIsAllOf(t, 0, IsDigit);
    assert t[0..d] == t[..d];
    if 0 < d < |t| && t[d] == ':' then Some(DecimalValue(t[..d])) else None
  }

  /** The numbers of the `${n:` markers whose `${` lies before `end - 1`, left to right. */
  function MarkersBefore(line: string, end: nat): seq<nat>
    requires end <= |line|
    decreases end
  {
    if end < 2 then []
    else if line[end - 2] == '$' && line[end - 1] == '{' && PlaceholderNumber(line[end..]).Some? then
      MarkersBefore(line, end - 1) + [PlaceholderNumber(line[end..]).value]
    else MarkersBefore(line, end - 1)
  }

  /** The numbers of all `${n:` markers on a line, left to right, as the editor visits them. */
  function LinePlaceholders(line: string): seq<nat> {
    MarkersBefore(line, |line|)
  }

  /** The placeholder numbers of a template, in line order. */
  function Placeholders(lines: seq<string>): seq<nat>
    decreases |lines|
  {
    if lines == [] then [] else LinePlaceholders(lines[0]) + Placeholders(lines[1..])
  }

  lemma PlaceholderNumberOf(n: nat, rest: string)
    ensures PlaceholderNumber(Decimal(n) + ":" + rest) == Some(n)
  {
    var t := Decimal(n) + ":" + rest;
    RunEndAt(t, 0, |Decimal(n)|, IsDigit);
    assert t[..|Decimal(n)|] == Decimal(n);
    DecimalRoundTrip(n);
  }

  /** Positions between two `$` contribute no marker. */
  lemma {:induction false} MarkersSkip(line: string, m: nat, end: nat)
    requires m + 2 <= end <= |line|
    requires forall k :: m < k && k + 2 <= end ==> line[k] != '$'
    ensures MarkersBefore(line, end) == MarkersBefore(line, m + 2)
    decreases end
  {
    if end > m + 2 {
      MarkersSkip(line, m, end - 1);
    }
  }

  /** Before the first `$` there is no marker. */
  lemma {:induction false} NoMarkersBefore(line: string, end: nat)
    requires end <= |line|
    requires forall k :: 0 <= k && k + 2 <= end ==> line[k] != '$'
    ensures MarkersBefore(line, end) == []
    decreases end
  {
    if end >= 2 {
      NoMarkersBefore(line, end - 1);
    }
  }

  /** A line whose only `$` opens the marker `${n:` carries exactly placeholder n. */
  lemma PlaceholderOf(prefix: string, n: nat, text: string, suffix: string)
    requires '$' !in prefix && '$' !in text && '$' !in suffix
    ensures LinePlaceholders(prefix + Placeholder(n, text) + suffix) == [n]
  {
    var line := prefix + Placeholder(n, text) + suffix;
    var m := |prefix|;
    var rest := text + "}" + suffix;
    assert line == prefix + "${" + (Decimal(n) + ":" + rest);
    assert line[m + 2..] == Decimal(n) + ":" + rest;
    forall k | m < k < |line| ensures line[k] != '$' {
      if k < m + 2 + |Decimal(n)| {
        assert line[k] == "{"[0] || line[k] == Decimal(n)[k - m - 2];
      } else if k > m + 2 + |Decimal(n)| {
        assert line[k] == rest[k - m - 3 - |Decimal(n)|];
      }
    }
    MarkersSkip(line, m, |line|);
    PlaceholderNumberOf(n, rest);
    forall k | 0 <= k && k + 2 <= m + 1 ensures line[k] != '$' {
      assert line[k] == prefix[k];
    }
    NoMarkersBefore(line, m + 1);
  }

  /** A line without a `$` has no placeholder. */
  lemma NoPlaceholderWithoutDollar(line: string)
    requires '$' !in line
    ensures LinePlaceholders(line) == []
  {
    NoMarkersBefore(line, |line|);
  }

  /** A line holding two markers and no other `$` carries both numbers, left to right. */
  lemma TwoPlaceholdersOf(
    prefix: string, m: nat, t1: string, mid: string, n: nat, t2: string, suffix: string)
    requires '$' !in prefix && '$' !in t1 && '$' !in mid && '$' !in t2 && '$' !in suffix
    ensures LinePlaceholders(prefix + Placeholder(m, t1) + mid + Placeholder(n, t2) + suffix) == [m, n]
  {
    var head := prefix + Placeholder(m, t1) + mid;
    var line := head + Placeholder(n, t2) + suffix;
    var tail := mid + Placeholder(n, t2) + suffix;
    MarkerSlices(head, n, t2, suffix);
    LastMarkerAt(line, |head|, n, t2 + "}" + suffix);
    SameLine(prefix, Placeholder(m, t1), mid, Placeholder(n, t2) + suffix);
    MarkerSlices(prefix, m, t1, tail);
    FirstMarker(line, prefix, m, t1, mid, tail, |head|);
  }

  lemma SameLine(a: string, b: string, c: string, d: string)
    ensures a + b + c + d == a + b + (c + d)
  {
  }

  /** The markers before the `$` of a second marker are those of the first one. */
  lemma FirstMarker(line: string, prefix: string, m: nat, t1: string, mid: string, tail: string, q: nat)
    requires |prefix| + 2 <= |line| && line[..|prefix|] == prefix
    requires line[|prefix|] == '$' && line[|prefix| + 1] == '{'
    requires line[|prefix| + 2..] == Decimal(m) + ":" + (t1 + "}" + tail)
    requires |mid| <= |tail| && tail[..|mid|] == mid
    requires q == |prefix| + 2 + |Decimal(m)| + 1 + |t1| + 1 + |mid| && q < |line|
    requires '$' !in prefix && '$' !in t1 && '$' !in mid
    ensures MarkersBefore(line, q + 1) == [m]
  {
    var p := |prefix|;
    BetweenMarkers(line, p, m, t1, mid, tail, q);
    MarkersSkip(line, p, q + 1);
    forall k | 0 <= k && k + 2 <= p + 1 ensures line[k] != '$' {
      assert line[k] == prefix[k];
    }
    NoMarkersBefore(line, p + 1);
    PlaceholderNumberOf(m, t1 + "}" + tail);
    assert MarkersBefore(line, p + 2) == MarkersBefore(line, p + 1) + [m];
  }

  /** No `$` lies between the `$` of a marker and the end of the text after it. */
  lemma BetweenMarkers(line: string, p: nat, m: nat, t1: string, mid: string, tail: string, q: nat)
    requires p + 2 <= |line| && line[p + 1] == '{' && line[p + 2..] == Decimal(m) + ":" + (t1 + "}" + tail)
    requires |mid| <= |tail| && tail[..|mid|] == mid
    requires q == p + 2 + |Decimal(m)| + 1 + |t1| + 1 + |mid| && q <= |line|
    requires '$' !in t1 && '$' !in mid
    ensures forall k :: p < k && k + 2 <= q + 1 ==> line[k] != '$'
  {
    var body := line[p + 2..];
    forall k | p < k && k + 2 <= q + 1 ensures line[k] != '$' {
      if k > p + 1 {
        var i := k - p - 2;
        assert line[k] == body[i];
        if i < |Decimal(m)| {
          assert body[i] == Decimal(m)[i];
        } else if i == |Decimal(m)| {
          assert body[i] == ':';
        } else {
          var j := i - |Decimal(m)| - 1;
          assert body[i] == (t1 + "}" + tail)[j];
          if j < |t1| {
            assert (t1 + "}" + tail)[j] == t1[j];
          } else if j == |t1| {
            assert (t1 + "}" + tail)[j] == '}';
          } else {
            assert (t1 + "}" + tail)[j] == tail[j - |t1| - 1] == mid[j - |t1| - 1];
          }
        }
      }
    }
  }

  /** A marker `${n:` after which no `$` follows is the line's last. */
  lemma LastMarkerAt(line: string, m: nat, n: nat, rest: string)
    requires m + 2 <= |line| && line[m] == '$' && line[m + 1] == '{'
    requires line[m + 2..] == Decimal(n) + ":" + rest && '$' !in rest
    ensures LinePlaceholders(line) == MarkersBefore(line, m + 1) + [n]
  {
    var body := line[m + 2..];
    forall k | m < k < |line| ensures line[k] != '$' {
      if k > m + 1 {
        assert line[k] == body[k - m - 2];
        if k - m - 2 < |Decimal(n)| {
          assert body[k - m - 2] == Decimal(n)[k - m - 2];
        } else if k - m - 2 > |Decimal(n)| {
          assert body[k - m - 2] == rest[k - m - 3 - |Decimal(n)|];
        }
      }
    }
    MarkersSkip(line, m, |line|);
    PlaceholderNumberOf(n, rest);
  }

  /** Where a marker sits in a line: `${` at the end of the head, then the number, `:` and the
      rest of the line. */
  lemma MarkerSlices(head: string, n: nat, text: string, suffix: string)
    ensures var line := head + Placeholder(n, text) + suffix;
      && |head| + 2 <= |line| && line[|head|] == '$' && line[|head| + 1] == '{'
      && line[|head| + 2..] == Decimal(n) + ":" + (text + "}" + suffix)
  {
    var line := head + Placeholder(n, text) + suffix;
    assert line == head + "${" + (Decimal(n) + ":" + (text + "}" + suffix));
  }

  lemma {:induction false} PlaceholdersAllPresent(lines: seq<string>, base: nat)
    requires forall k :: 0 <= k < |lines| ==> LinePlaceholders(lines[k]) == [base + k]
    ensures Placeholders(lines) == seq(|lines|, k requires 0 <= k < |lines| => base + k)
    decreases |lines|
  {
    if lines != [] {
      PlaceholdersAllPresent(lines[1..], base + 1);
      var rest := seq(|lines| - 1, k requires 0 <= k < |lines| - 1 => base + 1 + k);
      assert Placeholders(lines) == [base] + rest;
    }
  }

  // ---------------------------------------------------------------------------
  // what the template promises
  // ---------------------------------------------------------------------------

  lemma {:induction false} PlaceholdersAppend(a: seq<string>, b: seq<string>)
    ensures Placeholders(a + b) == Placeholders(a) + Placeholders(b)
    decreases |a|
  {
    if a != [] {
      assert (a + b)[0] == a[0];
      assert (a + b)[1..] == a[1..] + b;
      PlaceholdersAppend(a[1..], b);
      calc {
        Placeholders(a + b);
        LinePlaceholders(a[0]) + Placeholders(a[1..] + b);
        LinePlaceholders(a[0]) + (Placeholders(a[1..]) + Placeholders(b));
        (LinePlaceholders(a[0]) + Placeholders(a[1..])) + Placeholders(b);
      }
    } else {
      assert a + b == b;
    }
  }

  lemma {:induction false} PlaceholdersAllAbsent(lines: seq<string>)
    requires forall k :: 0 <= k < |lines| ==> LinePlaceholders(lines[k]) == []
    ensures Placeholders(lines) == []
    decreases |lines|
  {
    if lines != [] {
      PlaceholdersAllAbsent(lines[1..]);
    }
  }

  /** A method template has the header, one line per parameter and, unless the method
      returns `void`, the `@return` line. */
  lemma MethodTemplateLength(ret: Option<string>, params: seq<string>)
    ensures |SnippetLines(MethodDecl(ret, params))| == 1 + |params| + (if ret == Some("void") then 0 else 1)
  {
  }

  /** Line 0 of a method template is the header. */
  lemma MethodTemplateHeader(ret: Option<string>, params: seq<string>)
    ensures SnippetLines(MethodDecl(ret, params))[0] == MethodHeader()
  {
  }

  /** Line j + 1 of a method template documents parameter j with placeholder j + 2. */
  lemma MethodTemplateParam(ret: Option<string>, params: seq<string>, j: nat)
    requires j < |params|
    ensures |SnippetLines(MethodDecl(ret, params))| > j + 1
    ensures SnippetLines(MethodDecl(ret, params))[j + 1] == ParamLine(ParamName(params[j]), j + 2)
  {
    var body := [MethodHeader()] + ParamLines(params);
    assert SnippetLines(MethodDecl(ret, params))[j + 1] == body[j + 1];
  }

  /** Unless the method returns `void`, the last line is the `@return` line numbered one past
      the parameters. */
  lemma MethodTemplateReturn(ret: Option<string>, params: seq<string>)
    requires ret != Some("void")
    ensures |SnippetLines(MethodDecl(ret, params))| == |params| + 2
    ensures SnippetLines(MethodDecl(ret, params))[|params| + 1] == ReturnLine(|params| + 2)
  {
  }

  lemma HeaderPlaceholder()
    ensures LinePlaceholders(MethodHeader()) == [1]
  {
    PlaceholderOf("/// ", 1, "Method documentation", "");
    assert MethodHeader() == "/// " + Placeholder(1, "Method documentation") + "";
  }

  /** A parameter line carries its own number, and no other when the name holds no `$`. */
  lemma ParamLinePlaceholder(name: string, n: nat)
    requires '$' !in name
    ensures LinePlaceholders(ParamLine(name, n)) == [n]
  {
    var prefix := "/// @param " + name + ": ";
    assert '$' !in prefix;
    PlaceholderOf(prefix, n, "Parameter documentation", "");
    assert ParamLine(name, n) == prefix + Placeholder(n, "Parameter documentation") + "";
  }

  lemma ReturnLinePlaceholder(n: nat)
    ensures LinePlaceholders(ReturnLine(n)) == [n]
  {
    PlaceholderOf("/// @return ", n, "Return value documentation", "");
    assert ReturnLine(n) == "/// @return " + Placeholder(n, "Return value documentation") + "";
  }

  /** No parameter text holds a `$`. */
  predicate NoDollarIn(params: seq<string>) {
    forall j :: 0 <= j < |params| ==> '$' !in params[j]
  }

  lemma MethodHeaderPlaceholder(ret: Option<string>, params: seq<string>)
    ensures LinePlaceholders(SnippetLines(MethodDecl(ret, params))[0]) == [1]
  {
    MethodTemplateHeader(ret, params);
    HeaderPlaceholder();
  }

  lemma ParamIndexPlaceholder(ret: Option<string>, params: seq<string>, j: nat)
    requires j < |params| && '$' !in params[j]
    ensures |SnippetLines(MethodDecl(ret, params))| > j + 1
    ensures LinePlaceholders(SnippetLines(MethodDecl(ret, params))[j + 1]) == [j + 2]
  {
    MethodTemplateParam(ret, params, j);
    ParamLinePlaceholder(ParamName(params[j]), j + 2);
  }

  lemma MethodReturnPlaceholder(ret: Option<string>, params: seq<string>, k: nat)
    requires |params| < k < |SnippetLines(MethodDecl(ret, params))|
    ensures LinePlaceholders(SnippetLines(MethodDecl(ret, params))[k]) == [k + 1]
  {
    MethodTemplateLength(ret, params);
    MethodTemplateReturn(ret, params);
    ReturnLinePlaceholder(|params| + 2);
  }

  /** Line k of a method template carries exactly placeholder k + 1 when no parameter text
      holds a `$`. */
  lemma MethodLinePlaceholder(ret: Option<string>, params: seq<string>, k: nat)
    requires k < |SnippetLines(MethodDecl(ret, params))| && NoDollarIn(params)
    ensures LinePlaceholders(SnippetLines(MethodDecl(ret, params))[k]) == [k + 1]
  {
    if k == 0 {
      MethodHeaderPlaceholder(ret, params);
    } else if k <= |params| {
      assert '$' !in params[k - 1];
      ParamIndexPlaceholder(ret, params, k - 1);
    } else {
      MethodReturnPlaceholder(ret, params, k);
    }
  }

  lemma ParamLinePrefix(name: string, n: nat)
    ensures StartsWith(ParamLine(name, n), "/// @param " + name + ": ")
    ensures !StartsWith(ParamLine(name, n), "/// @return ")
  {
    var prefix := "/// @param " + name + ": ";
    assert ParamLine(name, n) == prefix + Placeholder(n, "Parameter documentation");
    assert ParamLine(name, n)[..|prefix|] == prefix;
    assert ParamLine(name, n)[5] == 'p';
  }

  lemma ReturnLinePrefix(n: nat)
    ensures StartsWith(ReturnLine(n), "/// @return ")
  {
    assert ReturnLine(n)[..12] == "/// @return ";
  }

  lemma HeaderPrefix()
    ensures !StartsWith(MethodHeader(), "/// @")
  {
    assert MethodHeader()[4] == '$';
  }

  /** A method template: the header, one `@param` line per parameter naming it, left to right,
      and a final `@return` line exactly when the return type is not `void`. */
  lemma MethodSnippetShape(ret: Option<string>, params: seq<string>)
    ensures var lines := SnippetLines(MethodDecl(ret, params));
      && |lines| == 1 + |params| + (if ret == Some("void") then 0 else 1)
      && (forall k :: 0 <= k < |params| ==>
            StartsWith(lines[k + 1], "/// @param " + ParamName(params[k]) + ": "))
      && (StartsWith(lines[|lines| - 1], "/// @return ") <==> ret != Some("void"))
  {
    var lines := SnippetLines(MethodDecl(ret, params));
    MethodTemplateLength(ret, params);
    forall k | 0 <= k < |params|
      ensures StartsWith(lines[k + 1], "/// @param " + ParamName(params[k]) + ": ")
    {
      MethodTemplateParam(ret, params, k);
      ParamLinePrefix(ParamName(params[k]), k + 2);
    }
    var last := lines[|lines| - 1];
    if ret == Some("void") {
      if params == [] {
        MethodTemplateHeader(ret, params);
        HeaderPrefix();
        assert !StartsWith(last, "/// @return ") by {
          assert "/// @return "[..5] == "/// @";
        }
      } else {
        MethodTemplateParam(ret, params, |params| - 1);
        ParamLinePrefix(ParamName(params[|params| - 1]), |params| + 1);
      }
    } else {
      MethodTemplateReturn(ret, params);
      ReturnLinePrefix(|params| + 2);
    }
  }

  /** A class template: six lines naming the class and its parent, no `@param` or `@return`
      line, and the single placeholder 1 on its last line. */
  lemma ClassSnippetShape(name: string, parent: string)
    requires '$' !in name && '$' !in parent
    ensures var lines := SnippetLines(ClassDecl(name, parent));
      && |lines| == 6
      && lines[1] == "/// Class " + name && lines[3] == "/// Inherits from " + parent
      && (forall k :: 0 <= k < 6 ==> !StartsWith(lines[k], "/// @"))
      && Placeholders(lines) == [1]
  {
    ClassLinesUntagged(name, parent);
    ClassPlaceholders(name, parent);
  }

  /** No line of a class template starts like a `@param` or `@return` tag. */
  lemma ClassLinesUntagged(name: string, parent: string)
    ensures forall k :: 0 <= k < 6 ==> !StartsWith(SnippetLines(ClassDecl(name, parent))[k], "/// @")
  {
    var lines := SnippetLines(ClassDecl(name, parent));
    forall k | 0 <= k < 6 ensures !StartsWith(lines[k], "/// @") {
      if |lines[k]| >= 5 {
        assert lines[k][4] != '@';
      }
    }
  }

  /** The class template's only placeholder is number 1, on its last line. */
  lemma ClassPlaceholders(name: string, parent: string)
    requires '$' !in name && '$' !in parent
    ensures Placeholders(SnippetLines(ClassDecl(name, parent))) == [1]
  {
    var lines := SnippetLines(ClassDecl(name, parent));
    forall k | 0 <= k < 5 ensures LinePlaceholders(lines[k]) == [] {
      NoPlaceholderWithoutDollar(lines[k]);
    }
    PlaceholdersAllAbsent(lines[..5]);
    PlaceholderOf("/// ", 1, "Class documentation", ".");
    assert Placeholders([lines[5]]) == [1];
    PlaceholdersAppend(lines[..5], [lines[5]]);
    assert lines == lines[..5] + [lines[5]];
  }


  /** When the next line holds no `$`, the snippet's placeholders are numbered 1, 2, ..., m in
      line order, each once, so the editor visits them without a gap. */
  lemma PlaceholdersNumberedFromOne(nextLine: string)
    requires '$' !in nextLine
    ensures var ps := Placeholders(SnippetLines(Classify(nextLine)));
      |ps| >= 1 && forall k :: 0 <= k < |ps| ==> ps[k] == k + 1
  {
    match Classify(nextLine)
    case ClassDecl(name, parent) =>
      assert '$' !in name && '$' !in parent;
      ClassSnippetShape(name, parent);
    case MethodDecl(ret, params) =>
      ClassifyParamsFromLine(nextLine);
      assert NoDollarIn(params);
      var lines := SnippetLines(MethodDecl(ret, params));
      forall k | 0 <= k < |lines| ensures LinePlaceholders(lines[k]) == [1 + k] {
        MethodLinePlaceholder(ret, params, k);
      }
      PlaceholdersAllPresent(lines, 1);
  }

  lemma PlaceholderHasNoNewline(n: nat, text: string)
    requires '\n' !in text
    ensures '\n' !in Placeholder(n, text)
  {
    assert '\n' !in Decimal(n) by {
      var digits := Decimal(n);
      assert forall i :: 0 <= i < |digits| ==> digits[i] != '\n';
    }
  }

  lemma ParamLineHasNoNewline(name: string, n: nat)
    requires '\n' !in name
    ensures '\n' !in ParamLine(name, n)
  {
    PlaceholderHasNoNewline(n, "Parameter documentation");
  }

  lemma ReturnLineHasNoNewline(n: nat)
    ensures '\n' !in ReturnLine(n)
  {
    PlaceholderHasNoNewline(n, "Return value documentation");
  }

  lemma HeaderHasNoNewline()
    ensures '\n' !in MethodHeader()
  {
    PlaceholderHasNoNewline(1, "Method documentation");
  }

  lemma ClassLineHasNoNewline(name: string, parent: string, k: nat)
    requires '\n' !in name && '\n' !in parent && k < 6
    ensures '\n' !in SnippetLines(ClassDecl(name, parent))[k]
  {
    PlaceholderHasNoNewline(1, "Class documentation");
  }

  /** Every line of a template is free of newlines when the names in it are. */
  lemma TemplateLineHasNoNewline(d: Declaration, k: nat)
    requires d.ClassDecl? ==> '\n' !in d.name && '\n' !in d.parent
    requires d.MethodDecl? ==> forall j :: 0 <= j < |d.params| ==> '\n' !in d.params[j]
    requires k < |SnippetLines(d)|
    ensures '\n' !in SnippetLines(d)[k]
  {
    match d
    case ClassDecl(name, parent) =>
      ClassLineHasNoNewline(name, parent, k);
    case MethodDecl(ret, params) =>
      var lines := SnippetLines(d);
      if k == 0 {
        HeaderHasNoNewline();
      } else if k <= |params| {
        assert lines[k] == ParamLines(params)[k - 1];
        ParamLineHasNoNewline(ParamName(params[k - 1]), k + 1);
      } else {
        ReturnLineHasNoNewline(k + 1);
      }
  }

  /** The snippet text splits back into its template lines: no line holds a newline when the
      next line does not. */
  lemma SnippetSplitsIntoLines(nextLine: string)
    ensures '\n' !in nextLine ==>
      Split(Join(SnippetLines(Classify(nextLine)), '\n'), '\n') == SnippetLines(Classify(nextLine))
  {
    var d := Classify(nextLine);
    var lines := SnippetLines(d);
    if '\n' in nextLine {
    } else if d.ClassDecl? {
      assert forall i :: 0 <= i < |d.name| ==> d.name[i] != '\n';
      assert forall i :: 0 <= i < |d.parent| ==> d.parent[i] != '\n';
    } else {
      ClassifyParamsFromLine(nextLine);
    }
    if '\n' !in nextLine {
      forall k | 0 <= k < |lines| ensures '\n' !in lines[k] {
        TemplateLineHasNoNewline(d, k);
      }
      SplitJoin(lines, '\n');
    }
  }
}
