/** The two fixed regular expressions of the doc-comment synthesiser, as scanners.

    class pattern:   class[\s+]([a-zA-Z]+)[\s+]:[\s+]([a-zA-Z]+)
    method pattern:  [\s+]([a-zA-Z0-9]+)[\s+][^\s^(]*\(([^)]*)\)

    `[\s+]` is ONE character that is whitespace or a literal `+`. In both patterns every
    repeated group is followed by a character its own class excludes, so backtracking can
    never shorten a group: at a given start, each group is the maximal run of its class and
    the match, when there is one, is unique. `split` with a global regular expression tries
    the start positions from left to right and its elements 1 and 2 are the captures of the
    first (leftmost) match; `ClassMatch` and `MethodMatch` return exactly those two captures. */
module Patterns {
  import opened Wrappers
  import opened StringOps

  type Captures = (string, string)

  /** `[\s+]` */
  predicate IsSep(c: char) { IsWhitespace(c) || c == '+' }

  /** `[a-zA-Z]` */
  predicate IsLetter(c: char) { 'a' <= c <= 'z' || 'A' <= c <= 'Z' }

  /** `[a-zA-Z0-9]` */
  predicate IsAlnum(c: char) { IsLetter(c) || IsDigit(c) }

  /** `[^\s^(]` */
  predicate IsNameChar(c: char) { !IsWhitespace(c) && c != '^' && c != '(' }

  /** `[^)]` */
  predicate IsNotCloseParen(c: char) { c != ')' }

  predicate AllOf(t: string, p: char -> bool) {
    forall i :: 0 <= i < |t| ==> p(t[i])
  }

  /** End of the maximal run of characters satisfying `p` that starts at `i`: where a greedy
      `p*` starting at `i` stops. */
  function RunEnd(s: string, i: nat, p: char -> bool): (e: nat)
    requires i <= |s|
    ensures i <= e <= |s|
    decreases |s| - i
  {
    if i < |s| && p(s[i]) then RunEnd(s, i + 1, p) else i
  }

  /** The run stops at the end of the text or at a character that fails `p`. */
  lemma {:induction false} RunEndStops(s: string, i: nat, p: char -> bool)
    requires i <= |s|
    ensures RunEnd(s, i, p) == |s| || !p(s[RunEnd(s, i, p)])
    decreases |s| - i
  {
    if i < |s| && p(s[i]) {
      RunEndStops(s, i + 1, p);
    }
  }

  /** Every character of the run satisfies `p`. */
  lemma {:induction false} RunEndChars(s: string, i: nat, p: char -> bool)
    requires i <= |s|
    ensures forall k :: i <= k < RunEnd(s, i, p) ==> p(s[k])
    decreases |s| - i
  {
    if i < |s| && p(s[i]) {
      RunEndChars(s, i + 1, p);
    }
  }

  /** A run that stops at `e` is the maximal run. */
  lemma {:induction false} RunEndAt(s: string, i: nat, e: nat, p: char -> bool)
    requires i <= e <= |s|
    requires forall k :: i <= k < e ==> p(s[k])
    requires e == |s| || !p(s[e])
    ensures RunEnd(s, i, p) == e
    decreases e - i
  {
    if i < e {
      RunEndAt(s, i + 1, e, p);
    }
  }

  /** A piece `t` of `s` made of `p`-characters and not followed by one is the maximal run. */
  lemma RunEndOfPiece(s: string, i: nat, t: string, p: char -> bool)
    requires i + |t| <= |s| && s[i..i + |t|] == t && AllOf(t, p)
    requires i + |t| == |s| || !p(s[i + |t|])
    ensures RunEnd(s, i, p) == i + |t|
  {
    forall k | i <= k < i + |t| ensures p(s[k]) {
      assert s[k] == t[k - i];
    }
    RunEndAt(s, i, i + |t|, p);
  }

  /** The characters of a maximal run all satisfy `p`. */
  lemma RunIsAllOf(s: string, i: nat, p: char -> bool)
    requires i <= |s|
    ensures AllOf(s[i..RunEnd(s, i, p)], p)
  {
    var e := RunEnd(s, i, p);
    RunEndChars(s, i, p);
    forall k | 0 <= k < e - i ensures p(s[i..e][k]) {
      assert s[i..e][k] == s[i + k];
    }
  }

  /** A separator is neither a letter nor a digit. */
  lemma SepIsNotAlnum(c: char)
    requires IsSep(c)
    ensures !IsAlnum(c) && !IsLetter(c)
  {
  }

  // ---------------------------------------------------------------------------
  // class pattern
  // ---------------------------------------------------------------------------

  /** The class pattern matched at `q`, or None: a match starts with `class` and a separator,
      and both captures are non-empty. */
  function ClassMatchAt(s: string, q: nat): (m: Option<Captures>)
    ensures m.Some? ==> q + 6 <= |s| && s[q..q + 5] == "class" && IsSep(s[q + 5])
    ensures m.Some? ==> |m.value.0| > 0 && |m.value.1| > 0
  {
    if q + 6 <= |s| && s[q..q + 5] == "class" && IsSep(s[q + 5]) then
      var nameEnd := RunEnd(s, q + 6, IsLetter);
      if nameEnd > q + 6 && nameEnd + 3 <= |s| && IsSep(s[nameEnd]) && s[nameEnd + 1] == ':'
         && IsSep(s[nameEnd + 2]) then
        var parentEnd := RunEnd(s, nameEnd + 3, IsLetter);
        if parentEnd > nameEnd + 3 then Some((s[q + 6..nameEnd], s[nameEnd + 3..parentEnd]))
        else None
      else None
    else None
  }

  /** The class pattern matches the text starting at `q` with captures `name` and `parent`, and
      `parent` is as long as the greedy `[a-zA-Z]+` makes it (it is not followed by a letter). */
  predicate ClassPatternAt(s: string, q: nat, name: string, parent: string) {
    var n := q + 6 + |name|;
    var e := n + 3 + |parent|;
    e <= |s|
    && s[q..q + 5] == "class" && IsSep(s[q + 5])
    && |name| > 0 && s[q + 6..n] == name && AllOf(name, IsLetter)
    && IsSep(s[n]) && s[n + 1] == ':' && IsSep(s[n + 2])
    && |parent| > 0 && s[n + 3..e] == parent && AllOf(parent, IsLetter)
    && (e == |s| || !IsLetter(s[e]))
  }

  /** What the scanner returns is a match of the regular expression at `q`. */
  lemma ClassMatchAtSound(s: string, q: nat)
    requires ClassMatchAt(s, q).Some?
    ensures ClassPatternAt(s, q, ClassMatchAt(s, q).value.0, ClassMatchAt(s, q).value.1)
  {
    ClassMatchAtParts(s, q);
    ClassPatternOfRuns(s, q);
  }

  /** What a successful scan has seen: `class`, the separators, the colon and where the two
      runs end. */
  lemma ClassMatchAtParts(s: string, q: nat)
    requires ClassMatchAt(s, q).Some?
    ensures q + 6 <= |s| && s[q..q + 5] == "class" && IsSep(s[q + 5])
    ensures var n := RunEnd(s, q + 6, IsLetter);
            n > q + 6 && n + 3 <= |s| && IsSep(s[n]) && s[n + 1] == ':' && IsSep(s[n + 2])
            && var e := RunEnd(s, n + 3, IsLetter);
               e > n + 3 && ClassMatchAt(s, q).value == (s[q + 6..n], s[n + 3..e])
  {
  }

  /** When the two runs end where the scanner wants them, the pieces between them match. */
  lemma ClassPatternOfRuns(s: string, q: nat)
    requires q + 6 <= |s| && s[q..q + 5] == "class" && IsSep(s[q + 5])
    requires var n := RunEnd(s, q + 6, IsLetter);
             n > q + 6 && n + 3 <= |s| && IsSep(s[n]) && s[n + 1] == ':' && IsSep(s[n + 2])
             && RunEnd(s, n + 3, IsLetter) > n + 3
    ensures var n := RunEnd(s, q + 6, IsLetter);
            var e := RunEnd(s, n + 3, IsLetter);
            ClassPatternAt(s, q, s[q + 6..n], s[n + 3..e])
  {
    var n := RunEnd(s, q + 6, IsLetter);
    var e := RunEnd(s, n + 3, IsLetter);
    RunIsAllOf(s, q + 6, IsLetter);
    RunIsAllOf(s, n + 3, IsLetter);
    RunEndStops(s, n + 3, IsLetter);
  }

  /** Every match of the regular expression at `q` is what the scanner returns. */
  lemma ClassMatchAtComplete(s: string, q: nat, name: string, parent: string)
    requires ClassPatternAt(s, q, name, parent)
    ensures ClassMatchAt(s, q) == Some((name, parent))
  {
    var n := q + 6 + |name|;
    SepIsNotAlnum(s[n]);
    RunEndOfPiece(s, q + 6, name, IsLetter);
    RunEndOfPiece(s, n + 3, parent, IsLetter);
  }

  /** The scanner at `q` returns exactly the captures of the regular expression's match at `q`. */
  lemma ClassMatchAtIff(s: string, q: nat, name: string, parent: string)
    ensures ClassMatchAt(s, q) == Some((name, parent)) <==> ClassPatternAt(s, q, name, parent)
  {
    if ClassMatchAt(s, q) == Some((name, parent)) {
      ClassMatchAtSound(s, q);
    }
    if ClassPatternAt(s, q, name, parent) {
      ClassMatchAtComplete(s, q, name, parent);
    }
  }

  // ---------------------------------------------------------------------------
  // method pattern
  // ---------------------------------------------------------------------------

  /** The method pattern matched at `q`, or None; the captures are the return type and the raw
      text between the parentheses. */
  function MethodMatchAt(s: string, q: nat): (m: Option<Captures>)
    ensures m.Some? ==> q < |s| && IsSep(s[q]) && |m.value.0| > 0
  {
    if q < |s| && IsSep(s[q]) then
      var retEnd := RunEnd(s, q + 1, IsAlnum);
      if retEnd > q + 1 && retEnd < |s| && IsSep(s[retEnd]) then
        var nameEnd := RunEnd(s, retEnd + 1, IsNameChar);
        if nameEnd < |s| && s[nameEnd] == '(' then
          var argsEnd := RunEnd(s, nameEnd + 1, IsNotCloseParen);
          if argsEnd < |s| then
            Some((s[q + 1..retEnd], s[nameEnd + 1..argsEnd]))
          else None
        else None
      else None
    else None
  }

  /** The method pattern matches the text starting at `q`, with return type `ret`, the
      uncaptured name `name` and the parenthesised text `args`. */
  predicate MethodPatternAt(s: string, q: nat, ret: string, name: string, args: string) {
    var r := q + 1 + |ret|;
    var o := r + 1 + |name|;
    var c := o + 1 + |args|;
    c < |s|
    && IsSep(s[q])
    && |ret| > 0 && s[q + 1..r] == ret && AllOf(ret, IsAlnum)
    && IsSep(s[r])
    && s[r + 1..o] == name && AllOf(name, IsNameChar)
    && s[o] == '('
    && s[o + 1..c] == args && AllOf(args, IsNotCloseParen)
    && s[c] == ')'
  }

  /** What the scanner returns is a match of the regular expression at `q`. */
  lemma MethodMatchAtSound(s: string, q: nat)
    requires MethodMatchAt(s, q).Some?
    ensures exists name :: MethodPatternAt(s, q, MethodMatchAt(s, q).value.0, name, MethodMatchAt(s, q).value.1)
  {
    MethodMatchAtParts(s, q);
    MethodPatternOfRuns(s, q);
  }

  /** When the three runs end where the scanner wants them, the pieces between them match. */
  lemma MethodPatternOfRuns(s: string, q: nat)
    requires q < |s| && IsSep(s[q])
    requires var r := RunEnd(s, q + 1, IsAlnum);
             q + 1 < r < |s| && IsSep(s[r])
             && var o := RunEnd(s, r + 1, IsNameChar);
                o < |s| && s[o] == '('
                && RunEnd(s, o + 1, IsNotCloseParen) < |s|
    ensures var r := RunEnd(s, q + 1, IsAlnum);
            var o := RunEnd(s, r + 1, IsNameChar);
            var c := RunEnd(s, o + 1, IsNotCloseParen);
            MethodPatternAt(s, q, s[q + 1..r], s[r + 1..o], s[o + 1..c])
  {
    var r := RunEnd(s, q + 1, IsAlnum);
    var o := RunEnd(s, r + 1, IsNameChar);
    var c := RunEnd(s, o + 1, IsNotCloseParen);
    RunIsAllOf(s, q + 1, IsAlnum);
    RunIsAllOf(s, r + 1, IsNameChar);
    RunIsAllOf(s, o + 1, IsNotCloseParen);
    RunEndStops(s, o + 1, IsNotCloseParen);
    MethodPatternOfEnds(s, q, r, o, c);
  }

  /** What a successful scan has seen: the separators, the `(` and where the three runs end. */
  lemma MethodMatchAtParts(s: string, q: nat)
    requires MethodMatchAt(s, q).Some?
    ensures q < |s| && IsSep(s[q])
    ensures var r := RunEnd(s, q + 1, IsAlnum);
            q + 1 < r < |s| && IsSep(s[r])
            && var o := RunEnd(s, r + 1, IsNameChar);
               o < |s| && s[o] == '('
               && var c := RunEnd(s, o + 1, IsNotCloseParen);
                  c < |s| && MethodMatchAt(s, q).value == (s[q + 1..r], s[o + 1..c])
  {
  }

  /** The pieces between the ends of the three runs make up a match of the pattern. */
  lemma MethodPatternOfEnds(s: string, q: nat, r: nat, o: nat, c: nat)
    requires q < |s| && IsSep(s[q]) && q + 1 < r < |s| && IsSep(s[r])
    requires r < o < c < |s| && s[o] == '(' && s[c] == ')'
    requires AllOf(s[q + 1..r], IsAlnum) && AllOf(s[r + 1..o], IsNameChar)
    requires AllOf(s[o + 1..c], IsNotCloseParen)
    ensures MethodPatternAt(s, q, s[q + 1..r], s[r + 1..o], s[o + 1..c])
  {
  }

  /** The scanner's result once the three runs are known to end at `r`, `o` and `c`. */
  lemma MethodMatchAtOfEnds(s: string, q: nat, r: nat, o: nat, c: nat)
    requires q < |s| && IsSep(s[q]) && q + 1 < r < |s| && IsSep(s[r])
    requires RunEnd(s, q + 1, IsAlnum) == r
    requires r < o < |s| && RunEnd(s, r + 1, IsNameChar) == o && s[o] == '('
    requires o < c < |s| && RunEnd(s, o + 1, IsNotCloseParen) == c
    ensures MethodMatchAt(s, q) == Some((s[q + 1..r], s[o + 1..c]))
  {
  }

  /** Every match of the regular expression at `q` is what the scanner returns. */
  lemma MethodMatchAtComplete(s: string, q: nat, ret: string, name: string, args: string)
    requires MethodPatternAt(s, q, ret, name, args)
    ensures MethodMatchAt(s, q) == Some((ret, args))
  {
    var r := q + 1 + |ret|;
    var o := r + 1 + |name|;
    var c := o + 1 + |args|;
    SepIsNotAlnum(s[r]);
    RunEndOfPiece(s, q + 1, ret, IsAlnum);
    RunEndOfPiece(s, r + 1, name, IsNameChar);
    RunEndOfPiece(s, o + 1, args, IsNotCloseParen);
    MethodMatchAtOfEnds(s, q, r, o, c);
  }

  lemma MethodMatchAtIff(s: string, q: nat, ret: string, args: string)
    ensures MethodMatchAt(s, q) == Some((ret, args))
            <==> exists name :: MethodPatternAt(s, q, ret, name, args)
  {
    if MethodMatchAt(s, q) == Some((ret, args)) {
      MethodMatchAtSound(s, q);
    }
    if name :| MethodPatternAt(s, q, ret, name, args) {
      MethodMatchAtComplete(s, q, ret, name, args);
    }
  }

  // ---------------------------------------------------------------------------
  // the leftmost match, as `split` finds it
  // ---------------------------------------------------------------------------

  /** The first start position at or after `from` where `matchAt` succeeds, with its captures. */
  function FirstMatchFrom(s: string, from: nat, matchAt: (string, nat) -> Option<Captures>)
    : (r: Option<(nat, Captures)>)
    ensures r.Some? ==> from <= r.value.0 < |s| && matchAt(s, r.value.0) == Some(r.value.1)
    ensures r.Some? ==> forall p :: from <= p < r.value.0 ==> matchAt(s, p).None?
    ensures r.None? ==> forall p :: from <= p < |s| ==> matchAt(s, p).None?
    decreases |s| - from
  {
    if from >= |s| then None
    else if matchAt(s, from).Some? then Some((from, matchAt(s, from).value))
    else FirstMatchFrom(s, from + 1, matchAt)
  }

  /** Elements 1 and 2 of `s.split(classPattern)`, when the split found a match. */
  function ClassMatch(s: string): (m: Option<Captures>)
    ensures m.Some? ==> |m.value.0| > 0 && AllOf(m.value.0, IsLetter)
    ensures m.Some? ==> |m.value.1| > 0 && AllOf(m.value.1, IsLetter)
  {
    match FirstMatchFrom(s, 0, ClassMatchAt)
    case Some((q, captures)) =>
      ClassMatchAtSound(s, q);
      Some(captures)
    case None => None
  }

  /** Elements 1 and 2 of `s.split(methodPattern)`, when the split found a match. */
  function MethodMatch(s: string): (m: Option<Captures>)
    ensures m.Some? ==> |m.value.0| > 0 && AllOf(m.value.0, IsAlnum)
    ensures m.Some? ==> ')' !in m.value.1
  {
    match FirstMatchFrom(s, 0, MethodMatchAt)
    case Some((q, captures)) =>
      MethodMatchAtSound(s, q);
      assert forall i :: 0 <= i < |captures.1| ==> captures.1[i] != ')';
      Some(captures)
    case None => None
  }

  /** The captured parameter text is a piece of the line: it has no character the line lacks. */
  lemma MethodArgsFromLine(s: string)
    requires MethodMatch(s).Some?
    ensures forall c :: c in MethodMatch(s).value.1 ==> c in s
  {
    var q := FirstMatchFrom(s, 0, MethodMatchAt).value.0;
    var (ret, args) := MethodMatchAt(s, q).value;
    MethodMatchAtSound(s, q);
    var name :| MethodPatternAt(s, q, ret, name, args);
    var o := q + 1 + |ret| + 1 + |name|;
    forall c | c in args ensures c in s {
      var i :| 0 <= i < |args| && args[i] == c;
      assert s[o + 1..o + 1 + |args|][i] == s[o + 1 + i];
    }
  }

  /** No start position before `q` lets the class pattern match. */
  ghost predicate NoClassPatternBefore(s: string, q: nat) {
    forall p, name, parent :: 0 <= p < q ==> !ClassPatternAt(s, p, name, parent)
  }

  lemma NoClassMatchBefore(s: string, q: nat)
    requires forall p :: 0 <= p < q ==> ClassMatchAt(s, p).None?
    ensures NoClassPatternBefore(s, q)
  {
    forall p, name, parent | 0 <= p < q ensures !ClassPatternAt(s, p, name, parent) {
      ClassMatchAtIff(s, p, name, parent);
    }
  }

  /** `ClassMatch` finds a match exactly when the class pattern matches somewhere, and its
      captures are those of the leftmost match. */
  lemma ClassMatchLeftmost(s: string, name: string, parent: string)
    ensures ClassMatch(s) == Some((name, parent))
            <==> exists q :: 0 <= q < |s| && ClassPatternAt(s, q, name, parent)
                             && NoClassPatternBefore(s, q)
    ensures ClassMatch(s).None? <==> NoClassPatternBefore(s, |s|)
  {
    var r := FirstMatchFrom(s, 0, ClassMatchAt);
    if r.None? {
      NoClassMatchBefore(s, |s|);
    } else {
      var q := r.value.0;
      var found := r.value.1;
      ClassMatchAtIff(s, q, found.0, found.1);
      NoClassMatchBefore(s, q);
      assert !NoClassPatternBefore(s, |s|) by {
        assert ClassPatternAt(s, q, found.0, found.1);
      }
      if q2 :| 0 <= q2 < |s| && ClassPatternAt(s, q2, name, parent) && NoClassPatternBefore(s, q2) {
        if q2 < q {
          assert false;
        } else if q < q2 {
          assert false;
        } else {
          ClassMatchAtIff(s, q, name, parent);
        }
      }
      if found == (name, parent) {
        assert ClassPatternAt(s, q, name, parent) && NoClassPatternBefore(s, q);
      }
    }
  }

  /** No start position before `q` lets the method pattern match. */
  ghost predicate NoMethodPatternBefore(s: string, q: nat) {
    forall p, ret, name, args :: 0 <= p < q ==> !MethodPatternAt(s, p, ret, name, args)
  }

  lemma NoMethodMatchBefore(s: string, q: nat)
    requires forall p :: 0 <= p < q ==> MethodMatchAt(s, p).None?
    ensures NoMethodPatternBefore(s, q)
  {
    forall p, ret, name, args | 0 <= p < q ensures !MethodPatternAt(s, p, ret, name, args) {
      if MethodPatternAt(s, p, ret, name, args) {
        MethodMatchAtComplete(s, p, ret, name, args);
      }
    }
  }

  /** `MethodMatch` finds a match exactly when the method pattern matches somewhere, and its
      captures are those of the leftmost match. */
  lemma MethodMatchLeftmost(s: string, ret: string, args: string)
    ensures MethodMatch(s) == Some((ret, args))
            <==> exists q, name :: 0 <= q < |s| && MethodPatternAt(s, q, ret, name, args)
                                   && NoMethodPatternBefore(s, q)
    ensures MethodMatch(s).None? <==> NoMethodPatternBefore(s, |s|)
  {
    var r := FirstMatchFrom(s, 0, MethodMatchAt);
    if r.None? {
      NoMethodMatchBefore(s, |s|);
    } else {
      var q := r.value.0;
      var found := r.value.1;
      MethodMatchAtSound(s, q);
      var nm :| MethodPatternAt(s, q, found.0, nm, found.1);
      NoMethodMatchBefore(s, q);
      assert !NoMethodPatternBefore(s, |s|) by {
        assert MethodPatternAt(s, q, found.0, nm, found.1);
      }
      if q2, name :| 0 <= q2 < |s| && MethodPatternAt(s, q2, ret, name, args)
                     && NoMethodPatternBefore(s, q2) {
        if q2 < q {
          assert false;
        } else if q < q2 {
          assert false;
        } else {
          MethodMatchAtComplete(s, q, ret, name, args);
        }
      }
      if found == (ret, args) {
        assert MethodPatternAt(s, q, ret, nm, args) && NoMethodPatternBefore(s, q);
      }
    }
  }
}
