/** The completion handler: it reads the word being typed at the cursor, prepends the
    doc-comment item to the static items, gives every item an edit that replaces that word,
    narrows the list to one class's members once the word holds `::`, and caps it. */
module Completion {
  import opened Wrappers
  import opened StringOps
  import DocComment

  datatype Position = Position(line: nat, character: nat)

  datatype Range = Range(start: Position, end: Position)

  /** An edit that inserts or replaces: the editor is given the same range for both. */
  datatype TextEdit = InsertReplaceEdit(newText: string, insert: Range, replace: Range)

  /** The fields of an item that the handler passes through untouched. */
  datatype ItemDetails = ItemDetails(
    description: Option<string>, kind: Option<nat>, insertTextFormat: Option<nat>)

  datatype CompletionItem = CompletionItem(
    labelText: string, insertText: Option<string>, details: ItemDetails, textEdit: Option<TextEdit>)

  datatype CompletionList = CompletionList(isIncomplete: bool, items: seq<CompletionItem>)

  /** `CompletionItemKind.Snippet` of the language server protocol. */
  const SnippetKind: nat := 15
  /** `InsertTextFormat.Snippet` of the language server protocol. */
  const SnippetFormat: nat := 2
  /** The most items one response carries. */
  const MaxItems: nat := 1000

  // ---------------------------------------------------------------------------
  // the word at the cursor
  // ---------------------------------------------------------------------------

  /** `[\s,(]`: what separates the word being typed from the text before it. */
  predicate IsWordDelimiter(c: char) {
    IsWhitespace(c) || c == ',' || c == '('
  }

  /** `currentLine.slice(0, character)`: the line up to the cursor, all of it when the cursor
      lies past its end. */
  function LineUntilCursor(currentLine: string, character: nat): (prefix: string)
    ensures |prefix| == if character < |currentLine| then character else |currentLine|
    ensures StartsWith(currentLine, prefix)
  {
    if character < |currentLine| then currentLine[..character] else currentLine
  }

  /** `word` is what `split(/[\s,(]+/).pop()` leaves of `prefix`: a suffix of it with no
      delimiter in it that cannot be extended to the left. */
  predicate IsLastWord(prefix: string, word: string) {
    && |word| <= |prefix| && word == prefix[|prefix| - |word|..]
    && (forall i :: 0 <= i < |word| ==> !IsWordDelimiter(word[i]))
    && (|word| == |prefix| || IsWordDelimiter(prefix[|prefix| - |word| - 1]))
  }

  /** `prefix.split(/[\s,(]+/).pop()`: the text after the last delimiter. */
  function CurrentWord(prefix: string): (word: string)
    ensures IsLastWord(prefix, word)
    decreases |prefix|
  {
    if prefix == [] || IsWordDelimiter(prefix[|prefix| - 1]) then []
    else CurrentWord(prefix[..|prefix| - 1]) + [prefix[|prefix| - 1]]
  }

  /** The word is empty exactly when the prefix is empty or ends with a delimiter. */
  lemma CurrentWordEmpty(prefix: string)
    ensures CurrentWord(prefix) == [] <==> prefix == [] || IsWordDelimiter(prefix[|prefix| - 1])
  {
  }

  /** Dropping the last character of a non-empty last word leaves the last word of the
      shortened prefix. */
  lemma LastWordShrinks(prefix: string, word: string)
    requires IsLastWord(prefix, word) && word != []
    ensures !IsWordDelimiter(prefix[|prefix| - 1])
    ensures IsLastWord(prefix[..|prefix| - 1], word[..|word| - 1])
    ensures word == word[..|word| - 1] + [prefix[|prefix| - 1]]
  {
    var n := |prefix|;
    var shorter := word[..|word| - 1];
    var init := prefix[..n - 1];
    assert word[|word| - 1] == prefix[n - 1];
    assert shorter == init[|init| - |shorter|..];
    assert forall i :: 0 <= i < |shorter| ==> shorter[i] == word[i];
    assert |shorter| == |init| || init[|init| - |shorter| - 1] == prefix[|prefix| - |word| - 1];
  }

  /** Only one suffix has the properties of the last word: `CurrentWord` is the split's last
      element and nothing else. */
  lemma {:induction false} CurrentWordUnique(prefix: string, word: string)
    requires IsLastWord(prefix, word)
    ensures word == CurrentWord(prefix)
    decreases |prefix|
  {
    if word != [] {
      LastWordShrinks(prefix, word);
      CurrentWordUnique(prefix[..|prefix| - 1], word[..|word| - 1]);
    }
  }

  /** The word at the cursor and the range it occupies on the cursor's line. */
  datatype TokenContext = TokenContext(lineUntilCursor: string, currentWord: string, range: Range)

  /** The replacement range starts where the word starts and ends at the cursor, clamped to the
      line: its width is the word's length and it never leaves the line. */
  function CursorContext(currentLine: string, position: Position): (ctx: TokenContext)
    ensures StartsWith(currentLine, ctx.lineUntilCursor)
    ensures |ctx.lineUntilCursor| == if position.character < |currentLine| then position.character
                                     else |currentLine|
    ensures ctx.currentWord == CurrentWord(ctx.lineUntilCursor)
    ensures ctx.range.start == Position(position.line, |ctx.lineUntilCursor| - |ctx.currentWord|)
    ensures ctx.range.end == Position(position.line, |ctx.lineUntilCursor|)
    ensures ctx.range.end.character - ctx.range.start.character == |ctx.currentWord|
    ensures ctx.range.end.character <= |currentLine|
  {
    var prefix := LineUntilCursor(currentLine, position.character);
    var word := CurrentWord(prefix);
    var start := Position(position.line, |prefix| - |word|);
    TokenContext(prefix, word, Range(start, start.(character := start.character + |word|)))
  }

  // ---------------------------------------------------------------------------
  // items and their edits
  // ---------------------------------------------------------------------------

  /** `insertText ?? label` */
  function NewText(item: CompletionItem): string {
    match item.insertText
    case Some(text) => text
    case None => item.labelText
  }

  /** `{...item, textEdit: {newText, insert: range, replace: range}}`: every modelled field is
      kept and only the edit is set, to one that puts the item's text in place of the range. */
  function WithTextEdit(item: CompletionItem, range: Range): (prepared: CompletionItem)
    ensures prepared.labelText == item.labelText && prepared.insertText == item.insertText
    ensures prepared.details == item.details
    ensures prepared.textEdit.Some?
    ensures prepared.textEdit.value.newText
            == (if item.insertText.Some? then item.insertText.value else item.labelText)
    ensures prepared.textEdit.value.insert == range && prepared.textEdit.value.replace == range
  {
    item.(textEdit := Some(InsertReplaceEdit(NewText(item), range, range)))
  }

  /** `items.map(...)`: item i becomes item i with its edit set, so the prepared list keeps the
      given items' order. */
  function PrepareAll(items: seq<CompletionItem>, range: Range): (prepared: seq<CompletionItem>)
    ensures |prepared| == |items|
    ensures forall i :: 0 <= i < |items| ==> prepared[i] == WithTextEdit(items[i], range)
  {
    seq(|items|, i requires 0 <= i < |items| => WithTextEdit(items[i], range))
  }

  /** The item shown for `///`: a snippet item whose text is the synthesised doc-comment
      template for the next line, one template line per text line. */
  function DocItem(nextLine: string): (item: CompletionItem)
    ensures item.labelText == "///" && item.insertText.Some? && item.textEdit.None?
    ensures item.details.kind == Some(SnippetKind) && item.details.insertTextFormat == Some(SnippetFormat)
    ensures '\n' !in nextLine ==>
      Split(item.insertText.value, '\n') == DocComment.SnippetLines(DocComment.Classify(nextLine))
  {
    CompletionItem(
      "///", Some(DocComment.DocCommentSnippet(nextLine)),
      ItemDetails(Some("Doc comment block"), Some(SnippetKind), Some(SnippetFormat)), None)
  }

  // ---------------------------------------------------------------------------
  // filtering and truncation
  // ---------------------------------------------------------------------------

  /** `a` is `b` with some elements left out and the rest in their order. */
  predicate IsSubsequence<T(==)>(a: seq<T>, b: seq<T>)
    decreases |b|
  {
    if a == [] then true
    else if b == [] then false
    else (a[0] == b[0] && IsSubsequence(a[1..], b[1..])) || IsSubsequence(a, b[1..])
  }

  /** Case-insensitive `label.startsWith(word)`. */
  predicate LabelMatches(item: CompletionItem, word: string) {
    StartsWith(Lower(item.labelText), Lower(word))
  }

  /** The test ignores case: lower-casing the word or the label first changes nothing. */
  lemma LabelMatchesIgnoresCase(item: CompletionItem, word: string)
    ensures LabelMatches(item, Lower(word)) == LabelMatches(item, word)
    ensures LabelMatches(item.(labelText := Lower(item.labelText)), word) == LabelMatches(item, word)
  {
  }

  /** `items.filter(...)`: exactly the items whose label starts with the word, in their order,
      each as often as it occurs among the items. */
  function KeepMatching(items: seq<CompletionItem>, word: string): (kept: seq<CompletionItem>)
    ensures forall k :: 0 <= k < |kept| ==> LabelMatches(kept[k], word)
    ensures forall i :: 0 <= i < |items| && LabelMatches(items[i], word) ==> items[i] in kept
    ensures forall x :: multiset(kept)[x] == if LabelMatches(x, word) then multiset(items)[x] else 0
    ensures IsSubsequence(kept, items)
    decreases |items|
  {
    if items == [] then []
    else
      var rest := KeepMatching(items[1..], word);
      assert forall i :: 1 <= i < |items| ==> items[i] == items[1..][i - 1];
      assert items == [items[0]] + items[1..];
      assert multiset(items) == multiset{items[0]} + multiset(items[1..]);
      if LabelMatches(items[0], word) then
        assert multiset([items[0]] + rest) == multiset{items[0]} + multiset(rest);
        [items[0]] + rest
      else rest
  }

  /** `xs.slice(0, n)` */
  function Truncate<T>(xs: seq<T>, n: nat): (ys: seq<T>)
    ensures |ys| == if |xs| < n then |xs| else n
    ensures ys == xs[..|ys|]
  {
    if |xs| <= n then xs else xs[..n]
  }

  // ---------------------------------------------------------------------------
  // the handler
  // ---------------------------------------------------------------------------

  /** The assembler: given every item (the doc-comment item first) and the word at the cursor,
      it sets each item's edit, keeps the class's members once the word holds `::`, caps the
      list and marks it incomplete so that the editor asks again on the next keystroke. */
  function Assemble(all: seq<CompletionItem>, ctx: TokenContext): (list: CompletionList)
    ensures list.isIncomplete
    ensures |list.items| <= MaxItems
  {
    var prepared := PrepareAll(all, ctx.range);
    var filtered :=
      if HasDoubleColon(ctx.currentWord) then KeepMatching(prepared, ctx.currentWord) else prepared;
    CompletionList(true, Truncate(filtered, MaxItems))
  }

  /** `documentContent.split("\n")[line + 1] ?? ""` */
  function NextLine(lines: seq<string>, line: nat): (next: string)
    ensures line + 1 < |lines| ==> next == lines[line + 1]
    ensures line + 1 >= |lines| ==> next == []
    ensures (forall k :: 0 <= k < |lines| ==> '\n' !in lines[k]) ==> '\n' !in next
  {
    if line + 1 < |lines| then lines[line + 1] else ""
  }

  /** The word and range at the cursor of a document. */
  function ContextAt(text: string, position: Position): TokenContext
    requires position.line < |Split(text, '\n')|
  {
    CursorContext(Split(text, '\n')[position.line], position)
  }

  /** The completion response for a cursor in a document, given the static items. */
  function OnCompletion(text: string, position: Position, staticItems: seq<CompletionItem>)
    : (list: CompletionList)
    requires position.line < |Split(text, '\n')|
    ensures list.isIncomplete
    ensures |list.items| <= MaxItems
  {
    var lines := Split(text, '\n');
    var ctx := CursorContext(lines[position.line], position);
    Assemble([DocItem(NextLine(lines, position.line))] + staticItems, ctx)
  }

  // ---------------------------------------------------------------------------
  // what the response promises
  // ---------------------------------------------------------------------------

  lemma {:induction false} SubsequencePrefix<T>(a: seq<T>, b: seq<T>, n: nat)
    requires IsSubsequence(a, b) && n <= |a|
    ensures IsSubsequence(a[..n], b)
    decreases |b|
  {
    if n > 0 {
      if a[0] == b[0] && IsSubsequence(a[1..], b[1..]) {
        SubsequencePrefix(a[1..], b[1..], n - 1);
        assert a[..n][1..] == a[1..][..n - 1];
      } else {
        SubsequencePrefix(a, b[1..], n);
      }
    }
  }

  lemma {:induction false} SubsequenceElements<T>(a: seq<T>, b: seq<T>)
    requires IsSubsequence(a, b)
    ensures forall x :: x in a ==> x in b
    decreases |b|
  {
    if a != [] {
      if a[0] == b[0] && IsSubsequence(a[1..], b[1..]) {
        SubsequenceElements(a[1..], b[1..]);
        assert forall x :: x in a ==> x == a[0] || x in a[1..];
      } else {
        SubsequenceElements(a, b[1..]);
      }
      assert forall x :: x in b[1..] ==> x in b;
    }
  }

  lemma {:induction false} SubsequenceOfItself<T>(a: seq<T>)
    ensures IsSubsequence(a, a)
    decreases |a|
  {
    if a != [] {
      SubsequenceOfItself(a[1..]);
    }
  }

  /** The response lists prepared items in their original order, none twice: the first
      `MaxItems` of those the filter kept. */
  lemma AssembledIsSubsequence(all: seq<CompletionItem>, ctx: TokenContext)
    ensures IsSubsequence(Assemble(all, ctx).items, PrepareAll(all, ctx.range))
  {
    var prepared := PrepareAll(all, ctx.range);
    var filtered :=
      if HasDoubleColon(ctx.currentWord) then KeepMatching(prepared, ctx.currentWord) else prepared;
    if !HasDoubleColon(ctx.currentWord) {
      SubsequenceOfItself(prepared);
    }
    SubsequencePrefix(filtered, prepared, |Assemble(all, ctx).items|);
  }

  /** Every returned item is one of the given items with all its fields kept and an edit that
      puts its `insertText ?? label` in place of the word at the cursor. */
  lemma EveryItemReplacesCurrentWord(all: seq<CompletionItem>, ctx: TokenContext)
    ensures var items := Assemble(all, ctx).items;
      forall k :: 0 <= k < |items| ==>
        exists i :: 0 <= i < |all| && items[k] == WithTextEdit(all[i], ctx.range)
    ensures var items := Assemble(all, ctx).items;
      forall k :: 0 <= k < |items| ==>
        items[k].textEdit == Some(InsertReplaceEdit(NewText(items[k]), ctx.range, ctx.range))
  {
    var prepared := PrepareAll(all, ctx.range);
    var items := Assemble(all, ctx).items;
    AssembledIsSubsequence(all, ctx);
    SubsequenceElements(items, prepared);
    forall k | 0 <= k < |items|
      ensures exists i :: 0 <= i < |all| && items[k] == WithTextEdit(all[i], ctx.range)
      ensures items[k].textEdit == Some(InsertReplaceEdit(NewText(items[k]), ctx.range, ctx.range))
    {
      assert items[k] in prepared;
      var i :| 0 <= i < |prepared| && prepared[i] == items[k];
      assert prepared[i] == WithTextEdit(all[i], ctx.range);
    }
  }

  /** A word holding `::` can never be a prefix of `///`. */
  lemma DoubleColonExcludesDocLabel(word: string)
    requires HasDoubleColon(word)
    ensures !StartsWith(Lower("///"), Lower(word))
  {
    var i :| 0 <= i < |word| - 1 && word[i] == ':' && word[i + 1] == ':';
    assert Lower(word)[i] == ':';
    assert forall j :: 0 <= j < 3 ==> Lower("///")[j] == '/';
  }

  /** Once the word holds `::`, every returned item's lower-cased label starts with the
      lower-cased word, so no `///` item is among them. */
  lemma NamespaceFilter(all: seq<CompletionItem>, ctx: TokenContext)
    requires HasDoubleColon(ctx.currentWord)
    ensures var items := Assemble(all, ctx).items;
      forall k :: 0 <= k < |items| ==>
        LabelMatches(items[k], ctx.currentWord) && items[k].labelText != "///"
  {
    DoubleColonExcludesDocLabel(ctx.currentWord);
  }

  /** With `::` in the word the response is the matching prepared items in their order, cut
      at `MaxItems`; when no more than `MaxItems` match, every one of them is returned, each as
      often as it occurs. */
  lemma FilteredResponse(all: seq<CompletionItem>, ctx: TokenContext)
    requires HasDoubleColon(ctx.currentWord)
    ensures var kept := KeepMatching(PrepareAll(all, ctx.range), ctx.currentWord);
      var items := Assemble(all, ctx).items;
      && |items| == (if |kept| < MaxItems then |kept| else MaxItems)
      && items == kept[..|items|]
    ensures var prepared := PrepareAll(all, ctx.range);
      var items := Assemble(all, ctx).items;
      |KeepMatching(prepared, ctx.currentWord)| <= MaxItems ==>
        forall x :: multiset(items)[x]
                    == if LabelMatches(x, ctx.currentWord) then multiset(prepared)[x] else 0
  {
  }

  /** Without `::` nothing is filtered out: the items come in their given order, all of them up
      to `MaxItems`. */
  lemma NoFilterWithoutDoubleColon(all: seq<CompletionItem>, ctx: TokenContext)
    requires !HasDoubleColon(ctx.currentWord)
    ensures var items := Assemble(all, ctx).items;
      && |items| == (if |all| < MaxItems then |all| else MaxItems)
      && forall i :: 0 <= i < |items| ==> items[i] == WithTextEdit(all[i], ctx.range)
  {
  }

  /** With one item put before the others and no `::` in the word, that item comes first and
      the others follow in their order. */
  lemma FirstItemThenOthers(first: CompletionItem, others: seq<CompletionItem>, ctx: TokenContext)
    requires !HasDoubleColon(ctx.currentWord)
    ensures var items := Assemble([first] + others, ctx).items;
      && |items| == (if 1 + |others| < MaxItems then 1 + |others| else MaxItems)
      && items[0] == WithTextEdit(first, ctx.range)
      && forall i :: 0 <= i < |items| - 1 ==> items[i + 1] == WithTextEdit(others[i], ctx.range)
  {
    var all := [first] + others;
    NoFilterWithoutDoubleColon(all, ctx);
    var items := Assemble(all, ctx).items;
    forall i | 0 <= i < |items| - 1 ensures items[i + 1] == WithTextEdit(others[i], ctx.range) {
      assert all[i + 1] == others[i];
    }
  }

  /** The handler's response: the `///` item first and then the static items in their order
      when the word has no `::`; every item's edit replaces the word at the cursor. */
  lemma OnCompletionResponse(text: string, position: Position, staticItems: seq<CompletionItem>)
    requires position.line < |Split(text, '\n')|
    ensures var ctx := ContextAt(text, position);
      var items := OnCompletion(text, position, staticItems).items;
      forall k :: 0 <= k < |items| ==>
        items[k].textEdit == Some(InsertReplaceEdit(NewText(items[k]), ctx.range, ctx.range))
    ensures var ctx := ContextAt(text, position);
      var nextLine := NextLine(Split(text, '\n'), position.line);
      var items := OnCompletion(text, position, staticItems).items;
      !HasDoubleColon(ctx.currentWord) ==>
        && |items| == (if 1 + |staticItems| < MaxItems then 1 + |staticItems| else MaxItems)
        && items[0] == WithTextEdit(DocItem(nextLine), ctx.range)
        && forall i :: 0 <= i < |items| - 1 ==> items[i + 1] == WithTextEdit(staticItems[i], ctx.range)
  {
    var ctx := ContextAt(text, position);
    var doc := DocItem(NextLine(Split(text, '\n'), position.line));
    assert OnCompletion(text, position, staticItems) == Assemble([doc] + staticItems, ctx);
    EveryItemReplacesCurrentWord([doc] + staticItems, ctx);
    if !HasDoubleColon(ctx.currentWord) {
      FirstItemThenOthers(doc, staticItems, ctx);
    }
  }

  /** The `///` item's text is the template for the line after the cursor (the empty line on
      the last line), one template line per text line. */
  lemma DocItemIsTemplateOfNextLine(text: string, position: Position)
    requires position.line < |Split(text, '\n')|
    ensures var nextLine := NextLine(Split(text, '\n'), position.line);
      && DocItem(nextLine).insertText.Some?
      && Split(DocItem(nextLine).insertText.value, '\n')
         == DocComment.SnippetLines(DocComment.Classify(nextLine))
  {
    var lines := Split(text, '\n');
    var nextLine := NextLine(lines, position.line);
    assert '\n' !in nextLine;
  }

  /** With the cursor at the start of a line the word is empty and every edit only inserts. */
  lemma CursorAtLineStart(text: string, position: Position)
    requires position.line < |Split(text, '\n')| && position.character == 0
    ensures ContextAt(text, position).currentWord == []
    ensures ContextAt(text, position).range == Range(Position(position.line, 0), Position(position.line, 0))
  {
  }
}
