# Completion handler of the VUEngine language server

This project models the completion handler of the VUEngine language server
(`server/src/handlers/completion.ts`) in Dafny and proves properties of the model.

The handler answers a completion request at a cursor position in a document. It takes the
text of the cursor's line up to the cursor and the word being typed there: the text after
the last run of whitespace, commas and opening parentheses. It then builds the item list:

- a `///` item, whose snippet is a doc-comment template for the line after the cursor;
- the static items, in their order.

Every item gets an edit that replaces the word being typed with the item's `insertText`,
or with its label when it has no `insertText`. When the word contains `::`, the handler
keeps only the items whose lower-cased label starts with the lower-cased word. It caps the
list at 1000 items and marks it incomplete.

The doc-comment synthesiser reads the next line with two fixed regular expressions:

- A class declaration `class Name : Parent` gets a six-line template that names the class
  and its parent.
- Anything else is read as a method. It gets a header line and one `@param` line per
  parameter. A `@return` line follows unless the return type is `void`.
- The placeholders `${n:...}` are numbered 1, 2, 3, … in line order, as long as the next line
  holds no `$`. Parameter names are inserted unescaped, so a name containing a marker adds
  that marker's tab stop.

Modules:

- `Wrappers`: the `Option` type.
- `StringOps`: the JavaScript string built-ins the handler uses, which are `split` and
  `join` by one character, `trim`, `startsWith`, `includes("::")`, ASCII `toLowerCase` and
  the decimal rendering of a number.
- `Patterns`: the two regular expressions as deterministic scanners. Each scanner is proved
  equal to a declarative reading of its pattern and to the leftmost match that `split` uses.
- `DocComment`: the synthesiser. It has a declarative template (`SnippetLines`) and the
  imperative method `GetDocCommentSnippet`, which pushes lines in a loop and is proved to
  build that template.
- `DocCommentExamples`: the templates produced for concrete next lines.
- `Completion`: the handler and the properties of its response.

Two behaviours of the code may surprise a reader, and the model keeps both:

- The method pattern starts with a `[\s+]` character. An unindented method line such as
  `void Run()` therefore matches nothing. Its return type is undefined, so its template gets
  the `@return` line, not just the opening line (see `DocCommentExamples.UnindentedLineSnippet`).
- The replacement range starts at the length of the cursor's line prefix minus the word's
  length, and that prefix is clamped to the line. A cursor past the end of its line
  therefore gives a range that ends at the line's end, not at the cursor.

## Model

| member | source | states |
|---|---|---|
| Completion.LineUntilCursor | server/src/handlers/completion.ts:9 | the prefix is a prefix of the line; its length is the cursor column, clamped to the line's length |
| Completion.CurrentWord | server/src/handlers/completion.ts:10 | the word is a delimiter-free suffix of the prefix, and it is preceded by a delimiter or starts the prefix |
| Completion.CurrentWordEmpty | server/src/handlers/completion.ts:10 | the word is empty iff the prefix is empty or ends with whitespace, `,` or `(` |
| Completion.LastWordShrinks | server/src/handlers/completion.ts:10 | dropping the last character of a last word leaves the last word of the shortened prefix |
| Completion.CurrentWordUnique | server/src/handlers/completion.ts:10 | any suffix with the last-word properties equals `CurrentWord`, which is therefore exactly what the split's last element is |
| Completion.CursorContext | server/src/handlers/completion.ts:25-36 | the range starts at prefix length minus word length, ends at the prefix's end, spans exactly the word, and stays on the line |
| Completion.WithTextEdit | server/src/handlers/completion.ts:38-46 | label, insert text and details are kept; the edit's text is `insertText ?? label`, and the edit inserts and replaces the same range |
| Completion.PrepareAll | server/src/handlers/completion.ts:29-47 | item i of the result is given item i with its edit set (`WithTextEdit`), so the prepared list has the given items in their order |
| Completion.KeepMatching | server/src/handlers/completion.ts:50-52 | every kept item's lower-cased label starts with the lower-cased word; each matching item is kept exactly as often as it occurs and no other item is kept; the kept items keep their order |
| Completion.Truncate | server/src/handlers/completion.ts:56 | the result is the first `min(len, n)` elements |
| Completion.DocItem | server/src/handlers/completion.ts:12-21 | the `///` item is a snippet item with no edit yet, and its text splits at newlines into the template lines for the next line |
| Completion.Assemble | server/src/handlers/completion.ts:29-57 | the list is marked incomplete and holds at most 1000 items |
| Completion.NextLine | server/src/handlers/completion.ts:8 | the line after the cursor's line, or the empty text on the last line; it holds no newline when no line does |
| Completion.OnCompletion | server/src/handlers/completion.ts:5-57 | the response is marked incomplete and holds at most 1000 items |
| Completion.SubsequencePrefix | server/src/handlers/completion.ts:56 | a prefix of an order-preserving selection is one too |
| Completion.SubsequenceElements | server/src/handlers/completion.ts:50-52 | every element of an order-preserving selection occurs in the source list |
| Completion.SubsequenceOfItself | server/src/handlers/completion.ts:52 | the unfiltered list is an order-preserving selection of itself |
| Completion.AssembledIsSubsequence | server/src/handlers/completion.ts:50-56 | the returned items are an order-preserving selection of the prepared items |
| Completion.EveryItemReplacesCurrentWord | server/src/handlers/completion.ts:25-47 | every returned item is a given item with its edit set; the edit puts `insertText ?? label` over the word's range |
| Completion.DoubleColonExcludesDocLabel | server/src/handlers/completion.ts:50-51 | a word containing `::` is never a case-insensitive prefix of `///` |
| Completion.LabelMatchesIgnoresCase | server/src/handlers/completion.ts:51 | the prefix test gives the same answer when the word or the label is lower-cased first, so it ignores case |
| Completion.NamespaceFilter | server/src/handlers/completion.ts:50-51 | with `::` in the word, every returned item's label starts with the word, so the `///` item is dropped |
| Completion.FilteredResponse | server/src/handlers/completion.ts:50-56 | with `::`, the response is the matching prepared items in order, cut at 1000; when at most 1000 match, every matching item is returned exactly as often as it occurs |
| Completion.NoFilterWithoutDoubleColon | server/src/handlers/completion.ts:50-56 | without `::`, the response is the first `min(n, 1000)` prepared items in their order |
| Completion.FirstItemThenOthers | server/src/handlers/completion.ts:12-23 | without `::`, the first item comes first and the others follow in order, up to the cap |
| Completion.OnCompletionResponse | server/src/handlers/completion.ts:5-57 | every edit replaces the word at the cursor; without `::`, the `///` item comes first and then the static items, up to 1000 |
| Completion.DocItemIsTemplateOfNextLine | server/src/handlers/completion.ts:8-19 | the `///` item's text splits at newlines into the template lines for the next line, or for the empty line on a document's last line |
| Completion.CursorAtLineStart | server/src/handlers/completion.ts:25-36 | at column 0 the word is empty and the range is empty at the line's start |
| StringOps.Split | server/src/handlers/completion.ts:79 | at least one piece; no piece contains the separator; two or more pieces iff the text contains the separator |
| StringOps.Join | server/src/handlers/completion.ts:92 | the text starts with the first piece, and a separator follows it when another piece does |
| StringOps.JoinSplit | server/src/handlers/completion.ts:92 | joining the pieces of a split gives back the text |
| StringOps.SplitNoSeparator | server/src/handlers/completion.ts:82 | a text without the separator splits into itself |
| StringOps.SplitAfterPiece | server/src/handlers/completion.ts:92 | a separator after a separator-free piece closes exactly that piece |
| StringOps.SplitJoin | server/src/handlers/completion.ts:92 | splitting the join of separator-free pieces gives back the pieces |
| StringOps.SplitLastPiece | server/src/handlers/completion.ts:82 | `split(sep).pop()` is the text after the last separator |
| StringOps.TrimStart | server/src/handlers/completion.ts:79 | drops exactly the leading whitespace |
| StringOps.TrimEnd | server/src/handlers/completion.ts:79 | drops exactly the trailing whitespace |
| StringOps.Trim | server/src/handlers/completion.ts:79 | the result is a contiguous piece of the input with only whitespace around it, and it has no whitespace at either end |
| StringOps.HasDoubleColon | server/src/handlers/completion.ts:50 | true iff two adjacent `:` occur |
| StringOps.Lower | server/src/handlers/completion.ts:51 | lower-casing keeps the length, turns each upper-case ASCII letter into its lower-case letter, keeps every other character, and leaves no upper-case ASCII letter |
| StringOps.LowerIdempotent | server/src/handlers/completion.ts:51 | lower-casing a lower-cased text changes nothing |
| StringOps.Decimal | server/src/handlers/completion.ts:83 | the rendering is a non-empty run of digits, and it starts with `0` only for zero, so there are no leading zeros |
| StringOps.DecimalRoundTrip | server/src/handlers/completion.ts:83 | reading the rendered digits back gives the number |
| Patterns.RunEndStops | server/src/handlers/completion.ts:77 | a greedy run stops at the text's end or at a character outside its class |
| Patterns.RunEndChars | server/src/handlers/completion.ts:77 | every character of a greedy run is in its class |
| Patterns.ClassMatchAt | server/src/handlers/completion.ts:63 | a match at a position starts there with `class` and a separator, and both captures are non-empty |
| Patterns.ClassMatchAtSound | server/src/handlers/completion.ts:63 | what the class scanner returns at a position is a match of the class pattern there |
| Patterns.ClassMatchAtComplete | server/src/handlers/completion.ts:63 | every match of the class pattern at a position is what the scanner returns there |
| Patterns.ClassMatchAtIff | server/src/handlers/completion.ts:63 | the scanner returns these captures iff the class pattern matches with them |
| Patterns.MethodMatchAt | server/src/handlers/completion.ts:77 | a match at a position starts there with a separator, and the return type is non-empty |
| Patterns.MethodMatchAtSound | server/src/handlers/completion.ts:77 | what the method scanner returns at a position is a match of the method pattern there |
| Patterns.MethodMatchAtComplete | server/src/handlers/completion.ts:77 | every match of the method pattern at a position is what the scanner returns there |
| Patterns.MethodMatchAtIff | server/src/handlers/completion.ts:77 | the scanner returns these captures iff the method pattern matches with them and some name |
| Patterns.FirstMatchFrom | server/src/handlers/completion.ts:63-77 | the result is the first position that matches, and no earlier position matches; None iff no position matches |
| Patterns.ClassMatch | server/src/handlers/completion.ts:63-64 | the class name and the parent are non-empty runs of letters |
| Patterns.MethodMatch | server/src/handlers/completion.ts:77-78 | the return type is a non-empty run of letters and digits; the parameter text holds no `)` |
| Patterns.MethodArgsFromLine | server/src/handlers/completion.ts:77-79 | the parameter text holds only characters of the line |
| Patterns.NoClassMatchBefore | server/src/handlers/completion.ts:63 | scanner failures before a position mean no pattern match before it |
| Patterns.ClassMatchLeftmost | server/src/handlers/completion.ts:63-64 | `split`'s elements 1 and 2 are the captures of the leftmost class match; none iff the pattern matches nowhere |
| Patterns.NoMethodMatchBefore | server/src/handlers/completion.ts:77 | scanner failures before a position mean no pattern match before it |
| Patterns.MethodMatchLeftmost | server/src/handlers/completion.ts:77-79 | `split`'s elements 1 and 2 are the captures of the leftmost method match; none iff the pattern matches nowhere |
| DocComment.ParamList | server/src/handlers/completion.ts:79 | empty text gives no parameters; otherwise parameter k is the trimmed k-th comma-separated piece, and there are as many parameters as pieces |
| DocComment.Classify | server/src/handlers/completion.ts:63-79 | a class iff the class pattern matches, with letter-only names; otherwise a method whose return type, when defined, is alphanumeric |
| DocComment.ClassifyParamsFromLine | server/src/handlers/completion.ts:77-79 | a method's parameters hold only characters of the line |
| DocComment.ParamName | server/src/handlers/completion.ts:82 | the name has no space, no whitespace at its ends, and only characters of the parameter |
| DocComment.ParamNameAfterLastSpace | server/src/handlers/completion.ts:82 | the name is the trimmed text after the last space |
| DocComment.ParamNameWithoutSpace | server/src/handlers/completion.ts:82 | a parameter without a space is its own trimmed name |
| DocComment.Indexed | server/src/handlers/completion.ts:81-85 | the mapped sequence has element `f(x, k)` at each index `k` |
| DocComment.IndexedExtend | server/src/handlers/completion.ts:81-85 | mapping one more element appends its image |
| DocComment.ParamLinesExtend | server/src/handlers/completion.ts:81-85 | the next parameter's line is numbered two past its index |
| DocComment.TemplateGrows | server/src/handlers/completion.ts:81-85 | one loop step extends the pushed lines by the next parameter's line |
| DocComment.SnippetLines | server/src/handlers/completion.ts:63-90 | a template has at least one line |
| DocComment.ClassTemplate | server/src/handlers/completion.ts:63-71 | a class match gives the six class lines with its name and parent |
| DocComment.MethodTemplate | server/src/handlers/completion.ts:72-89 | otherwise: header, the parameter lines, and the `@return` line unless the return type is `void` |
| DocComment.DocCommentSnippet | server/src/handlers/completion.ts:60-93 | when the next line holds no newline, the snippet splits at newlines into the template lines for it |
| DocComment.GetDocCommentSnippet | server/src/handlers/completion.ts:60-93 | the pushed lines, joined by newlines, are the declarative template of the next line |
| DocComment.PlaceholderNumberOf | server/src/handlers/completion.ts:83 | the number of a marker reads back as the number rendered into it |
| DocComment.MarkersSkip | server/src/handlers/completion.ts:83 | positions with no `$` between two points add no marker |
| DocComment.NoMarkersBefore | server/src/handlers/completion.ts:83 | there is no marker before the first `$` |
| DocComment.PlaceholderOf | server/src/handlers/completion.ts:83 | a line whose only `$` opens `${n:` carries exactly placeholder n |
| DocComment.NoPlaceholderWithoutDollar | server/src/handlers/completion.ts:66-70 | a line without `$` carries no placeholder |
| DocComment.TwoPlaceholdersOf | server/src/handlers/completion.ts:83 | a line with two markers and no other `$` carries both numbers, left to right |
| DocComment.FirstMarker | server/src/handlers/completion.ts:83 | the markers before a second marker are those of the first |
| DocComment.BetweenMarkers | server/src/handlers/completion.ts:83 | no `$` lies inside a marker or in the `$`-free text after it |
| DocComment.LastMarkerAt | server/src/handlers/completion.ts:83 | a marker with no `$` after it is the line's last |
| DocComment.MarkerSlices | server/src/handlers/completion.ts:83 | where the `${`, the number and the rest of a marker sit in a line |
| DocComment.PlaceholdersAllPresent | server/src/handlers/completion.ts:74-88 | lines numbered `base + k` list the numbers `base, base + 1, …` |
| DocComment.PlaceholdersAppend | server/src/handlers/completion.ts:92 | the placeholder list of joined line lists is the concatenation |
| DocComment.PlaceholdersAllAbsent | server/src/handlers/completion.ts:66-70 | lines without placeholders contribute none |
| DocComment.MethodTemplateLength | server/src/handlers/completion.ts:74-89 | a method template has 1 + params lines, plus one unless the method returns `void` |
| DocComment.MethodTemplateHeader | server/src/handlers/completion.ts:74 | line 0 is the header |
| DocComment.MethodTemplateParam | server/src/handlers/completion.ts:81-85 | line j + 1 documents parameter j with placeholder j + 2 |
| DocComment.MethodTemplateReturn | server/src/handlers/completion.ts:87-89 | unless `void`, the last line is `@return`, numbered one past the last parameter |
| DocComment.HeaderPlaceholder | server/src/handlers/completion.ts:74 | the header carries exactly placeholder 1 |
| DocComment.ParamLinePlaceholder | server/src/handlers/completion.ts:83 | a parameter line whose name holds no `$` carries exactly its own number |
| DocComment.ReturnLinePlaceholder | server/src/handlers/completion.ts:88 | the return line carries exactly its own number |
| DocComment.MethodHeaderPlaceholder | server/src/handlers/completion.ts:74 | line 0 of a method template carries placeholder 1 |
| DocComment.ParamIndexPlaceholder | server/src/handlers/completion.ts:81-85 | line j + 1 of a method template, the line for parameter j, carries exactly placeholder j + 2 when that parameter holds no `$` |
| DocComment.MethodReturnPlaceholder | server/src/handlers/completion.ts:87-89 | the return line k carries placeholder k + 1 |
| DocComment.MethodLinePlaceholder | server/src/handlers/completion.ts:74-89 | every line k of a method template carries exactly placeholder k + 1 when no parameter holds a `$` |
| DocComment.ParamLinePrefix | server/src/handlers/completion.ts:83 | a parameter line starts with `/// @param name: ` and is not a `@return` line |
| DocComment.ReturnLinePrefix | server/src/handlers/completion.ts:88 | the return line starts with `/// @return ` |
| DocComment.HeaderPrefix | server/src/handlers/completion.ts:74 | the header is not a tag line |
| DocComment.MethodSnippetShape | server/src/handlers/completion.ts:74-89 | method template length; parameter line k names parameter k; the last line is `@return` iff the return type is not `void` |
| DocComment.ClassLinesUntagged | server/src/handlers/completion.ts:66-71 | no class line starts with `/// @` |
| DocComment.ClassPlaceholders | server/src/handlers/completion.ts:66-71 | the class template's only placeholder is 1 |
| DocComment.ClassSnippetShape | server/src/handlers/completion.ts:66-71 | six lines naming the class and its parent, no tag line, placeholders exactly [1] |
| DocComment.PlaceholdersNumberedFromOne | server/src/handlers/completion.ts:63-90 | for a next line without `$`, the snippet's markers, read left to right, are 1, 2, …, m with m >= 1 |
| DocComment.PlaceholderHasNoNewline | server/src/handlers/completion.ts:83 | a placeholder with newline-free text has no newline |
| DocComment.ParamLineHasNoNewline | server/src/handlers/completion.ts:83 | a parameter line with a newline-free name has no newline |
| DocComment.ReturnLineHasNoNewline | server/src/handlers/completion.ts:88 | the return line has no newline |
| DocComment.HeaderHasNoNewline | server/src/handlers/completion.ts:74 | the header has no newline |
| DocComment.ClassLineHasNoNewline | server/src/handlers/completion.ts:66-71 | class lines with newline-free names have no newline |
| DocComment.TemplateLineHasNoNewline | server/src/handlers/completion.ts:66-88 | every template line is newline-free when the names in it are |
| DocComment.SnippetSplitsIntoLines | server/src/handlers/completion.ts:92 | splitting the snippet at newlines gives back the template lines |
| DocCommentExamples.ClassLine | server/src/handlers/completion.ts:63-64 | `class Foo : Bar` is the class `Foo` with parent `Bar` |
| DocCommentExamples.ClassDocLine | server/src/handlers/completion.ts:71 | the modelled closing class line is `/// ${1:Class documentation}.` |
| DocCommentExamples.ClassDeclSnippet | server/src/handlers/completion.ts:66-71 | the six class lines for `Foo` and `Bar`, written out |
| DocCommentExamples.ClassLineSnippet | server/src/handlers/completion.ts:63-71 | the template of `class Foo : Bar`, written out |
| DocCommentExamples.NoClassWithoutC | server/src/handlers/completion.ts:63-64 | a line without the letter `c` holds no class declaration |
| DocCommentExamples.MethodLineOfParts | server/src/handlers/completion.ts:77 | a line that consists of exactly a separator, return type, separator, name and a parenthesised list matches with those captures |
| DocCommentExamples.MethodTextMatch | server/src/handlers/completion.ts:77 | a tab-indented `int Compute(int a, float b)` gives return type `int` and parameter text `int a, float b` |
| DocCommentExamples.MethodTextParams | server/src/handlers/completion.ts:79 | `int a, float b` splits into `int a` and `float b` |
| DocCommentExamples.MethodLine | server/src/handlers/completion.ts:63-79 | that line is an `int` method with the two parameters |
| DocCommentExamples.FirstParamName | server/src/handlers/completion.ts:82 | the name of `int a` is `a` |
| DocCommentExamples.SecondParamName | server/src/handlers/completion.ts:82 | the name of `float b` is `b` |
| DocCommentExamples.HeaderText | server/src/handlers/completion.ts:74 | the modelled header is `/// ${1:Method documentation}` |
| DocCommentExamples.MarkerInParameterName | server/src/handlers/completion.ts:82-83 | a parameter name that is itself a marker `${m:t}` gives a `@param` line with markers m and then n |
| DocCommentExamples.MarkerParameterName | server/src/handlers/completion.ts:82 | the name of `int ${7:x}` is `${7:x}` |
| DocCommentExamples.MarkerParameterLine | server/src/handlers/completion.ts:83 | the `@param` line for that name, numbered 2, carries tab stops 7 and then 2 |
| DocCommentExamples.TwoParamTemplate | server/src/handlers/completion.ts:74-89 | two parameters and a non-`void` return give four lines numbered 1 to 4 |
| DocCommentExamples.MethodLineSnippet | server/src/handlers/completion.ts:74-89 | the template of the `Compute` line: header, `@param a` 2, `@param b` 3, `@return` 4 |
| DocCommentExamples.VoidTextMatch | server/src/handlers/completion.ts:77 | a tab-indented `void Run()` gives return type `void` and empty parameter text |
| DocCommentExamples.VoidLine | server/src/handlers/completion.ts:77-79 | that line is a `void` method without parameters |
| DocCommentExamples.VoidLineSnippet | server/src/handlers/completion.ts:74-89 | an indented `void` method gets the header line only |
| DocCommentExamples.NoMethodMatchAtWithoutSep | server/src/handlers/completion.ts:77 | the method pattern needs a separator at its start |
| DocCommentExamples.NoMethodInUnindented | server/src/handlers/completion.ts:77 | an unindented `void Run()` matches the method pattern nowhere |
| DocCommentExamples.UnindentedLine | server/src/handlers/completion.ts:77-79 | that line is a method with undefined return type and no parameters |
| DocCommentExamples.UnindentedLineSnippet | server/src/handlers/completion.ts:74-89 | its template is the header and `@return` numbered 2 |
| DocCommentExamples.EmptyLine | server/src/handlers/completion.ts:74-89 | the empty next line (the cursor on the last line) gets the header and `@return` numbered 2 |

## Left out

- Reading the document (`getDocumentText`) and the static completion data are not modelled. The handler takes the document text and the static items as parameters.
- The language server protocol types are plain records. The label is the field `labelText`. `labelDetails.description`, `kind` and `insertTextFormat` are kept as optional fields. The snippet kind (15) and format (2) are constants.
- Completion.WithTextEdit: keeps every modelled field. The item fields the model does not represent (`detail`, `documentation`, `sortText`, `filterText`, `preselect`, `command`, `data` and the rest of the protocol's item) are not part of this model, so it does not show that the spread copies them unchanged.
- DocComment.PlaceholdersNumberedFromOne: requires that the next line hold no `$`. The source puts parameter names into the snippet unescaped, so a parameter such as `int ${7:x}` adds tab stop 7 to its `@param` line. `DocCommentExamples.MarkerParameterLine` shows this. The reader recognises only the `${n:` form that the templates emit, not `$n` or `${n|…|}`.
- Completion.OnCompletion: requires the cursor's line to exist in the document. On a line past the end, the source reads `slice` of `undefined` and throws, and the model does not represent that exception.
- Strings are sequences of characters, not of UTF-16 code units. A character outside the Basic Multilingual Plane counts as one position, so the cursor column and the range columns do not capture surrogate pairs.
- StringOps.Lower: lower-cases ASCII letters only. `toLowerCase` also maps the other Unicode letters, and this model does not include the Unicode case tables.
- There is no general regular-expression engine. The two fixed patterns of the synthesiser and the word-delimiter split are written as scanners, and each scanner is proved equal to the pattern's meaning. The whole `split` array is not modelled, only its elements 1 and 2, which are all the code reads.
- Completion.OnCompletion: states only the flag and the cap. The order, the edits and the filter are stated by `Completion.OnCompletionResponse`, `Completion.NamespaceFilter` and `Completion.AssembledIsSubsequence`.
- The `?? ''` after `pop()` on line 10 never takes effect. A split by `/[\s,(]+/` always returns at least one element, because that pattern cannot match the empty text (a pattern that can, such as `/(?:)/`, splits `""` into no elements). `Completion.CurrentWord` is total and has no undefined case.
- The `?.` after `pop()` on line 82 never takes effect, because `split(" ")` always returns at least one piece (`StringOps.Split` ensures it). `DocComment.ParamName` has no undefined case.
