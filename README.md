# A verified model of the gohtml lexer

This project models the HTML-shaped lexer in the `lexer` package of gohtml
and proves properties of that model. The lexer is a single-threaded
scanner. It owns a read-only input string, a cursor (`Position`: index,
line, column) and an append-only token list. `Lex` loops over three steps
until the cursor reaches the end of the input:

- text up to the next `<` that opens a construct;
- otherwise a comment when `<!--` is at the cursor;
- otherwise a tag: `<` or `</`, a name, attributes, then `>` or `/>`.

The model has two layers.

- **Step functions.** These pure functions give the meaning of each
  scanner as a function of the input and the scan state `Scan(pos, tokens)`:
  - `Text.TextStep`, `Comments.CommentStep`, `Tags.TagOpen`,
    `Tags.TagNameStep`, `Attrs.AttrsStep`, `Tags.TagClose`, `Tags.TagStep`;
  - `Driver.LexStep` for one loop iteration, and `Driver.Run` for the
    whole loop.

  Where the Go code panics, a step returns `Failure(IndexOutOfRange)` or
  `Failure(SliceOutOfRange)`. Where it never returns, a step returns
  `Failure(Hang)`.
- **The `Lexer` class** (`lexer.dfy`). It has the source's own fields and
  loops. Each method's postcondition says that the new state is what the
  step function computes from the old one. Each method's precondition says
  that the step succeeds, so the Go code's panics and hangs become
  preconditions; no result is invented for them.

Lemmas about the step functions state what the scanners promise. They cover:

- the text boundary;
- the line and column tracking;
- the quote-aware word split and the name/value pairing of attributes;
- the tag flags;
- the comment offsets;
- a whole-run theorem (`Streams.LexAllSound`). In the tokens of a completed
  run:
  - every position is where line and column tracking from the start puts
    that index;
  - text and name tokens hold exactly the input they span;
  - comments hold the input from their start;
  - positioned tokens come in input order.

The input is a `string`, one element per character. This is the Go
behaviour exactly for ASCII input (see "Left out").

Quirks of the code that the model keeps as they are:

- **`/` never ends a tag name.** The third test at lexer/lexer.go:158
  compares the literal `'r'` with `'/'`, so it is always false.
  `<div/>` is the tag `div/` with a plain `>` end (`Scenarios.SlashStaysInName`).
- **`k=v` keeps the `=` in the value** (lexer/lexer.go:256). All values keep
  their quotes. One might expect `aa="aa"` to give the value `aa`; the code
  cuts the word at its first `=` and keeps both the `=` and the quotes, so the
  value is `="aa"` (`Scenarios.AttributeShapes`, `Scenarios.AttrTagLexed`).
- **`words[i]` and `words[i+2]` can run past the word list**
  (lexer/lexer.go:243, 285). A `key=` word that comes last, and `k =` as the
  last two words, give `IndexOutOfRange`.
- **`lexComment` uses a relative offset as an absolute index.** It takes the
  offset of `-->` relative to the cursor (lexer/lexer.go:302) and uses it as
  an absolute index (lexer/lexer.go:309-314). Away from index 0, the comment
  can end before it starts; the slice then panics. Or the comment can end
  exactly where it starts; the loop then makes no progress.
- **Some tag ends hang `updatePosition`.** If the cursor ends up at the end
  of the input when lexTag reaches its closing step, or the cursor then sits
  on a `/` that is the last character, then `updatePosition` is asked for a
  target past the end of the input and never returns. Examples are `<div`
  and `<div /`. A last `/` that the cursor does not reach is harmless: in
  `<a "/` the quote leaves the cursor on the space, and the tag closes there
  (`Scenarios.LastSlashNotReached`).

## Model

| member | source | states |
|---|---|---|
| Utils.MinInt | lexer/utils.go:5-10 | the result is at most `a` and at most `b`, and it is one of them |
| Utils.IsWhiteSpace | lexer/utils.go:12-16 | the five characters RE2's `\s` matches: tab, newline, form feed, carriage return and space |
| Utils.IsAlphanumeric | lexer/lexer.go:50 | the class `[A-Za-z0-9]` |
| Utils.WhiteSpaceIsAsciiOnly | lexer/utils.go:12-16 | a whitespace character is not vertical tab and is ASCII; it is none of the delimiters the scanners test (`<`, `>`, `/`, `=`, quotes, letters and digits) |
| Utils.WhiteSpaceExamples | lexer/utils_test.go:5-15 | `' '` and `'\n'` are whitespace and `'x'` is not |
| Positions.ClonePosition | lexer/position.go:7-13 | the copy has the same index, line and column |
| Positions.Advance | lexer/position.go:15-29 | the new index is the larger of the cursor and the target; a target at or before the cursor changes nothing |
| Positions.AdvanceLines | lexer/position.go:18-22 | the line grows by the number of newlines between the old index and the target |
| Positions.AdvanceColumn | lexer/position.go:18-26 | with no newline in the range, the column grows by the characters consumed; otherwise it is the number of characters after the last newline |
| Positions.AdvanceOnLine | lexer/position.go:15-29 | over characters that are not newlines, the update keeps the line and moves the column by their number |
| Positions.AdvanceCompose | lexer/position.go:15-29 | two updates, to a middle target and then a farther one, land where one update to the farther target lands |
| Positions.AdvanceConsistent | lexer/position.go:15-29 | updating a position that matches tracking from the origin gives a position that also matches |
| Lexer.Lexer.UpdatePosition | lexer/position.go:15-29 | the loop leaves the cursor at `Advance` of the old one: the index is the target, and the line has grown by the newlines walked; the tokens are unchanged |
| Text.OpensConstruct | lexer/lexer.go:75-82 | a `<` that is not last and is followed by `/`, `!` or an ASCII letter or digit; `Text.TextEnd` stops only on one |
| Text.TextEnd | lexer/lexer.go:71-87 | index ≤ r ≤ \|input\|; r < \|input\| only on a `<` followed by `/`, `!` or an ASCII letter or digit; no such opener lies in [index, r) |
| Text.TextEndExamples | lexer/lexer_test.go:5-21 | `01234<6789`, `01234<!789` and `01234</789` give 5; `01234< 789` gives 10 |
| Text.TrailingAngleIsText | lexer/lexer.go:75-83 | a `<` that is last, or is followed by anything else, is not where the text ends |
| Lexer.FindTextEnd | lexer/lexer.go:71-87 | the loop returns `TextEnd`, with the same range, opener and no-earlier-opener facts |
| Text.TextStep | lexer/lexer.go:52-69 | either nothing changes and the cursor is at the end or on an opener; or one text token holding `input[start..end]` is appended and the cursor moves to the next opener or the end, with line and column tracked |
| Lexer.Lexer.LexText | lexer/lexer.go:52-69 | the new state is `TextStep` of the old one |
| Tags.NameStart | lexer/lexer.go:145-152 | every character skipped satisfies `Tags.SkippedBeforeName` (whitespace, `>` or `/`, the test of lexer/lexer.go:148); the result is the end or a character that is none of these |
| Tags.NameEnd | lexer/lexer.go:155-162 | the result is the end of the maximal run of characters that fail `Tags.EndsName` (whitespace, `>`, or the always-false `'r' == '/'` of lexer/lexer.go:158), so `/` does not stop it |
| Tags.TagNameStep | lexer/lexer.go:144-179 | the name is `input[s..e]` with s = `NameStart`; it holds no whitespace and no `>`; it is empty exactly when s reaches the end; the cursor moves to e (tracked); the name token, when pushed, spans [s, e] |
| Lexer.Lexer.LexTagName | lexer/lexer.go:144-179 | the two loops leave the state and name that `TagNameStep` gives |
| Tags.TagStep | lexer/lexer.go:89-136 | when lexTag completes, the cursor has moved strictly forward and tokens were only appended |
| Tags.TagStartToken | lexer/lexer.go:91-109 | the first token is a tag-start at the cursor whose close flag is true exactly when `/` follows the `<` |
| Tags.TagNameToken | lexer/lexer.go:96-111 | the second token is the name token; its content is the name lexTag returns; it starts at `NameStart` of the cursor moved by 2 after `</` and by 1 after `<` |
| Tags.TagAttrTokens | lexer/lexer.go:111-113 | everything between the name token and the tag-end is an attribute |
| Tags.TagEndToken | lexer/lexer.go:114-134 | the last token is a tag-end at the final cursor; its close flag is true exactly when the character at the cursor left by the attribute step is `/`, in which case 2 characters were consumed, otherwise 1 |
| Tags.TagOpen | lexer/lexer.go:91-109 | the cursor moves by 2 over `</` and by 1 over any other `<`, with line and column tracked; the tag-start token, when pushed, is at the old cursor and its close flag says whether `/` followed |
| Tags.TagClose | lexer/lexer.go:114-134 | it hangs (`Hang`) exactly when the cursor is at the end or on a `/` that is last; otherwise the cursor moves by 2 over `/` and by 1 over anything else, tracked, and the tag-end token, when pushed, is at the new cursor and self-closing exactly after `/` |
| Lexer.Lexer.OpenTag | lexer/lexer.go:91-109 | the state after consuming `<` or `</` is `TagOpen` of the old one |
| Lexer.Lexer.CloseTag | lexer/lexer.go:114-134 | the state after consuming `>` or `/>` is `TagClose` of the old one |
| Lexer.Lexer.LexTag | lexer/lexer.go:89-136 | the new state and the returned name are what `TagStep` gives |
| Attrs.Split | lexer/lexer.go:197-235 | a stop lies at or after the scan position and on a `/` or `>` (that it is outside every quote is stated by `Attrs.SplitWordsSpec`) |
| Attrs.SplitWords | lexer/lexer.go:194-235 | the split starts at the cursor; a stop lies at or after it, on `/` or `>` |
| Attrs.SplitWordsSpec | lexer/lexer.go:194-235 | every word is non-empty and has no whitespace outside quotes. The scan stops exactly at the first `/` or `>` outside every quote. The words are exactly the pieces (`Attrs.Pieces`) that whitespace outside quotes cuts the text before the stop into, empty pieces left out; so they hold, in order, every character before the stop except that whitespace. With no stop, the words are the pieces finished before the end (`Attrs.Completed`): only the word still open when the input runs out is dropped |
| Attrs.SplitMeaningDetermines | lexer/lexer.go:194-235 | the meaning `SplitWordsSpec` states fixes the result: two results that both have it are equal, words and stop alike |
| Attrs.RunStart | lexer/lexer.go:197-232 | the start of the run still open at `hi`: no separator (whitespace outside a quote) lies in [r, hi), and r is `from` or just after a separator |
| Attrs.SplitCutsSound | lexer/lexer.go:197-235 | from any state of the loop that matches the cuts so far (quote state, start of the open word, words finished), the split's result has exactly the cuts `SplitWordsSpec` states |
| Attrs.QuoteStaysOpen | lexer/lexer.go:200-207 | inside an open quote nothing closes it but its own quote character, so later `/`, `>` and whitespace are inert |
| Lexer.Lexer.SplitAttrWords | lexer/lexer.go:194-235 | the loop returns the words of `SplitWords`; the cursor moves onto the stop, not past it, or stays where it was |
| Attrs.Pairs | lexer/lexer.go:237-297 | the pairing walk, one branch per word shape in the order the code tests them; its meaning is stated by `Attrs.PairsGroups`, `Attrs.PairsCount` and `Attrs.PairsValues` |
| Attrs.Width | lexer/lexer.go:237-297 | how many words the attribute read at word i takes, always 1 to 3: 2 for `key=` and `k =v`, 3 for `k = v`, otherwise 1 |
| Attrs.Groups | lexer/lexer.go:237-297 | the groups of words the walk takes, when each fits in the list: they start at i, lie inside the list, and each ends where the next starts, the last at the end of the list; so every word from i is in exactly one group, in order |
| Attrs.GroupWidths | lexer/lexer.go:237-297 | every group is as wide as `Width` says at its start |
| Attrs.PairsDefined | lexer/lexer.go:237-297 | the walk succeeds exactly when every group fits in the list, and then yields one attribute per group |
| Attrs.FirstRender | lexer/lexer.go:237-297 | the attribute read at word i, written back (`name`, `name=value`, or `name` + value for `k=v`), is its group's words joined |
| Attrs.PairsGroups | lexer/lexer.go:237-297 | the walk succeeds exactly when the groups fit; the k-th attribute is then made of the k-th group's words, name and value from those words alone |
| Attrs.PairsOverrun | lexer/lexer.go:239-290 | a group that runs past the end of the list makes the walk read past the end (`IndexOutOfRange`) |
| Attrs.PairsCount | lexer/lexer.go:237-297 | every token is an attribute; each attribute takes one to three words, so #attrs ≤ #words ≤ 3·#attrs |
| Attrs.PairsValues | lexer/lexer.go:237-297 | with non-empty words, every value present is non-empty, and every bare attribute is a whole word holding no `=` |
| Lexer.NextAttribute | lexer/lexer.go:237-297 | one pass of the loop yields the attribute that the walk from word i starts with, and the first word it does not take |
| Attrs.AttrsStep | lexer/lexer.go:181-298 | lexTagAttrs succeeds exactly when the pairing walk over the split's words does; the tokens are then the old ones followed by the walk's attributes, and the cursor is on the `/` or `>` that stopped the split (tracked), or stays when nothing stopped it |
| Lexer.Lexer.LexTagAttrs | lexer/lexer.go:181-298 | the split then the pairing loop leave the state `AttrsStep` gives |
| Comments.Find | lexer/lexer.go:252 | `Some(k)` is the first occurrence of the pattern; `None` means there is none (strings.Index and strings.IndexRune) |
| Comments.CommentStep | lexer/lexer.go:300-320 | it fails (`SliceOutOfRange`) exactly when `-->` is found after the cursor at a relative offset k with k+3 before the cursor; otherwise it appends one comment token that starts at the old cursor and holds exactly the input from there to the new cursor |
| Comments.CommentAtStart | lexer/lexer.go:300-319 | at index 0 with `-->` first at k: content `input[..k+3]`, span end index k before the `-->`, cursor k+3 |
| Comments.UnclosedComment | lexer/lexer.go:302-307 | with no `-->` after the cursor, the comment takes the rest of the input and the cursor goes to the end |
| Comments.CommentAnywhere | lexer/lexer.go:302-314 | at cursor s, with `-->` at relative offset k, the slice panics exactly when k+3 < s; otherwise the cursor ends at k+3 and the span ends at the larger of s and k |
| Lexer.Lexer.LexComment | lexer/lexer.go:300-320 | the new state is `CommentStep` of the old one |
| Driver.LexStep | lexer/lexer.go:37-45 | one iteration, choosing a comment when `Comments.IsCommentStart` holds (the `<!--` prefix test of lexer/lexer.go:40); it never moves the cursor back and only appends tokens |
| Driver.StepProgress | lexer/lexer.go:36-46 | in a completed run each iteration moves the cursor strictly forward; an iteration that emits no text starts on a `<` that `findTextEnd` stopped at |
| Driver.Run | lexer/lexer.go:34-48 | the loop of Lex: stop at the end of the input, fail as the iteration fails, and report `Hang` for an iteration that does not move the cursor; its results are stated by `Driver.RunEndsAtEnd` and `Streams.LexAllSound` |
| Driver.LexAll | lexer/lexer.go:34-48 | Lex on a fresh lexer (`Lexer.Lexer.MakeLexer`, lexer/lexer.go:349-353): `Run` from the origin with no tokens |
| Driver.RunEndsAtEnd | lexer/lexer.go:34-48 | a completed run ends with the cursor at the end of the input, having only appended tokens |
| Driver.EmptyInput | lexer/lexer.go:34-48 | the empty input yields no tokens |
| Driver.PlainText | lexer/lexer.go:34-69 | an input with no opener yields one text token spanning all of it |
| Lexer.Lexer.Lex | lexer/lexer.go:34-48 | the loop leaves the state `Run` gives and returns its tokens; the cursor ends at the end; earlier tokens are kept |
| Lexer.Lexer.MakeLexer | lexer/lexer.go:349-353 | MakeLexer: the given input, the cursor at the origin, no tokens |
| Streams.LexAllSound | lexer/lexer.go:34-48 | the tokens of a completed run from a fresh lexer have consistent positions, exact contents and input order, and the cursor ends at the end with line and column to match |
| Streams.TextSound | lexer/lexer.go:52-69 | lexText keeps the scan state sound |
| Streams.CommentSound | lexer/lexer.go:300-320 | lexComment keeps the scan state sound |
| Streams.TagSound | lexer/lexer.go:89-136 | lexTag keeps the scan state sound |
| Streams.AttrsSound | lexer/lexer.go:181-298 | lexTagAttrs keeps the scan state sound |
| Streams.RunSound | lexer/lexer.go:36-46 | the loop keeps the scan state sound |
| Scenarios.SlashStaysInName | lexer/lexer.go:156-162 | `<div/>` lexes to a tag-start, the name `div/` and a tag-end that is not self-closing |
| Scenarios.SelfClosing | lexer/lexer.go:114-134 | `<hr />` lexes to a tag-start, the name `hr` and a self-closing tag-end after `/>` |
| Scenarios.TextOverTwoLines | lexer/position.go:20-25 | `a\nb` is one text token ending at index 3, line 1, column 1 |
| Scenarios.UnfinishedTag | lexer/lexer.go:115-124 | `<div` never finishes: the closing step's target lies past the end |
| Scenarios.SlashAtEnd | lexer/lexer.go:115-121 | `<div /` never finishes either |
| Scenarios.LastSlashNotReached | lexer/lexer.go:115-124 | in `<a "/` the open quote keeps the attribute split from stopping, so the closing step starts on the space, consumes one character and lexTag finishes at index 3 with a plain tag-end |
| Scenarios.MissingValue | lexer/lexer.go:239-243 | `<a b=>` reads past the end of the word list |
| Scenarios.SpaceEndsWords | lexer/lexer.go:220-228 | ` ab cd>` splits into `ab` and `cd`, stopped at the `>` at 6 |
| Scenarios.PendingWordDropped | lexer/lexer.go:197-235 | `a b c` splits into `a` and `b` with no stop: the word still open at the end is dropped |
| Scenarios.AttributeShapes | lexer/lexer.go:237-297 | the word list `aa="aa"`, `bb`, `=`, `"bb"`, `cc=`, `"cc"`, `dd`, `="dd"`, `ee`, `ff` pairs to `aa` `="aa"`, `bb` `"bb"`, `cc` `"cc"`, `dd` `"dd"`, `ee` and `ff` |
| Scenarios.AttrTagWords | lexer/lexer.go:194-235 | the split of `<div aa="aa" bb = "bb" cc= "cc" dd ="dd" ee ff/>` after the name is exactly that word list, stopped at the `/` at 46 |
| Scenarios.AttrTagLexed | lexer/lexer.go:34-136 | Lex over that tag gives a tag-start, the name `div`, those six attributes and a self-closing tag-end at 48, the end of the input |
| Scenarios.CommentGoesNowhere | lexer/lexer.go:302-311 | in `xxxxx<!-->` the comment ends where it starts, so the loop makes no progress |
| Scenarios.CommentEndsBeforeStart | lexer/lexer.go:302-314 | in `xxxxxx<!-->` the comment's end lies before its start, so the slice panics |

## Left out

- `lexSkipTag` (lexer/lexer.go:322-347) is not modelled. `Lex` never calls it. Its loop variable is never advanced, and its not-found test only works at index 0, so it has no terminating behaviour to state.
- playground/main.go is not part of this model. It is an entry point that pretty-prints through a package that is not shown; it is I/O only.
- The JSON tags on `Token` and `Position` are serialisation metadata. The Go `Token` is one record with a type string. The model's `Token` is a datatype with one constructor per type and only the fields that type sets. A bare attribute's empty `Content` is `None`, and `Attrs.PairsValues` shows that every value present is non-empty, so the two readings agree.
- The `regexp` engine is replaced by the character sets it matches. `Utils.IsWhiteSpace` is RE2's `\s` and `Utils.IsAlphanumeric` is `[A-Za-z0-9]`.
- UTF-8 decoding is not modelled. The input is a sequence of characters, and every index and every column counts characters. For ASCII input this is exactly the Go behaviour. For other input, Go indices count bytes while the column counts code points; the model does not capture that difference, nor the decoding of invalid bytes.
- Panics and the non-terminating loops are not given results. The step functions report them as `Failure` values, and the `Lexer` methods require their absence. Go's behaviour after a panic (unwinding) is outside the model.
- Go slices share memory with the input. The model copies values, so aliasing between token contents and the input is not modelled.
- Not claimed: that token spans plus skipped delimiters cover every byte of the input, because attribute tokens carry no positions. Two runs on the same input agree because `Driver.LexAll` is a function, so no lemma states it.
- Tags.TagStep: its contract states progress and append-only tokens. The tokens it appends are described by the separate lemmas `Tags.TagStartToken`, `Tags.TagNameToken`, `Tags.TagAttrTokens` and `Tags.TagEndToken`, which keep each proof small.
