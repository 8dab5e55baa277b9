/**
 * The token stream and the scanner state of lexer/lexer.go. Go keeps one
 * flat Token struct whose unused fields stay at their zero value; here each
 * token type is its own constructor with only the fields it sets.
 */
module Tokens {
  import opened Wrappers
  import opened Positions

  datatype Token =
    | Text(content: string, start: Position, end: Position)     // "text"
    | TagStart(close: bool, start: Position)                    // "tag-start": only Start is set
    | TagName(content: string, start: Position, end: Position)  // "tag"
    | Attr(name: string, value: Option<string>)                 // "attr": no position; Go stores None as ""
    | TagEnd(close: bool, end: Position)                        // "tag-end": only End is set
    | Comment(content: string, start: Position, end: Position)  // "comment"

  /** The two fields of the Lexer that change: the cursor and the tokens so far. */
  datatype Scan = Scan(pos: Position, tokens: seq<Token>)

  /** What the Go code does instead of returning: a run-time panic or a loop that never ends. */
  datatype Fault =
    | IndexOutOfRange  // words[i] past the end of the word list
    | SliceOutOfRange  // input[low:high] with low > high
    | Hang             // a loop that makes no progress

  type Outcome<T> = Result<T, Fault>
}
