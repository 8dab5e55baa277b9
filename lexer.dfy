/**
 * The Lexer of lexer/lexer.go and lexer/position.go as the imperative
 * object it is: a read-only input, a cursor that its methods move forward,
 * and a token sequence they append to. Each method is proved to leave the
 * scan state the corresponding step function describes.
 */
module Lexer {
  import opened Wrappers
  import opened Utils
  import opened Positions
  import opened Tokens
  import opened Text
  import opened Comments
  import opened Attrs
  import opened Tags
  import opened Driver

  /** findTextEnd: a loop with no side effects. */
  method FindTextEnd(input: string, index: nat) returns (r: nat)
    ensures r == TextEnd(input, index)
    ensures index <= |input| ==> index <= r <= |input|
    ensures r < |input| ==> OpensConstruct(input, r)
    ensures forall j :: index <= j < r ==> !OpensConstruct(input, j)
  {
    var i := index;
    while i < |input|
      invariant TextEnd(input, i) == TextEnd(input, index)
      decreases |input| - i
    {
      var c := input[i];
      if c == '<' {
        if i + 1 == |input| {
          return i + 1;
        }
        var next := input[i + 1];
        if next == '/' || next == '!' || IsAlphanumeric(next) {
          return i;
        }
      }
      i := i + 1;
    }
    return |input|;
  }

  /**
   * One pass of the pairing loop of lexTagAttrs: the attribute that starts
   * at word i and the index of the first word it does not take. A bare last
   * word ends the loop, which here shows as next == |words|.
   */
  method NextAttribute(words: seq<string>, i: nat) returns (t: Token, next: nat)
    requires i < |words| && Pairs(words, i).Success?
    ensures i < next <= |words|
    ensures Pairs(words, i) == Prepend(t, Pairs(words, next))
  {
    PairsUnfold(words, i);
    var word := words[i];
    if |word| > 0 && word[|word| - 1] == '=' {
      // `key=`: the next word is the value
      var name := word[..|word| - 1];
      next := i + 1;
      var value := words[next];
      t := Attr(name, Some(value));
      next := next + 1;
      return;
    }
    var eqIndex := Find(word, "=");
    if eqIndex.Some? {
      // `key=value`: split at the first `=`, which stays in the value
      t := Attr(word[..eqIndex.value], Some(word[eqIndex.value..]));
      next := i + 1;
    } else if i + 1 >= |words| {
      t := Attr(word, None);
      next := |words|;
      assert [t] + [] == [t];
    } else {
      var nextWord := words[i + 1];
      next := i;
      if !(|nextWord| > 0 && nextWord[0] == '=') {
        t := Attr(word, None);
      } else if nextWord == "=" {
        t := Attr(word, Some(words[i + 2]));
        next := i + 2;
      } else {
        t := Attr(word, Some(words[i + 1][1..]));
        next := i + 1;
      }
      next := next + 1;
    }
  }

  class Lexer {
    const input: string
    var position: Position
    var tokens: seq<Token>

    ghost predicate Valid()
      reads this
    {
      position.index <= |input|
    }

    /** The part of the object the scanner changes. */
    ghost function State(): Scan
      reads this
    {
      Scan(position, tokens)
    }

    /** MakeLexer: a lexer at the origin with no tokens. */
    constructor MakeLexer(input: string)
      ensures this.input == input && position == Origin && tokens == []
      ensures Valid()
    {
      this.input := input;
      position := Position(0, 0, 0);
      tokens := [];
    }

    /**
     * updatePosition: walk the characters from the cursor to endIndex,
     * bumping the line and resetting the column at each newline and bumping
     * the column otherwise; the index is stored once at the end.
     */
    method UpdatePosition(endIndex: nat)
      requires Valid()
      requires endIndex <= position.index || endIndex <= |input|
      modifies this
      ensures Valid()
      ensures position == Advance(input, old(position), endIndex)
      ensures endIndex <= old(position.index) ==> position == old(position)
      ensures old(position.index) <= endIndex ==>
                && position.index == endIndex
                && position.line == old(position.line) + NewlineCount(input[old(position.index)..endIndex])
      ensures tokens == old(tokens)
    {
      var startIndex := position.index;
      var i := startIndex;
      while i < endIndex
        invariant startIndex <= i <= |input|
        invariant i <= endIndex || i == startIndex
        invariant position == Walk(old(position), input[startIndex..i])
        invariant tokens == old(tokens)
        decreases endIndex - i
      {
        ExtendByOne(input, startIndex, i);
        var r := input[i];
        if r == '\n' {
          position := position.(line := position.line + 1, column := 0);
        } else {
          position := position.(column := position.column + 1);
        }
        i := i + 1;
      }
      WalkKeepsIndex(old(position), input[startIndex..i]);
      position := position.(index := i);
      if startIndex <= endIndex {
        AdvanceLines(input, old(position), endIndex);
      }
    }

    /** lexText. */
    method LexText()
      requires Valid()
      modifies this
      ensures Valid()
      ensures State() == TextStep(input, old(State()))
    {
      var startIndex := position.index;
      var endIndex := FindTextEnd(input, startIndex);
      var startPosition := ClonePosition(position);
      if endIndex == startIndex {
        return;
      }
      UpdatePosition(endIndex);
      var endPosition := ClonePosition(position);
      tokens := tokens + [Text(input[startIndex..endIndex], startPosition, endPosition)];
    }

    /** lexTagName. */
    method LexTagName(pushToken: bool) returns (tagName: string)
      requires Valid()
      modifies this
      ensures Valid()
      ensures (State(), tagName) == TagNameStep(input, old(State()), pushToken)
    {
      var startIndex := position.index;
      while startIndex < |input|
        invariant position.index <= startIndex <= |input|
        invariant NameStart(input, startIndex) == NameStart(input, position.index)
        decreases |input| - startIndex
      {
        var r := input[startIndex];
        if !IsWhiteSpace(r) && r != '>' && r != '/' {
          break;
        }
        startIndex := startIndex + 1;
      }
      UpdatePosition(startIndex);
      var startPosition := ClonePosition(position);
      var endIndex := startIndex;
      while endIndex < |input|
        invariant startIndex <= endIndex <= |input|
        invariant NameEnd(input, endIndex) == NameEnd(input, startIndex)
        decreases |input| - endIndex
      {
        var r := input[endIndex];
        if IsWhiteSpace(r) || r == '>' || 'r' == '/' {
          break;
        }
        endIndex := endIndex + 1;
      }
      UpdatePosition(endIndex);
      tagName := input[startIndex..endIndex];
      var endPosition := ClonePosition(position);
      if pushToken {
        tokens := tokens + [TagName(tagName, startPosition, endPosition)];
      }
    }

    /** lexTagAttrs: the quote-aware word split, then the pairing walk. */
    method LexTagAttrs()
      requires Valid()
      requires AttrsStep(input, State()).Success?
      modifies this
      ensures Valid()
      ensures State() == AttrsStep(input, old(State())).value
    {
      ghost var target := AttrsStep(input, State()).value;
      var words := SplitAttrWords();
      var i: nat := 0;
      while i < |words|
        invariant position == target.pos
        invariant Pairs(words, i).Success? && tokens + Pairs(words, i).value == target.tokens
        decreases |words| - i
      {
        var t, next := NextAttribute(words, i);
        assert tokens + Pairs(words, i).value == (tokens + [t]) + Pairs(words, next).value;
        tokens := tokens + [t];
        i := next;
      }
      assert tokens + [] == tokens;
    }

    /**
     * The first phase of lexTagAttrs: split the text at the cursor into
     * words, and move the cursor onto the unquoted `/` or `>` that ends it.
     */
    method SplitAttrWords() returns (words: seq<string>)
      requires Valid()
      modifies this
      ensures Valid() && tokens == old(tokens)
      ensures var split := SplitWords(input, old(position.index));
              && words == split.words
              && position == if split.stop.Some? then Advance(input, old(position), split.stop.value) else old(position)
    {
      var quote := Unquoted;
      words := [];
      var i: nat := position.index;
      var wordStartIndex: nat := i;
      ghost var split := SplitWords(input, i);
      while i < |input|
        invariant wordStartIndex <= i <= |input|
        invariant Split(input, i, wordStartIndex, quote, words) == split
        invariant position == old(position) && tokens == old(tokens)
        decreases |input| - i
      {
        var r := input[i];
        if quote.Quoted? {
          i := i + 1;
          if r == quote.mark {
            quote := Unquoted;
          }
          continue;
        }
        if r == '/' || r == '>' {
          if i > wordStartIndex {
            words := words + [input[wordStartIndex..i]];
          }
          assert split == Words(words, Some(i));
          UpdatePosition(i);
          // the `/` or `>` itself is left for lexTag
          return;
        }
        if IsWhiteSpace(r) {
          if wordStartIndex != i {
            words := words + [input[wordStartIndex..i]];
          }
          i := i + 1;
          wordStartIndex := i;
          continue;
        }
        if r == '\'' || r == '"' {
          quote := Quoted(r);
        }
        i := i + 1;
      }
    }

    /** lexComment. */
    method LexComment()
      requires Valid()
      requires CommentStep(input, State()).Success?
      modifies this
      ensures Valid()
      ensures State() == CommentStep(input, old(State())).value
    {
      var commentStartIndex := position.index;
      var found := Find(input[commentStartIndex..], "-->");
      var contentEndIndex, commentEndIndex;
      if found.Some? {
        contentEndIndex, commentEndIndex := found.value, found.value + 3;
      } else {
        contentEndIndex, commentEndIndex := |input|, |input|;
      }
      var commentStartPosition := ClonePosition(position);
      UpdatePosition(contentEndIndex);
      var commentEndPosition := ClonePosition(position);
      UpdatePosition(commentEndIndex);
      tokens := tokens + [Comment(input[commentStartIndex..commentEndIndex], commentStartPosition, commentEndPosition)];
    }

    /** The first part of lexTag: consume `<` or `</`. */
    method OpenTag(pushToken: bool)
      requires Valid() && position.index < |input|
      modifies this
      ensures Valid()
      ensures State() == TagOpen(input, old(State()), pushToken)
    {
      var i := position.index;
      var close := i + 1 < |input| && input[i + 1] == '/';
      var startPosition := ClonePosition(position);
      if close {
        UpdatePosition(i + 2);
      } else {
        UpdatePosition(i + 1);
      }
      if pushToken {
        tokens := tokens + [TagStart(close, startPosition)];
      }
    }

    /** The last part of lexTag: consume `/>` or `>`. */
    method CloseTag(pushToken: bool)
      requires Valid() && TagClose(input, State(), pushToken).Success?
      modifies this
      ensures Valid()
      ensures State() == TagClose(input, old(State()), pushToken).value
    {
      var i := position.index;
      var close := i < |input| && input[i] == '/';
      if close {
        UpdatePosition(i + 2);
      } else {
        UpdatePosition(i + 1);
      }
      var endPosition := ClonePosition(position);
      if pushToken {
        tokens := tokens + [TagEnd(close, endPosition)];
      }
    }

    /** lexTag. */
    method LexTag(pushToken: bool) returns (tagName: string)
      requires Valid()
      requires TagStep(input, State(), pushToken).Success?
      modifies this
      ensures Valid()
      ensures (State(), tagName) == TagStep(input, old(State()), pushToken).value
    {
      OpenTag(pushToken);
      tagName := LexTagName(true);
      LexTagAttrs();
      CloseTag(pushToken);
    }

    /**
     * Lex: scan to the end of the input. Runs on which the Go code panics
     * or never returns are excluded by the precondition.
     */
    method Lex() returns (result: seq<Token>)
      requires Valid()
      requires Run(input, State()).Success?
      modifies this
      ensures Valid()
      ensures State() == old(Run(input, State())).value
      ensures position.index == |input|
      ensures |old(tokens)| <= |tokens| && tokens[..|old(tokens)|] == old(tokens)
      ensures result == tokens
    {
      ghost var final := Run(input, State()).value;
      RunEndsAtEnd(input, State());
      while position.index < |input|
        invariant Valid()
        invariant Run(input, State()) == Success(final)
        decreases |input| - position.index
      {
        var startIndex := position.index;
        LexText();
        if startIndex == position.index {
          if IsCommentStart(input, startIndex) {
            LexComment();
          } else {
            var _ := LexTag(true);
          }
        }
      }
      result := tokens;
    }
  }
}
