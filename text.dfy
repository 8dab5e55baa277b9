/** The text scanner of lexer/lexer.go: findTextEnd and lexText. */
module Text {
  import opened Utils
  import opened Positions
  import opened Tokens

  /**
   * A `<` that ends a text run: it must be followed by `/`, `!` or an
   * ASCII letter or digit. A `<` in the last position is not one.
   */
  predicate OpensConstruct(input: string, j: nat)
  {
    j + 1 < |input| && input[j] == '<' &&
    (input[j + 1] == '/' || input[j + 1] == '!' || IsAlphanumeric(input[j + 1]))
  }

  /**
   * findTextEnd: the first position at or after `index` that opens a tag,
   * a closing tag or a `<!` construct, or the length of the input.
   */
  function TextEnd(input: string, index: nat): (r: nat)
    ensures index <= |input| ==> index <= r <= |input|
    ensures index > |input| ==> r == |input|
    ensures r < |input| ==> OpensConstruct(input, r)
    ensures forall j :: index <= j < r ==> !OpensConstruct(input, j)
    decreases |input| - index
  {
    if index >= |input| then |input|
    else if input[index] == '<' && index + 1 == |input| then index + 1
    else if input[index] == '<' &&
            (input[index + 1] == '/' || input[index + 1] == '!' || IsAlphanumeric(input[index + 1]))
    then index
    else TextEnd(input, index + 1)
  }

  /**
   * lexText: emit the run of text at the cursor and move past it. When the
   * run is empty nothing is emitted and nothing moves: the cursor is at the
   * end of the input or on a `<` that opens a construct.
   */
  function TextStep(input: string, st: Scan): (r: Scan)
    requires st.pos.index <= |input|
    ensures r.pos.index == st.pos.index ==>
              r == st && (st.pos.index == |input| || OpensConstruct(input, st.pos.index))
    ensures r.pos.index != st.pos.index ==>
              && st.pos.index < r.pos.index <= |input|
              && r.pos == Advance(input, st.pos, r.pos.index)
              && r.tokens == st.tokens + [Text(input[st.pos.index..r.pos.index], st.pos, r.pos)]
              && (r.pos.index < |input| ==> OpensConstruct(input, r.pos.index))
              && (forall j :: st.pos.index <= j < r.pos.index ==> !OpensConstruct(input, j))
  {
    var startIndex := st.pos.index;
    var endIndex := TextEnd(input, startIndex);
    var startPosition := ClonePosition(st.pos);
    if endIndex == startIndex then st
    else
      var p := Advance(input, st.pos, endIndex);
      Scan(p, st.tokens + [Text(input[startIndex..endIndex], startPosition, ClonePosition(p))])
  }

  /** The cases checked by lexer/lexer_test.go. */
  lemma TextEndExamples()
    ensures TextEnd("01234<6789", 0) == 5
    ensures TextEnd("01234<!789", 0) == 5
    ensures TextEnd("01234</789", 0) == 5
    ensures TextEnd("01234< 789", 0) == 10
  {
  }

  /** A `<` that is the last character, or is followed by anything else, stays inside the text. */
  lemma TrailingAngleIsText(input: string, index: nat, j: nat)
    requires index <= j < |input| && input[j] == '<'
    requires j + 1 == |input| || !(input[j + 1] == '/' || input[j + 1] == '!' || IsAlphanumeric(input[j + 1]))
    ensures TextEnd(input, index) != j
  {
  }
}
