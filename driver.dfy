/** The driver loop of lexer/lexer.go (Lex): text, else comment, else tag, until the end. */
module Driver {
  import opened Wrappers
  import opened Positions
  import opened Tokens
  import opened Text
  import opened Comments
  import opened Tags

  /** One iteration of the loop in Lex. */
  function LexStep(input: string, st: Scan): (r: Outcome<Scan>)
    requires st.pos.index < |input|
    ensures r.Success? ==> st.pos.index <= r.value.pos.index <= |input|
    ensures r.Success? ==> |st.tokens| <= |r.value.tokens| && r.value.tokens[..|st.tokens|] == st.tokens
  {
    var startIndex := st.pos.index;
    var t := TextStep(input, st);
    if t.pos.index != startIndex then
      assert t.tokens[..|st.tokens|] == st.tokens;
      Success(t)
    else if IsCommentStart(input, startIndex) then
      match CommentStep(input, t)
      case Failure(f) => Failure(f)
      case Success(u) =>
        CommentProgress(input, t);
        assert u.tokens[..|st.tokens|] == st.tokens;
        Success(u)
    else
      match TagStep(input, t, true)
      case Failure(f) => Failure(f)
      case Success((u, _)) => Success(u)
  }

  lemma CommentProgress(input: string, st: Scan)
    requires st.pos.index <= |input| && CommentStep(input, st).Success?
    ensures st.pos.index <= CommentStep(input, st).value.pos.index <= |input|
  {
  }

  /**
   * The whole of Lex from scan state `st`. A loop iteration that leaves the
   * cursor where it was would repeat for ever (the state it depends on is
   * unchanged), so it is a Hang.
   */
  function Run(input: string, st: Scan): (r: Outcome<Scan>)
    requires st.pos.index <= |input|
    decreases |input| - st.pos.index
  {
    if st.pos.index == |input| then Success(st)
    else match LexStep(input, st)
      case Failure(f) => Failure(f)
      case Success(u) => if u.pos.index == st.pos.index then Failure(Hang) else Run(input, u)
  }

  /** Lex on a fresh lexer (MakeLexer(input).Lex()). */
  function LexAll(input: string): Outcome<Scan>
  {
    Run(input, Scan(Origin, []))
  }

  /** A completed run ends with the cursor at the end of the input and only appends tokens. */
  lemma {:induction false} RunEndsAtEnd(input: string, st: Scan)
    requires st.pos.index <= |input| && Run(input, st).Success?
    ensures Run(input, st).value.pos.index == |input|
    ensures |st.tokens| <= |Run(input, st).value.tokens| && Run(input, st).value.tokens[..|st.tokens|] == st.tokens
    decreases |input| - st.pos.index
  {
    if st.pos.index < |input| {
      var u := LexStep(input, st).value;
      RunEndsAtEnd(input, u);
      var fin := Run(input, u).value.tokens;
      assert fin[..|st.tokens|] == fin[..|u.tokens|][..|st.tokens|];
    }
  }

  /**
   * Each completed iteration moves the cursor strictly forward, and an
   * iteration that emits no text starts on a `<` that findTextEnd stops at.
   */
  lemma StepProgress(input: string, st: Scan)
    requires st.pos.index < |input| && Run(input, st).Success?
    ensures LexStep(input, st).Success? && st.pos.index < LexStep(input, st).value.pos.index
    ensures TextStep(input, st) == st ==> OpensConstruct(input, st.pos.index) && TextEnd(input, st.pos.index) == st.pos.index
  {
  }

  /** The empty input yields no tokens. */
  lemma EmptyInput()
    ensures LexAll("") == Success(Scan(Origin, []))
  {
  }

  /** An input with no `<` that opens a construct yields one text token spanning all of it. */
  lemma PlainText(input: string)
    requires |input| > 0
    requires forall j :: 0 <= j < |input| ==> !OpensConstruct(input, j)
    ensures LexAll(input) == Success(Scan(Advance(input, Origin, |input|), [Text(input, Origin, Advance(input, Origin, |input|))]))
  {
    var st := Scan(Origin, []);
    assert TextEnd(input, 0) == |input|;
    assert input[0..|input|] == input;
    var t := TextStep(input, st);
    assert t == Scan(Advance(input, Origin, |input|), [Text(input, Origin, Advance(input, Origin, |input|))]);
    assert LexStep(input, st) == Success(t);
    assert Run(input, t) == Success(t);
  }
}
