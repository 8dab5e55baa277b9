/** The tag scanner of lexer/lexer.go: lexTag and lexTagName. */
module Tags {
  import opened Wrappers
  import opened Utils
  import opened Positions
  import opened Tokens
  import opened Attrs

  /** Characters lexTagName skips before the name: whitespace, `>` and `/`. */
  predicate SkippedBeforeName(c: char)
  {
    IsWhiteSpace(c) || c == '>' || c == '/'
  }

  /**
   * Characters that end a tag name. The third test is written in the
   * source as the comparison of the literal 'r' with '/', which is always
   * false, so `/` does not end a name.
   */
  predicate EndsName(c: char)
  {
    IsWhiteSpace(c) || c == '>' || 'r' == '/'
  }

  /** The first loop of lexTagName: the first index from i that is not skipped. */
  function NameStart(input: string, i: nat): (r: nat)
    requires i <= |input|
    ensures i <= r <= |input|
    ensures forall j :: i <= j < r ==> SkippedBeforeName(input[j])
    ensures r < |input| ==> !SkippedBeforeName(input[r])
    decreases |input| - i
  {
    if i == |input| || !SkippedBeforeName(input[i]) then i else NameStart(input, i + 1)
  }

  /** The second loop of lexTagName: the end of the maximal run of name characters from i. */
  function NameEnd(input: string, i: nat): (r: nat)
    requires i <= |input|
    ensures i <= r <= |input|
    ensures forall j :: i <= j < r ==> !EndsName(input[j])
    ensures r < |input| ==> EndsName(input[r])
    decreases |input| - i
  {
    if i == |input| || EndsName(input[i]) then i else NameEnd(input, i + 1)
  }

  /**
   * lexTagName: skip to the name, take it, move past it and (when asked)
   * push a "tag" token spanning it. Returns the name as well.
   */
  function TagNameStep(input: string, st: Scan, pushToken: bool): (r: (Scan, string))
    requires st.pos.index <= |input|
    ensures var (u, name) := r;
            && var s := NameStart(input, st.pos.index);
            && s <= u.pos.index <= |input|
            && name == input[s..u.pos.index]
            && u.pos == Advance(input, st.pos, u.pos.index)
            && (forall j :: st.pos.index <= j < s ==> SkippedBeforeName(input[j]))
            && (forall k :: 0 <= k < |name| ==> !IsWhiteSpace(name[k]) && name[k] != '>')
            && (u.pos.index < |input| ==> IsWhiteSpace(input[u.pos.index]) || input[u.pos.index] == '>')
            && (|name| == 0 <==> s == |input|)
            && u.tokens == st.tokens + if pushToken then [TagName(name, Advance(input, st.pos, s), u.pos)] else []
  {
    var startIndex := NameStart(input, st.pos.index);
    var p1 := Advance(input, st.pos, startIndex);
    var startPosition := ClonePosition(p1);
    var endIndex := NameEnd(input, startIndex);
    var p2 := Advance(input, p1, endIndex);
    AdvanceCompose(input, st.pos, startIndex, endIndex);
    var tagName := input[startIndex..endIndex];
    var endPosition := ClonePosition(p2);
    (Scan(p2, if pushToken then st.tokens + [TagName(tagName, startPosition, endPosition)] else st.tokens), tagName)
  }

  /** The first part of lexTag: consume `<`, or `</` when the next character is `/`. */
  function TagOpen(input: string, st: Scan, pushToken: bool): (r: Scan)
    requires st.pos.index < |input|
    ensures var close := st.pos.index + 1 < |input| && input[st.pos.index + 1] == '/';
            && r.pos.index == st.pos.index + (if close then 2 else 1) <= |input|
            && r.pos == Advance(input, st.pos, r.pos.index)
            && r.tokens == st.tokens + if pushToken then [TagStart(close, st.pos)] else []
  {
    var i := st.pos.index;
    var close := i + 1 < |input| && input[i + 1] == '/';
    var startPosition := ClonePosition(st.pos);
    var p := Advance(input, st.pos, if close then i + 2 else i + 1);
    Scan(p, if pushToken then st.tokens + [TagStart(close, startPosition)] else st.tokens)
  }

  /**
   * The last part of lexTag: consume `/>` when the character at the cursor
   * is `/`, else one character. A target past the end of the input hangs
   * updatePosition.
   */
  function TagClose(input: string, st: Scan, pushToken: bool): (r: Outcome<Scan>)
    requires st.pos.index <= |input|
    ensures r.Failure? <==> st.pos.index == |input| || (input[st.pos.index] == '/' && st.pos.index + 1 == |input|)
    ensures r.Failure? ==> r.error == Hang
    ensures r.Success? ==>
              && st.pos.index < |input|
              && var close := input[st.pos.index] == '/';
              && r.value.pos.index == st.pos.index + (if close then 2 else 1) <= |input|
              && r.value.pos == Advance(input, st.pos, r.value.pos.index)
              && r.value.tokens == st.tokens + if pushToken then [TagEnd(close, r.value.pos)] else []
  {
    var j := st.pos.index;
    var close := j < |input| && input[j] == '/';
    var target := if close then j + 2 else j + 1;
    if target > |input| then Failure(Hang)
    else
      var endPosition := ClonePosition(Advance(input, st.pos, target));
      Success(Scan(endPosition, if pushToken then st.tokens + [TagEnd(close, endPosition)] else st.tokens))
  }

  /**
   * lexTag: open, name, attributes, close; returns the name. lexTagName
   * is always asked to push its token, whatever pushToken says. A cursor at
   * the end of the input hangs updatePosition at the first step.
   */
  function TagStep(input: string, st: Scan, pushToken: bool): (r: Outcome<(Scan, string)>)
    requires st.pos.index <= |input|
    ensures r.Success? ==> st.pos.index < r.value.0.pos.index <= |input|
    ensures r.Success? ==> |st.tokens| <= |r.value.0.tokens| && r.value.0.tokens[..|st.tokens|] == st.tokens
  {
    if st.pos.index >= |input| then Failure(Hang)
    else
      var st1 := TagOpen(input, st, pushToken);
      var (st2, tagName) := TagNameStep(input, st1, true);
      match AttrsStep(input, st2)
      case Failure(f) => Failure(f)
      case Success(st3) =>
        match TagClose(input, st3, pushToken)
        case Failure(f) => Failure(f)
        case Success(st4) =>
          assert st4.tokens[..|st.tokens|] == st.tokens by {
            assert st4.tokens[..|st3.tokens|] == st3.tokens;
            assert st3.tokens[..|st2.tokens|] == st2.tokens;
          }
          Success((st4, tagName))
  }

  /** lexTag as its four parts, when it completes. */
  lemma TagStepParts(input: string, st: Scan, pushToken: bool)
    requires st.pos.index < |input| && TagStep(input, st, pushToken).Success?
    ensures var st1 := TagOpen(input, st, pushToken);
            var (st2, name) := TagNameStep(input, st1, true);
            && AttrsStep(input, st2).Success?
            && TagClose(input, AttrsStep(input, st2).value, pushToken).Success?
            && TagStep(input, st, pushToken).value == (TagClose(input, AttrsStep(input, st2).value, pushToken).value, name)
  {
  }

  /**
   * lexTag's first token: a tag-start at the cursor whose close flag says
   * whether `/` follows the `<`.
   */
  lemma TagStartToken(input: string, st: Scan)
    requires st.pos.index < |input| && TagStep(input, st, true).Success?
    ensures var u := TagStep(input, st, true).value.0;
            var i := st.pos.index;
            |st.tokens| + 3 <= |u.tokens| && u.tokens[|st.tokens|] == TagStart(i + 1 < |input| && input[i + 1] == '/', st.pos)
  {
    TagStepParts(input, st, true);
    var st1 := TagOpen(input, st, true);
    var st2 := TagNameStep(input, st1, true).0;
    var st3 := AttrsStep(input, st2).value;
    var u := TagClose(input, st3, true).value;
    assert u.tokens[..|st2.tokens|] == st2.tokens;
    assert st2.tokens[..|st1.tokens|] == st1.tokens;
  }

  /**
   * lexTag's second token: the name token, whose content is the name lexTag
   * returns, starting after the one or two characters lexTag consumed.
   */
  lemma TagNameToken(input: string, st: Scan)
    requires st.pos.index < |input| && TagStep(input, st, true).Success?
    ensures var u := TagStep(input, st, true).value.0;
            var i := st.pos.index;
            var close := i + 1 < |input| && input[i + 1] == '/';
            && |st.tokens| + 3 <= |u.tokens|
            && u.tokens[|st.tokens| + 1].TagName?
            && u.tokens[|st.tokens| + 1].content == TagStep(input, st, true).value.1
            && u.tokens[|st.tokens| + 1].start.index == NameStart(input, if close then i + 2 else i + 1)
  {
    TagStepParts(input, st, true);
    var n := |st.tokens|;
    var st1 := TagOpen(input, st, true);
    assert |st1.tokens| == n + 1;
    var (st2, name) := TagNameStep(input, st1, true);
    var s := NameStart(input, st1.pos.index);
    var token := TagName(name, Advance(input, st1.pos, s), st2.pos);
    assert st2.tokens == st1.tokens + [token];
    var st3 := AttrsStep(input, st2).value;
    var u := TagClose(input, st3, true).value;
    assert u.tokens[..|st2.tokens|] == st2.tokens;
    assert u.tokens[n + 1] == token;
  }

  /** Between the name token and the tag-end, lexTag pushes only attributes. */
  lemma TagAttrTokens(input: string, st: Scan)
    requires st.pos.index < |input| && TagStep(input, st, true).Success?
    ensures var u := TagStep(input, st, true).value.0;
            forall k :: |st.tokens| + 2 <= k < |u.tokens| - 1 ==> u.tokens[k].Attr?
  {
    TagStepParts(input, st, true);
    var n := |st.tokens|;
    var st1 := TagOpen(input, st, true);
    var st2 := TagNameStep(input, st1, true).0;
    var st3 := AttrsStep(input, st2).value;
    var u := TagClose(input, st3, true).value;
    var split := SplitWords(input, st2.pos.index);
    PairsCount(split.words, 0);
    var attrs := Pairs(split.words, 0).value;
    assert st3.tokens == st2.tokens + attrs;
    assert |st2.tokens| == n + 2;
    forall k | n + 2 <= k < |u.tokens| - 1
      ensures u.tokens[k].Attr?
    {
      assert u.tokens[k] == attrs[k - n - 2];
    }
  }

  /**
   * lexTag's last token: a tag-end at the final cursor, whose close flag
   * says whether the character at the cursor after the attributes is `/`;
   * it then consumed two characters, otherwise one.
   */
  lemma TagEndToken(input: string, st: Scan)
    requires st.pos.index < |input| && TagStep(input, st, true).Success?
    ensures var u := TagStep(input, st, true).value.0;
            && 0 < |u.tokens|
            && var e := u.tokens[|u.tokens| - 1];
               && e.TagEnd? && e.end == u.pos
               && var j := u.pos.index - (if e.close then 2 else 1);
                  && j == AttrsStep(input, TagNameStep(input, TagOpen(input, st, true), true).0).value.pos.index
                  && 0 <= j < |input| && (e.close <==> input[j] == '/')
  {
    TagStepParts(input, st, true);
    var st1 := TagOpen(input, st, true);
    var st2 := TagNameStep(input, st1, true).0;
    var st3 := AttrsStep(input, st2).value;
    var u := TagClose(input, st3, true).value;
    var close2 := st3.pos.index < |input| && input[st3.pos.index] == '/';
    assert u.tokens == st3.tokens + [TagEnd(close2, u.pos)];
    assert u.pos.index == st3.pos.index + (if close2 then 2 else 1);
  }
}
