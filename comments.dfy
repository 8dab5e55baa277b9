/** The comment scanner of lexer/lexer.go (lexComment) and the substring search it uses. */
module Comments {
  import opened Wrappers
  import opened Positions
  import opened Tokens

  predicate OccursAt(s: string, pat: string, k: nat)
  {
    k + |pat| <= |s| && s[k..k + |pat|] == pat
  }

  /** strings.Index (and strings.IndexRune for a one-character pattern): the first occurrence. */
  function Find(s: string, pat: string): (r: Option<nat>)
    ensures r.Some? ==> OccursAt(s, pat, r.value) && forall k :: 0 <= k < r.value ==> !OccursAt(s, pat, k)
    ensures r.None? ==> forall k :: 0 <= k <= |s| ==> !OccursAt(s, pat, k)
    decreases |s|
  {
    if |s| < |pat| then None
    else if s[..|pat|] == pat then Some(0)
    else
      ShiftByOne(s, pat);
      match Find(s[1..], pat)
      case None => None
      case Some(k) => Some(k + 1)
  }

  /** strings.HasPrefix(input[index:], "<!--"). */
  predicate IsCommentStart(input: string, index: nat)
  {
    index + 4 <= |input| && input[index..index + 4] == "<!--"
  }

  /**
   * lexComment. The offset of `-->` is taken relative to the cursor but
   * then used as an absolute index, both for the span end and for the
   * slice end. With no `-->` the comment runs to the end of the input.
   * The slice input[start:end] panics when end < start.
   */
  function CommentStep(input: string, st: Scan): (r: Outcome<Scan>)
    requires st.pos.index <= |input|
    ensures var found := Find(input[st.pos.index..], "-->");
            r.Failure? <==> found.Some? && found.value + 3 < st.pos.index
    ensures r.Failure? ==> r.error == SliceOutOfRange
    ensures r.Success? ==>
              && st.pos.index <= r.value.pos.index <= |input|
              && |r.value.tokens| == |st.tokens| + 1
              && r.value.tokens[..|st.tokens|] == st.tokens
              && var t := r.value.tokens[|st.tokens|];
              && t.Comment? && t.start == st.pos
              && t.content == input[st.pos.index..r.value.pos.index]
  {
    var commentStartIndex := st.pos.index;
    var found := Find(input[commentStartIndex..], "-->");
    var contentEndIndex := if found.Some? then found.value else |input|;
    var commentEndIndex := if found.Some? then found.value + 3 else |input|;
    var commentStartPosition := ClonePosition(st.pos);
    var p1 := Advance(input, st.pos, contentEndIndex);
    var commentEndPosition := ClonePosition(p1);
    var p2 := Advance(input, p1, commentEndIndex);
    if commentEndIndex < commentStartIndex then Failure(SliceOutOfRange)
    else Success(Scan(p2, st.tokens + [Comment(input[commentStartIndex..commentEndIndex], commentStartPosition, commentEndPosition)]))
  }

  /**
   * At index 0 (where relative and absolute offsets agree) a comment closed
   * by `-->` at offset k has content input[0..k+3], a span ending at k,
   * before the `-->`, and leaves the cursor after it.
   */
  lemma CommentAtStart(input: string, st: Scan, k: nat)
    requires st.pos.index == 0
    requires OccursAt(input, "-->", k) && forall j :: 0 <= j < k ==> !OccursAt(input, "-->", j)
    ensures CommentStep(input, st).Success?
    ensures var r := CommentStep(input, st).value;
            && r.pos.index == k + 3
            && r.tokens == st.tokens + [Comment(input[..k + 3], st.pos, Advance(input, st.pos, k))]
            && Advance(input, st.pos, k).index == k
  {
    assert input[0..] == input;
    FindIsFirst(input, "-->", k);
  }

  /** With no `-->` after the cursor the comment takes the rest of the input. */
  lemma UnclosedComment(input: string, st: Scan)
    requires st.pos.index <= |input|
    requires forall j :: st.pos.index <= j <= |input| ==> !OccursAt(input, "-->", j)
    ensures CommentStep(input, st).Success?
    ensures var r := CommentStep(input, st).value;
            && r.pos.index == |input|
            && r.tokens == st.tokens + [Comment(input[st.pos.index..], st.pos, Advance(input, st.pos, |input|))]
  {
    var s := st.pos.index;
    var rest := input[s..];
    forall k | 0 <= k <= |rest| ensures !OccursAt(rest, "-->", k) {
      ShiftedOccurrence(input, "-->", s, k);
    }
    assert Find(rest, "-->").None?;
    assert input[s..|input|] == rest;
    AdvanceCompose(input, st.pos, |input|, |input|);
  }

  /**
   * At any cursor s, a `-->` found at relative offset k: the slice panics
   * when k + 3 < s, and the cursor ends at the larger of s and k + 3.
   */
  lemma CommentAnywhere(input: string, st: Scan, k: nat)
    requires st.pos.index <= |input|
    requires Find(input[st.pos.index..], "-->") == Some(k)
    ensures CommentStep(input, st).Failure? <==> k + 3 < st.pos.index
    ensures CommentStep(input, st).Success? ==>
              CommentStep(input, st).value.pos.index == k + 3 &&
              CommentStep(input, st).value.tokens[|st.tokens|].end.index == if k <= st.pos.index then st.pos.index else k
  {
  }

  lemma {:induction false} FindIsFirst(s: string, pat: string, k: nat)
    requires OccursAt(s, pat, k) && forall j :: 0 <= j < k ==> !OccursAt(s, pat, j)
    ensures Find(s, pat) == Some(k)
  {
  }

  lemma ShiftByOne(s: string, pat: string)
    requires |s| >= 1
    ensures forall k: nat :: OccursAt(s[1..], pat, k) <==> OccursAt(s, pat, k + 1)
    ensures forall k: nat :: 1 <= k ==> (OccursAt(s, pat, k) <==> OccursAt(s[1..], pat, k - 1))
  {
    forall k: nat ensures OccursAt(s[1..], pat, k) <==> OccursAt(s, pat, k + 1) {
      ShiftedOccurrence(s, pat, 1, k);
    }
    forall k: nat | 1 <= k ensures OccursAt(s, pat, k) <==> OccursAt(s[1..], pat, k - 1) {
      ShiftedOccurrence(s, pat, 1, k - 1);
    }
  }

  lemma ShiftedOccurrence(s: string, pat: string, d: nat, k: nat)
    requires d <= |s|
    ensures OccursAt(s[d..], pat, k) <==> OccursAt(s, pat, d + k)
  {
    if k + |pat| <= |s[d..]| {
      assert s[d..][k..k + |pat|] == s[d + k..d + k + |pat|];
    }
  }
}
