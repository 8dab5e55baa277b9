/**
 * What a completed Lex run produces, stated once for the whole token
 * stream: every position a token carries is where line and column
 * tracking from the start of the input puts that index; text and name
 * tokens hold exactly the input between their start and end; a comment's
 * content is the input from its start; and the positioned tokens appear in
 * input order, inside the part of the input already scanned.
 */
module Streams {
  import opened Wrappers
  import opened Positions
  import opened Tokens
  import opened Text
  import opened Comments
  import opened Attrs
  import opened Tags
  import opened Driver

  /** The first index a token's positions mention (attributes carry none). */
  function First(t: Token): nat
  {
    match t
    case Text(_, s, _) => s.index
    case TagStart(_, s) => s.index
    case TagName(_, s, _) => s.index
    case Attr(_, _) => 0
    case TagEnd(_, e) => e.index
    case Comment(_, s, _) => s.index
  }

  /** The last index a token's positions mention. */
  function Last(t: Token): nat
  {
    match t
    case Text(_, _, e) => e.index
    case TagStart(_, s) => s.index
    case TagName(_, _, e) => e.index
    case Attr(_, _) => 0
    case TagEnd(_, e) => e.index
    case Comment(_, _, e) => e.index
  }

  /** How far into the input a token reaches: a comment's content runs past its span to the `-->`. */
  function Reach(t: Token): nat
  {
    match t
    case Comment(c, s, _) => s.index + |c|
    case _ => Last(t)
  }

  /** The token's positions are consistent and its content is the input it covers. */
  ghost predicate Faithful(input: string, t: Token)
  {
    match t
    case Text(c, s, e) => Consistent(input, s) && Consistent(input, e) && s.index <= e.index && c == input[s.index..e.index]
    case TagStart(_, s) => Consistent(input, s)
    case TagName(c, s, e) => Consistent(input, s) && Consistent(input, e) && s.index <= e.index && c == input[s.index..e.index]
    case Attr(_, _) => true
    case TagEnd(_, e) => Consistent(input, e)
    case Comment(c, s, e) =>
      && Consistent(input, s) && Consistent(input, e)
      && s.index + |c| <= |input| && c == input[s.index..s.index + |c|]
  }

  /** An attribute, or a faithful token lying within [lo, hi]. */
  ghost predicate Fits(input: string, t: Token, lo: nat, hi: nat)
  {
    t.Attr? || (lo <= First(t) <= Last(t) <= Reach(t) <= hi && Faithful(input, t))
  }

  predicate Precedes(a: Token, b: Token)
  {
    a.Attr? || b.Attr? || Last(a) <= First(b)
  }

  /** Tokens that fit in [lo, hi], in input order. */
  ghost predicate Laid(input: string, ts: seq<Token>, lo: nat, hi: nat)
  {
    && (forall k :: 0 <= k < |ts| ==> Fits(input, ts[k], lo, hi))
    && (forall k, l :: 0 <= k < l < |ts| ==> Precedes(ts[k], ts[l]))
  }

  /** The invariant of a scan: a consistent cursor, and the tokens so far laid out before it. */
  ghost predicate Sound(input: string, st: Scan)
  {
    Consistent(input, st.pos) && Laid(input, st.tokens, 0, st.pos.index)
  }

  lemma LaidAppend(input: string, ts: seq<Token>, us: seq<Token>, lo: nat, mid: nat, hi: nat)
    requires lo <= mid <= hi && Laid(input, ts, lo, mid) && Laid(input, us, mid, hi)
    ensures Laid(input, ts + us, lo, hi)
  {
    var vs := ts + us;
    forall k, l | 0 <= k < l < |vs|
      ensures Precedes(vs[k], vs[l])
    {
      if l < |ts| {
        assert vs[k] == ts[k] && vs[l] == ts[l];
      } else if k >= |ts| {
        assert vs[k] == us[k - |ts|] && vs[l] == us[l - |ts|];
      } else {
        assert Fits(input, vs[k], lo, mid) && Fits(input, vs[l], mid, hi);
      }
    }
    forall k | 0 <= k < |vs|
      ensures Fits(input, vs[k], lo, hi)
    {
      if k < |ts| {
        assert Fits(input, ts[k], lo, mid);
      } else {
        assert Fits(input, us[k - |ts|], mid, hi);
      }
    }
  }

  /** A step that appends `us`, laid out between the old and the new cursor, keeps a scan sound. */
  lemma SoundAppend(input: string, st: Scan, u: Scan, us: seq<Token>)
    requires Sound(input, st) && Consistent(input, u.pos)
    requires st.pos.index <= u.pos.index
    requires u.tokens == st.tokens + us && Laid(input, us, st.pos.index, u.pos.index)
    ensures Sound(input, u)
  {
    LaidAppend(input, st.tokens, us, 0, st.pos.index, u.pos.index);
  }

  lemma TextSound(input: string, st: Scan)
    requires st.pos.index <= |input| && Sound(input, st)
    ensures Sound(input, TextStep(input, st))
  {
    var u := TextStep(input, st);
    if u.pos.index != st.pos.index {
      AdvanceConsistent(input, st.pos, u.pos.index);
      var t := Text(input[st.pos.index..u.pos.index], st.pos, u.pos);
      assert u.tokens == st.tokens + [t];
      assert Fits(input, t, st.pos.index, u.pos.index);
      SoundAppend(input, st, u, [t]);
    }
  }

  lemma CommentSound(input: string, st: Scan)
    requires st.pos.index <= |input| && Sound(input, st) && CommentStep(input, st).Success?
    ensures Sound(input, CommentStep(input, st).value)
  {
    var u := CommentStep(input, st).value;
    var s := st.pos.index;
    var found := Find(input[s..], "-->");
    var contentEnd := if found.Some? then found.value else |input|;
    var commentEnd := if found.Some? then found.value + 3 else |input|;
    var p1 := Advance(input, st.pos, contentEnd);
    AdvanceConsistent(input, st.pos, contentEnd);
    AdvanceConsistent(input, p1, commentEnd);
    var t := Comment(input[s..commentEnd], st.pos, p1);
    assert u.tokens == st.tokens + [t];
    assert u.pos == Advance(input, p1, commentEnd);
    assert Fits(input, t, s, u.pos.index);
    SoundAppend(input, st, u, [t]);
  }

  lemma TagOpenSound(input: string, st: Scan, pushToken: bool)
    requires st.pos.index < |input| && Sound(input, st)
    ensures Sound(input, TagOpen(input, st, pushToken))
  {
    var u := TagOpen(input, st, pushToken);
    var close := st.pos.index + 1 < |input| && input[st.pos.index + 1] == '/';
    AdvanceConsistent(input, st.pos, if close then st.pos.index + 2 else st.pos.index + 1);
    var us := if pushToken then [TagStart(close, st.pos)] else [];
    assert u.tokens == st.tokens + us;
    SoundAppend(input, st, u, us);
  }

  lemma TagNameSound(input: string, st: Scan, pushToken: bool)
    requires st.pos.index <= |input| && Sound(input, st)
    ensures Sound(input, TagNameStep(input, st, pushToken).0)
  {
    var (u, name) := TagNameStep(input, st, pushToken);
    var s := NameStart(input, st.pos.index);
    var p := Advance(input, st.pos, s);
    AdvanceConsistent(input, st.pos, s);
    AdvanceConsistent(input, st.pos, u.pos.index);
    var us := if pushToken then [TagName(name, p, u.pos)] else [];
    assert u.tokens == st.tokens + us;
    SoundAppend(input, st, u, us);
  }

  lemma AttrsSound(input: string, st: Scan)
    requires st.pos.index <= |input| && Sound(input, st) && AttrsStep(input, st).Success?
    ensures Sound(input, AttrsStep(input, st).value)
  {
    var u := AttrsStep(input, st).value;
    var split := SplitWords(input, st.pos.index);
    PairsCount(split.words, 0);
    var us := Pairs(split.words, 0).value;
    assert u.tokens == st.tokens + us;
    if split.stop.Some? {
      AdvanceConsistent(input, st.pos, split.stop.value);
    }
    assert Laid(input, us, st.pos.index, u.pos.index);
    SoundAppend(input, st, u, us);
  }

  lemma TagCloseSound(input: string, st: Scan, pushToken: bool)
    requires st.pos.index <= |input| && Sound(input, st) && TagClose(input, st, pushToken).Success?
    ensures Sound(input, TagClose(input, st, pushToken).value)
  {
    var u := TagClose(input, st, pushToken).value;
    var j := st.pos.index;
    var close := j < |input| && input[j] == '/';
    AdvanceConsistent(input, st.pos, if close then j + 2 else j + 1);
    var us := if pushToken then [TagEnd(close, u.pos)] else [];
    assert u.tokens == st.tokens + us;
    SoundAppend(input, st, u, us);
  }

  lemma TagSound(input: string, st: Scan, pushToken: bool)
    requires st.pos.index <= |input| && Sound(input, st) && TagStep(input, st, pushToken).Success?
    ensures Sound(input, TagStep(input, st, pushToken).value.0)
  {
    TagStepParts(input, st, pushToken);
    var st1 := TagOpen(input, st, pushToken);
    TagOpenSound(input, st, pushToken);
    var st2 := TagNameStep(input, st1, true).0;
    TagNameSound(input, st1, true);
    var st3 := AttrsStep(input, st2).value;
    AttrsSound(input, st2);
    TagCloseSound(input, st3, pushToken);
  }

  lemma LexStepSound(input: string, st: Scan)
    requires st.pos.index < |input| && Sound(input, st) && LexStep(input, st).Success?
    ensures Sound(input, LexStep(input, st).value)
  {
    var t := TextStep(input, st);
    TextSound(input, st);
    if t.pos.index == st.pos.index {
      if IsCommentStart(input, st.pos.index) {
        CommentSound(input, t);
      } else {
        TagSound(input, t, true);
      }
    }
  }

  lemma {:induction false} RunSound(input: string, st: Scan)
    requires st.pos.index <= |input| && Sound(input, st) && Run(input, st).Success?
    ensures Sound(input, Run(input, st).value)
    decreases |input| - st.pos.index
  {
    if st.pos.index < |input| {
      var u := LexStep(input, st).value;
      LexStepSound(input, st);
      RunSound(input, u);
    }
  }

  /**
   * The tokens of a completed Lex from a fresh lexer: positions consistent
   * with the input, contents the input they cover, in input order, and the
   * cursor at the end of the input with line and column to match.
   */
  lemma LexAllSound(input: string)
    requires LexAll(input).Success?
    ensures var r := LexAll(input).value;
            && r.pos == Advance(input, Origin, |input|)
            && Laid(input, r.tokens, 0, |input|)
  {
    var st := Scan(Origin, []);
    OriginConsistent(input);
    RunSound(input, st);
    RunEndsAtEnd(input, st);
  }
}
