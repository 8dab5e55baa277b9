/**
 * The cursor of lexer/position.go: a byte index with the line and column
 * it corresponds to. Lines and columns are counted from 0; a newline bumps
 * the line and resets the column, every other character bumps the column.
 */
module Positions {

  datatype Position = Position(index: nat, line: nat, column: nat)

  /** The position at the start of every input (the Go zero value). */
  const Origin := Position(0, 0, 0)

  /** clonePosition: a field-by-field copy. */
  function ClonePosition(p: Position): (r: Position)
    ensures r.index == p.index && r.line == p.line && r.column == p.column
  {
    Position(p.index, p.line, p.column)
  }

  /** The effect of consuming one character on line and column (not on index). */
  function Bump(p: Position, c: char): Position
  {
    if c == '\n' then p.(line := p.line + 1, column := 0) else p.(column := p.column + 1)
  }

  /** Line and column after consuming `s` character by character from `p`. */
  function Walk(p: Position, s: string): Position
    decreases |s|
  {
    if s == [] then p else Bump(Walk(p, s[..|s| - 1]), s[|s| - 1])
  }

  /** Number of newline characters in `s`. */
  function NewlineCount(s: string): nat
    decreases |s|
  {
    if s == [] then 0 else NewlineCount(s[..|s| - 1]) + (if s[|s| - 1] == '\n' then 1 else 0)
  }

  /**
   * updatePosition(endIndex): the position after the walk from `p.index`
   * to `endIndex`. A target at or before the cursor changes nothing; a
   * target past the cursor must lie within the input, since at the end of
   * the input the decoder reports width 0 and the Go loop never finishes.
   */
  function Advance(input: string, p: Position, endIndex: nat): (r: Position)
    requires endIndex <= p.index || endIndex <= |input|
    ensures r.index == if endIndex <= p.index then p.index else endIndex
    ensures endIndex <= p.index ==> r == p
  {
    if endIndex <= p.index then p else Walk(p, input[p.index..endIndex]).(index := endIndex)
  }

  /** A position is consistent with `input` when it is where a walk from the origin lands. */
  ghost predicate Consistent(input: string, p: Position)
  {
    p.index <= |input| && p == Advance(input, Origin, p.index)
  }

  lemma {:induction false} WalkKeepsIndex(p: Position, s: string)
    ensures Walk(p, s).index == p.index
    decreases |s|
  {
    if s != [] {
      WalkKeepsIndex(p, s[..|s| - 1]);
    }
  }

  /** Consuming `s` adds one line per newline in `s`. */
  lemma {:induction false} WalkLines(p: Position, s: string)
    ensures Walk(p, s).line == p.line + NewlineCount(s)
    decreases |s|
  {
    if s != [] {
      WalkLines(p, s[..|s| - 1]);
    }
  }

  /** With no newline in `s`, the column grows by the number of characters consumed. */
  lemma {:induction false} WalkColumnNoNewline(p: Position, s: string)
    requires forall k :: 0 <= k < |s| ==> s[k] != '\n'
    ensures Walk(p, s).column == p.column + |s|
    decreases |s|
  {
    if s != [] {
      WalkColumnNoNewline(p, s[..|s| - 1]);
    }
  }

  /** After a newline, the column is the number of characters that follow the last one. */
  lemma {:induction false} WalkColumnAfterNewline(p: Position, a: string, b: string)
    requires forall k :: 0 <= k < |b| ==> b[k] != '\n'
    ensures Walk(p, a + ['\n'] + b).column == |b|
    decreases |b|
  {
    var s := a + ['\n'] + b;
    if b == [] {
      assert s[..|s| - 1] == a;
    } else {
      var b' := b[..|b| - 1];
      assert s[..|s| - 1] == a + ['\n'] + b';
      WalkColumnAfterNewline(p, a, b');
    }
  }

  /** Walking `s` then `t` is walking `s + t`. */
  lemma {:induction false} WalkConcat(p: Position, s: string, t: string)
    ensures Walk(Walk(p, s), t) == Walk(p, s + t)
    decreases |t|
  {
    if t == [] {
      assert s + t == s;
    } else {
      var t' := t[..|t| - 1];
      assert (s + t)[..|s + t| - 1] == s + t';
      WalkConcat(p, s, t');
    }
  }

  /** updatePosition adds one line per newline between the old and the new index. */
  lemma AdvanceLines(input: string, p: Position, endIndex: nat)
    requires p.index <= endIndex <= |input|
    ensures Advance(input, p, endIndex).line == p.line + NewlineCount(input[p.index..endIndex])
  {
    if p.index < endIndex {
      WalkLines(p, input[p.index..endIndex]);
    }
  }

  /**
   * updatePosition's column: grown by the characters consumed when none of
   * them is a newline, otherwise the count of characters after the last one.
   */
  lemma AdvanceColumn(input: string, p: Position, endIndex: nat)
    requires p.index <= endIndex <= |input|
    ensures (forall k :: p.index <= k < endIndex ==> input[k] != '\n') ==>
              Advance(input, p, endIndex).column == p.column + (endIndex - p.index)
    ensures forall k :: p.index <= k < endIndex && input[k] == '\n' &&
                        (forall j :: k < j < endIndex ==> input[j] != '\n') ==>
              Advance(input, p, endIndex).column == endIndex - k - 1
  {
    var s := input[p.index..endIndex];
    if p.index < endIndex {
      if forall k :: p.index <= k < endIndex ==> input[k] != '\n' {
        WalkColumnNoNewline(p, s);
      }
      forall k | p.index <= k < endIndex && input[k] == '\n' &&
                 (forall j :: k < j < endIndex ==> input[j] != '\n')
        ensures Advance(input, p, endIndex).column == endIndex - k - 1
      {
        var a, b := input[p.index..k], input[k + 1..endIndex];
        assert s == a + ['\n'] + b;
        WalkColumnAfterNewline(p, a, b);
      }
    }
  }

  lemma {:induction false} NoNewlineNoCount(s: string)
    requires forall k :: 0 <= k < |s| ==> s[k] != '\n'
    ensures NewlineCount(s) == 0
    decreases |s|
  {
    if s != [] {
      NoNewlineNoCount(s[..|s| - 1]);
    }
  }

  /** An update over characters none of which is a newline stays on the line and moves the column by their number. */
  lemma AdvanceOnLine(input: string, p: Position, endIndex: nat)
    requires p.index <= endIndex <= |input|
    requires forall k :: p.index <= k < endIndex ==> input[k] != '\n'
    ensures Advance(input, p, endIndex) == Position(endIndex, p.line, p.column + (endIndex - p.index))
  {
    AdvanceLines(input, p, endIndex);
    AdvanceColumn(input, p, endIndex);
    NoNewlineNoCount(input[p.index..endIndex]);
  }

  /** Two successive updates land where one update to the farther target lands. */
  lemma AdvanceCompose(input: string, p: Position, mid: nat, endIndex: nat)
    requires p.index <= mid <= endIndex <= |input|
    ensures Advance(input, Advance(input, p, mid), endIndex) == Advance(input, p, endIndex)
  {
    if p.index < mid < endIndex {
      var s, t := input[p.index..mid], input[mid..endIndex];
      assert s + t == input[p.index..endIndex];
      WalkConcat(p, s, t);
      WalkKeepsIndex(p, s);
      var q := Walk(p, s);
      assert Walk(q.(index := mid), t) == Walk(q, t).(index := mid) by {
        WalkIgnoresIndex(q, mid, t);
      }
    }
  }

  lemma {:induction false} WalkIgnoresIndex(p: Position, i: nat, s: string)
    ensures Walk(p.(index := i), s) == Walk(p, s).(index := i)
    decreases |s|
  {
    if s != [] {
      WalkIgnoresIndex(p, i, s[..|s| - 1]);
    }
  }

  /** updatePosition keeps a position consistent with the input it walks over. */
  lemma AdvanceConsistent(input: string, p: Position, endIndex: nat)
    requires Consistent(input, p)
    requires endIndex <= p.index || endIndex <= |input|
    ensures Consistent(input, Advance(input, p, endIndex))
  {
    if p.index < endIndex {
      AdvanceCompose(input, Origin, p.index, endIndex);
    }
  }

  lemma OriginConsistent(input: string)
    ensures Consistent(input, Origin)
  {
  }
}
