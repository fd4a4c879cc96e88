/** Line and column bookkeeping on the success path of the scan loop. */
module Positions {
  import opened Bytes

  /** A line/column pair; a scan starts at line 1, column 1. */
  datatype Position = Position(line: int, column: int)

  const Start: Position := Position(1, 1)

  /** One byte of a matched span: a newline starts the next line at column 1,
      any other byte moves one column to the right. */
  function AdvanceByte(p: Position, b: byte): Position
  {
    if b == LF then Position(p.line + 1, 1) else Position(p.line, p.column + 1)
  }

  /** Replays the bytes of a matched span, first to last. */
  function Advance(p: Position, bs: Bytes): Position
    decreases |bs|
  {
    if |bs| == 0 then p else Advance(AdvanceByte(p, bs[0]), bs[1..])
  }

  /** The number of bytes after the last newline of `bs` (all of them when there is none). */
  function Trailing(bs: Bytes): nat
    decreases |bs|
  {
    if |bs| == 0 || bs[|bs| - 1] == LF then 0 else Trailing(bs[..|bs| - 1]) + 1
  }

  /** Replaying two spans one after the other is replaying their concatenation. */
  lemma {:induction false} AdvanceAppend(p: Position, a: Bytes, b: Bytes)
    ensures Advance(p, a + b) == Advance(Advance(p, a), b)
    decreases |a|
  {
    if |a| == 0 {
      assert a + b == b;
    } else {
      assert (a + b)[1..] == a[1..] + b;
      AdvanceAppend(AdvanceByte(p, a[0]), a[1..], b);
    }
  }

  /** The position after a span, in closed form: one line per newline; the column counts the
      bytes after the last newline, or adds the span's length when it holds no newline. */
  lemma {:induction false} AdvanceClosedForm(p: Position, bs: Bytes)
    ensures Advance(p, bs).line == p.line + multiset(bs)[LF]
    ensures Advance(p, bs).column == if LF in bs then Trailing(bs) + 1 else p.column + |bs|
    decreases |bs|
  {
    if |bs| > 0 {
      var init, last := bs[..|bs| - 1], bs[|bs| - 1];
      assert bs == init + [last];
      AdvanceClosedForm(p, init);
      AdvanceAppend(p, init, [last]);
      assert Advance(Advance(p, init), [last]) == AdvanceByte(Advance(p, init), last);
      assert multiset(bs) == multiset(init) + multiset{last};
      assert LF in bs <==> LF in init || last == LF;
    }
  }

  /** The line never goes back, and a column that starts at 1 or more stays there. */
  lemma AdvanceForward(p: Position, bs: Bytes)
    ensures Advance(p, bs).line >= p.line
    ensures p.column >= 1 ==> Advance(p, bs).column >= 1
  {
    AdvanceClosedForm(p, bs);
  }
}
