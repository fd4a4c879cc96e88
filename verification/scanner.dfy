/** The scan loop of `Lexer.Parse`, one iteration at a time: a rule match, or one recovery step. */
module Scanner {
  import opened Wrappers
  import opened Bytes
  import opened Regexp
  import opened Tokens
  import opened Positions
  import opened Rules

  /** The bytes the recovery path treats as whitespace: each moves the line counter. */
  predicate Blank(b: byte)
  {
    b == LF || b == TAB || b == CR || b == SP
  }

  /** A byte in front adds one whitespace byte when it is one. */
  lemma BlanksCons(b: byte, t: Bytes)
    ensures Blanks([b] + t) == (if Blank(b) then 1 else 0) + Blanks(t)
  {
    assert multiset([b] + t) == multiset{b} + multiset(t);
  }

  /** The bytes the recovery path steps over without stopping: whitespace and NUL. */
  predicate Skipped(b: byte)
  {
    Blank(b) || b == NUL
  }

  /** How many whitespace bytes `bs` holds. */
  function Blanks(bs: Bytes): nat
  {
    multiset(bs)[LF] + multiset(bs)[TAB] + multiset(bs)[CR] + multiset(bs)[SP]
  }

  /** One byte on the recovery path: a newline starts the next line at column 1; tab, carriage
      return and space move to the next line and keep the column; any other byte moves nothing. */
  function RecoverByte(p: Position, b: byte): Position
  {
    if b == LF then Position(p.line + 1, 1)
    else if Blank(b) then Position(p.line + 1, p.column)
    else p
  }

  /** The outcome of the recovery loop: bytes consumed, the byte kept (0 when none), position reached. */
  datatype Recovery = Recovery(consumed: nat, value: byte, pos: Position)

  /** The recovery loop of `Parse`: steps over whitespace and NUL bytes and stops right after the
      first other byte, which becomes the Unknown token's value (NUL when it runs off the end). */
  function Recover(stack: Bytes, p: Position): (r: Recovery)
    decreases |stack|
    ensures r.consumed <= |stack|
    ensures |stack| > 0 ==> r.consumed > 0
  {
    if |stack| == 0 then Recovery(0, NUL, p)
    else if !Skipped(stack[0]) then Recovery(1, stack[0], RecoverByte(p, stack[0]))
    else
      var r := Recover(stack[1..], RecoverByte(p, stack[0]));
      Recovery(r.consumed + 1, r.value, r.pos)
  }

  /** Where recovery stops: every consumed byte but the last is whitespace or NUL; it stops
      early only on a byte that is neither, and keeps that byte (NUL if it ran off the end). */
  lemma {:induction false} RecoverStops(stack: Bytes, p: Position)
    decreases |stack|
    ensures var r := Recover(stack, p);
            && (forall i :: 0 <= i < r.consumed - 1 ==> Skipped(stack[i]))
            && (r.consumed < |stack| ==> !Skipped(stack[r.consumed - 1]))
            && r.value == (if 0 < r.consumed && !Skipped(stack[r.consumed - 1]) then stack[r.consumed - 1] else NUL)
  {
    if |stack| > 0 && Skipped(stack[0]) {
      var q := RecoverByte(p, stack[0]);
      RecoverStops(stack[1..], q);
      var r := Recover(stack[1..], q);
      assert forall i :: 1 <= i < r.consumed + 1 ==> stack[i] == stack[1..][i - 1];
    }
  }

  /** The line recovery reaches: one more per whitespace byte consumed. */
  lemma {:induction false} RecoverLines(stack: Bytes, p: Position)
    decreases |stack|
    ensures Recover(stack, p).pos.line == p.line + Blanks(stack[..Recover(stack, p).consumed])
  {
    if |stack| > 0 {
      var b := stack[0];
      if !Skipped(b) {
        assert stack[..1] == [b];
        BlanksCons(b, []);
      } else {
        var q := RecoverByte(p, b);
        RecoverLines(stack[1..], q);
        var r := Recover(stack[1..], q);
        assert Recover(stack, p) == Recovery(r.consumed + 1, r.value, r.pos);
        assert stack[..r.consumed + 1] == [b] + stack[1..][..r.consumed];
        BlanksCons(b, stack[1..][..r.consumed]);
      }
    }
  }

  /** The column recovery reaches: 1 once a newline was consumed, the starting column otherwise. */
  lemma {:induction false} RecoverColumn(stack: Bytes, p: Position)
    decreases |stack|
    ensures Recover(stack, p).pos.column == if LF in stack[..Recover(stack, p).consumed] then 1 else p.column
  {
    if |stack| > 0 {
      var b := stack[0];
      if !Skipped(b) {
        assert stack[..1] == [b];
      } else {
        var q := RecoverByte(p, b);
        RecoverColumn(stack[1..], q);
        var r := Recover(stack[1..], q);
        assert stack[..r.consumed + 1] == [b] + stack[1..][..r.consumed];
      }
    }
  }

  /** What recovery consumes and keeps: every consumed byte but the last is whitespace or NUL; it
      stops early only on a byte that is neither, and keeps that byte (NUL if it ran off the end);
      each whitespace byte adds a line, and the column is reset by a newline and otherwise untouched. */
  lemma RecoverSpec(stack: Bytes, p: Position)
    ensures var r := Recover(stack, p);
            && (forall i :: 0 <= i < r.consumed - 1 ==> Skipped(stack[i]))
            && (r.consumed < |stack| ==> !Skipped(stack[r.consumed - 1]))
            && r.value == (if 0 < r.consumed && !Skipped(stack[r.consumed - 1]) then stack[r.consumed - 1] else NUL)
            && r.pos.line == p.line + Blanks(stack[..r.consumed])
            && r.pos.column == (if LF in stack[..r.consumed] then 1 else p.column)
  {
    RecoverStops(stack, p);
    RecoverLines(stack, p);
    RecoverColumn(stack, p);
  }

  /** What one iteration of the scan loop did. */
  datatype Outcome = Recognized(token: Token) | Suppressed | Unrecognized(token: Token)

  /** One iteration: its outcome, the bytes it consumed, and the position it reached. */
  datatype Step = Step(outcome: Outcome, span: Bytes, pos: Position)

  /** The tokens an iteration appends. */
  function Emitted(o: Outcome): (ts: seq<Token>)
    ensures |ts| == if o.Suppressed? then 0 else 1
  {
    match o
    case Recognized(t) => [t]
    case Suppressed => []
    case Unrecognized(t) => [t]
  }

  /** The final token of every scan. */
  function EofToken(p: Position): Token
  {
    NewToken("EOF", [], p.line, p.column)
  }

  /** One iteration of the scan loop on the unread input `stack`, at position `p`: the first
      matching rule consumes its match, or recovery consumes up to one kept byte. */
  function NextStep(e: Engine, rules: seq<Rule>, stack: Bytes, p: Position): (s: Step)
    ensures Progressing(e, rules) && |stack| > 0 ==> 0 < |s.span| <= |stack|
  {
    FindSpec(e, rules, stack);
    assert Progressing(e, rules) ==> ProgressesOn(e, rules, stack);
    match Find(e, rules, stack)
    case Some(found) =>
      var rule := rules[found.index];
      var pos := Advance(p, found.text);
      if rule.deleteToken then Step(Suppressed, found.text, pos)
      else Step(Recognized(NewToken(rule.name, Normalize(e, rule, found.text), pos.line, pos.column)), found.text, pos)
    case None =>
      var rc := Recover(stack, p);
      Step(Unrecognized(NewToken("Unknown", RuneString(rc.value), rc.pos.line, rc.pos.column)), stack[..rc.consumed], rc.pos)
  }

  /** What an iteration does. A match is replayed byte by byte and its token, unless the rule
      suppresses it, carries the rule's name, the normalised match and the position after it.
      Without a match, one Unknown token holds the kept byte as a UTF-8 string. Either way the
      emitted token sits at the iteration's final position, which is never on an earlier line. */
  lemma StepSpec(e: Engine, rules: seq<Rule>, stack: Bytes, p: Position)
    ensures var s := NextStep(e, rules, stack, p);
            && (s.outcome.Unrecognized? <==> Find(e, rules, stack).None?)
            && (s.outcome.Suppressed? <==> Find(e, rules, stack).Some? && rules[Find(e, rules, stack).value.index].deleteToken)
            && (forall t :: t in Emitted(s.outcome) ==> t.line == s.pos.line && t.column == s.pos.column)
            && s.pos.line >= p.line
            && (p.column >= 1 ==> s.pos.column >= 1)
    ensures var s := NextStep(e, rules, stack, p);
            Find(e, rules, stack).Some? ==>
              && s.span == Find(e, rules, stack).value.text
              && s.pos == Advance(p, s.span)
              && (s.outcome.Recognized? ==>
                    var rule := rules[Find(e, rules, stack).value.index];
                    s.outcome.token.rule == rule.name && s.outcome.token.value == Normalize(e, rule, s.span))
              && (AnchoredFinds(e, rules) ==> s.span <= stack)
    ensures var s := NextStep(e, rules, stack, p);
            Find(e, rules, stack).None? ==>
              && s.span == stack[..Recover(stack, p).consumed]
              && s.pos == Recover(stack, p).pos
              && s.outcome.token.rule == "Unknown"
              && DecodeRune(s.outcome.token.value) == Some(Recover(stack, p).value)
              && (s.pos.column == 1 || s.pos.column == p.column)
  {
    FindSpec(e, rules, stack);
    assert AnchoredFinds(e, rules) ==> AnchoredOn(e, rules, stack);
    match Find(e, rules, stack)
    case Some(found) =>
      AdvanceForward(p, found.text);
    case None =>
      RecoverSpec(stack, p);
  }

  /** `Parse` from the unread input `stack` at position `p`: every iteration's tokens, then EOF. */
  function Scan(e: Engine, rules: seq<Rule>, stack: Bytes, p: Position): (ts: seq<Token>)
    requires Progressing(e, rules)
    decreases |stack|
  {
    if |stack| == 0 then [EofToken(p)]
    else
      var s := NextStep(e, rules, stack, p);
      Emitted(s.outcome) + Scan(e, rules, stack[|s.span|..], s.pos)
  }

  /** One unfolding of `Scan` on non-empty input. */
  lemma ScanUnfold(e: Engine, rules: seq<Rule>, stack: Bytes, p: Position)
    requires Progressing(e, rules) && |stack| > 0
    ensures 0 < |NextStep(e, rules, stack, p).span| <= |stack|
    ensures Scan(e, rules, stack, p) ==
            Emitted(NextStep(e, rules, stack, p).outcome) +
            Scan(e, rules, stack[|NextStep(e, rules, stack, p).span|..], NextStep(e, rules, stack, p).pos)
  {
  }

  /** One iteration of the loop at offset `i` of `buf`: the loop's invariant carries over. */
  lemma LoopStep(e: Engine, rules: seq<Rule>, buf: Bytes, i: nat, p: Position, emitted: seq<Token>, consumed: nat, q: Position)
    requires Progressing(e, rules) && i < |buf|
    requires emitted == Emitted(NextStep(e, rules, buf[i..], p).outcome)
    requires consumed == |NextStep(e, rules, buf[i..], p).span|
    requires q == NextStep(e, rules, buf[i..], p).pos
    ensures 0 < consumed && i + consumed <= |buf|
    ensures Scan(e, rules, buf[i..], p) == emitted + Scan(e, rules, buf[i + consumed..], q)
  {
    ScanUnfold(e, rules, buf[i..], p);
    assert buf[i..][consumed..] == buf[i + consumed..];
  }

  /** Every scan's token list is non-empty and ends with the EOF token, at the scan's final position. */
  lemma {:induction false} ScanEndsWithEof(e: Engine, rules: seq<Rule>, stack: Bytes, p: Position)
    requires Progressing(e, rules)
    decreases |stack|
    ensures var ts := Scan(e, rules, stack, p);
            |ts| >= 1 && ts[|ts| - 1] == EofToken(Execute(e, rules, stack, p).end)
    ensures var ts := Scan(e, rules, stack, p);
            ts[|ts| - 1].rule == "EOF" && ts[|ts| - 1].value == []
  {
    if |stack| > 0 {
      var s := NextStep(e, rules, stack, p);
      ScanEndsWithEof(e, rules, stack[|s.span|..], s.pos);
    }
  }

  /** A whole scan as the list of its iterations and the position where it ended. */
  datatype Run = Run(steps: seq<Step>, end: Position)

  /** The total number of bytes the iterations consumed. */
  function Consumed(steps: seq<Step>): nat
    decreases |steps|
  {
    if |steps| == 0 then 0 else |steps[0].span| + Consumed(steps[1..])
  }

  /** The spans of the iterations, one after the other. */
  function Spans(steps: seq<Step>): Bytes
    decreases |steps|
  {
    if |steps| == 0 then [] else steps[0].span + Spans(steps[1..])
  }

  /** Every iteration of a scan from `stack` at position `p`. */
  function Execute(e: Engine, rules: seq<Rule>, stack: Bytes, p: Position): (r: Run)
    requires Progressing(e, rules)
    decreases |stack|
    ensures Consumed(r.steps) == |stack|
    ensures forall i :: 0 <= i < |r.steps| ==> |r.steps[i].span| > 0
    ensures AnchoredFinds(e, rules) ==> Spans(r.steps) == stack
  {
    if |stack| == 0 then Run([], p)
    else
      var s := NextStep(e, rules, stack, p);
      var rest := Execute(e, rules, stack[|s.span|..], s.pos);
      assert ([s] + rest.steps)[1..] == rest.steps;
      StepSpec(e, rules, stack, p);
      assert AnchoredFinds(e, rules) ==> s.span == stack[..|s.span|];
      assert stack == stack[..|s.span|] + stack[|s.span|..];
      Run([s] + rest.steps, rest.end)
  }

  /** The tokens the iterations appended, in order. */
  function Emit(steps: seq<Step>): seq<Token>
    decreases |steps|
  {
    if |steps| == 0 then [] else Emitted(steps[0].outcome) + Emit(steps[1..])
  }

  function CountRecognized(steps: seq<Step>): nat
    decreases |steps|
  {
    if |steps| == 0 then 0 else (if steps[0].outcome.Recognized? then 1 else 0) + CountRecognized(steps[1..])
  }

  function CountUnrecognized(steps: seq<Step>): nat
    decreases |steps|
  {
    if |steps| == 0 then 0 else (if steps[0].outcome.Unrecognized? then 1 else 0) + CountUnrecognized(steps[1..])
  }

  /** The token list is the iterations' tokens in order, closed by EOF at the final position. */
  lemma {:induction false} ScanIsRun(e: Engine, rules: seq<Rule>, stack: Bytes, p: Position)
    requires Progressing(e, rules)
    ensures Scan(e, rules, stack, p) == Emit(Execute(e, rules, stack, p).steps) + [EofToken(Execute(e, rules, stack, p).end)]
    decreases |stack|
  {
    if |stack| > 0 {
      var s := NextStep(e, rules, stack, p);
      var rest := Execute(e, rules, stack[|s.span|..], s.pos);
      ScanIsRun(e, rules, stack[|s.span|..], s.pos);
      assert ([s] + rest.steps)[1..] == rest.steps;
    }
  }

  lemma {:induction false} EmitCount(steps: seq<Step>)
    ensures |Emit(steps)| == CountRecognized(steps) + CountUnrecognized(steps)
    decreases |steps|
  {
    if |steps| > 0 {
      EmitCount(steps[1..]);
    }
  }

  /** The scan emits one token per unsuppressed match, one per recovery step, and EOF. */
  lemma TokenCount(e: Engine, rules: seq<Rule>, stack: Bytes, p: Position)
    requires Progressing(e, rules)
    ensures |Scan(e, rules, stack, p)| ==
            CountRecognized(Execute(e, rules, stack, p).steps) + CountUnrecognized(Execute(e, rules, stack, p).steps) + 1
  {
    ScanIsRun(e, rules, stack, p);
    EmitCount(Execute(e, rules, stack, p).steps);
  }

  /** No token is before line `line`. */
  predicate LinesFrom(ts: seq<Token>, line: int)
  {
    forall i :: 0 <= i < |ts| ==> ts[i].line >= line
  }

  /** Token lines never decrease along the list. */
  predicate LinesOrdered(ts: seq<Token>)
  {
    forall i, j :: 0 <= i <= j < |ts| ==> ts[i].line <= ts[j].line
  }

  /** Every token's column is at least 1. */
  predicate ColumnsPositive(ts: seq<Token>)
  {
    forall i :: 0 <= i < |ts| ==> ts[i].column >= 1
  }

  /** Tokens all on line `q.line`, followed by an ordered list that starts no earlier, stay ordered. */
  lemma ConcatPositions(head: seq<Token>, tail: seq<Token>, q: Position, line: int)
    requires forall t :: t in head ==> t.line == q.line && t.column == q.column
    requires line <= q.line
    requires LinesFrom(tail, q.line) && LinesOrdered(tail)
    ensures LinesFrom(head + tail, line) && LinesOrdered(head + tail)
    ensures q.column >= 1 && ColumnsPositive(tail) ==> ColumnsPositive(head + tail)
  {
    var ts := head + tail;
    assert forall i :: 0 <= i < |head| ==> ts[i] == head[i] && head[i] in head;
    assert forall i :: |head| <= i < |ts| ==> ts[i] == tail[i - |head|];
  }

  /** Token lines never decrease along the list, none is before the start line,
      and no column drops below 1 when the start column is at least 1. */
  lemma {:induction false} ScanPositions(e: Engine, rules: seq<Rule>, stack: Bytes, p: Position)
    requires Progressing(e, rules)
    ensures LinesFrom(Scan(e, rules, stack, p), p.line)
    ensures LinesOrdered(Scan(e, rules, stack, p))
    ensures p.column >= 1 ==> ColumnsPositive(Scan(e, rules, stack, p))
    decreases |stack|
  {
    if |stack| > 0 {
      var s := NextStep(e, rules, stack, p);
      ScanPositions(e, rules, stack[|s.span|..], s.pos);
      StepSpec(e, rules, stack, p);
      ConcatPositions(Emitted(s.outcome), Scan(e, rules, stack[|s.span|..], s.pos), s.pos, p.line);
    }
  }

  /** With anchored matches and no recovery step, the scan ends exactly where replaying every input
      byte from the start position ends: the line is one more per newline. */
  lemma {:induction false} EndWithoutRecovery(e: Engine, rules: seq<Rule>, stack: Bytes, p: Position)
    requires Progressing(e, rules) && AnchoredFinds(e, rules)
    requires CountUnrecognized(Execute(e, rules, stack, p).steps) == 0
    ensures Execute(e, rules, stack, p).end == Advance(p, stack)
    ensures Execute(e, rules, stack, p).end.line == p.line + multiset(stack)[LF]
    decreases |stack|
  {
    if |stack| > 0 {
      var s := NextStep(e, rules, stack, p);
      var rest := Execute(e, rules, stack[|s.span|..], s.pos);
      assert ([s] + rest.steps)[1..] == rest.steps;
      EndWithoutRecovery(e, rules, stack[|s.span|..], s.pos);
      StepSpec(e, rules, stack, p);
      assert stack == s.span + stack[|s.span|..];
      AdvanceAppend(p, s.span, stack[|s.span|..]);
    }
    AdvanceClosedForm(p, stack);
  }

  /** A rule that matches the empty string leaves the loop's state where it was: the same input and
      position come back on the next iteration, so `Parse` would never finish. */
  lemma EmptyMatchStalls(e: Engine, rules: seq<Rule>, stack: Bytes, p: Position)
    requires Find(e, rules, stack).Some? && Find(e, rules, stack).value.text == []
    ensures NextStep(e, rules, stack, p).span == []
    ensures NextStep(e, rules, stack, p).pos == p
  {
  }
}
