/** Worked scans with a small hand-built rule set: a suppressed whitespace rule for space and
    newline, and a one-letter Identifier rule for `A`..`Z`. */
module Scenarios {
  import opened Wrappers
  import opened Bytes
  import opened Regexp
  import opened Tokens
  import opened Positions
  import opened Rules
  import opened Scanner

  /** The matcher of the toy engine: pattern "ws" takes one space or newline,
      pattern "letter" takes one upper-case ASCII letter. */
  function ToyFind(pattern: string, s: Bytes): Option<Bytes>
  {
    if |s| == 0 then None
    else if pattern == "ws" && (s[0] == SP || s[0] == LF) then Some(s[..1])
    else if pattern == "letter" && 0x41 <= s[0] <= 0x5A then Some(s[..1])
    else None
  }

  function Toy(): Engine
  {
    Engine(p => None, ToyFind, (p, s, r) => s)
  }

  function ToyRules(): seq<Rule>
  {
    [Rule("Space", "ws", true, []), Rule("Identifier", "letter", false, [])]
  }

  /** The toy rules take non-empty, anchored matches. */
  lemma ToyRulesProgress()
    ensures Progressing(Toy(), ToyRules()) && AnchoredFinds(Toy(), ToyRules())
  {
    ConsumingRulesProgress(Toy(), ToyRules());
    AnchoredRulesAnchor(Toy(), ToyRules());
  }

  /** The token list the toy rules give for `input` from position `p`. */
  function ToyScan(input: Bytes, p: Position): seq<Token>
  {
    ToyRulesProgress();
    Scan(Toy(), ToyRules(), input, p)
  }

  /** What `Find` does with the toy rules: a space or newline is taken by "Space", an upper-case
      letter by "Identifier", anything else by nothing. */
  lemma ToyFindResult(s: Bytes)
    ensures Find(Toy(), ToyRules(), s) ==
            if |s| == 0 then None
            else if s[0] == SP || s[0] == LF then Some(Found(0, s[..1]))
            else if 0x41 <= s[0] <= 0x5A then Some(Found(1, s[..1]))
            else None
  {
    var e, rules := Toy(), ToyRules();
    assert e.find(rules[0].pattern, s) == ToyFind("ws", s);
    assert e.find(rules[1].pattern, s) == ToyFind("letter", s);
  }

  /** One step of the toy scan, given what that step is. */
  lemma ToyUnfold(input: Bytes, p: Position, s: Step)
    requires |input| > 0 && NextStep(Toy(), ToyRules(), input, p) == s
    ensures 0 < |s.span| <= |input|
    ensures ToyScan(input, p) == Emitted(s.outcome) + ToyScan(input[|s.span|..], s.pos)
  {
    ToyRulesProgress();
    ScanUnfold(Toy(), ToyRules(), input, p);
  }

  /** A letter, then the rest of the input. */
  lemma LetterThen(b: byte, rest: Bytes, p: Position)
    requires Letter(b)
    ensures ToyScan([b] + rest, p) ==
            [Token("Identifier", [b], p.line, p.column + 1)] + ToyScan(rest, Position(p.line, p.column + 1))
  {
    var e, rules := Toy(), ToyRules();
    var input: Bytes := [b] + rest;
    var q := Position(p.line, p.column + 1);
    ToyFindResult(input);
    assert input[..1] == [b] && input[1..] == rest;
    assert Find(e, rules, input) == Some(Found(1, [b]));
    assert Advance(p, [b]) == q;
    assert Normalize(e, rules[1], [b]) == [b];
    ToyUnfold(input, p, Step(Recognized(Token("Identifier", [b], q.line, q.column)), [b], q));
  }

  /** A newline, then the rest of the input: the suppressed "Space" rule takes it. */
  lemma NewlineThen(rest: Bytes, p: Position)
    ensures ToyScan([LF] + rest, p) == ToyScan(rest, Position(p.line + 1, 1))
  {
    var e, rules := Toy(), ToyRules();
    var input: Bytes := [LF] + rest;
    ToyFindResult(input);
    assert input[..1] == [LF] && input[1..] == rest;
    assert Find(e, rules, input) == Some(Found(0, [LF]));
    assert Advance(p, [LF]) == Position(p.line + 1, 1);
    ToyUnfold(input, p, Step(Suppressed, [LF], Position(p.line + 1, 1)));
  }

  /** A byte no rule matches and recovery does not skip, then the rest of the input. */
  lemma UnknownThen(b: byte, rest: Bytes, p: Position)
    requires Stray(b)
    ensures ToyScan([b] + rest, p) == [Token("Unknown", [b], p.line, p.column)] + ToyScan(rest, p)
  {
    var e, rules := Toy(), ToyRules();
    var input: Bytes := [b] + rest;
    ToyFindResult(input);
    assert input[..1] == [b] && input[1..] == rest;
    assert Find(e, rules, input) == None;
    assert Recover(input, p) == Recovery(1, b, p);
    ToyUnfold(input, p, Step(Unrecognized(Token("Unknown", [b], p.line, p.column)), [b], p));
  }

  /** The scan of no input at all. */
  lemma EmptyInput(p: Position)
    ensures ToyScan([], p) == [Token("EOF", [], p.line, p.column)]
  {
  }

  /** An upper-case ASCII letter: what the toy "Identifier" rule takes. */
  predicate Letter(b: byte)
  {
    0x41 <= b <= 0x5A
  }

  /** A byte that recovery keeps and that no toy rule matches, and that encodes as itself. */
  predicate Stray(b: byte)
  {
    !Skipped(b) && b < 0x80 && !Letter(b)
  }

  /** The scan of the stray byte `d` then the letter `b`, at the end of the input. */
  lemma TailStrayLetter(l: int, d: byte, b: byte, input: Bytes)
    requires Stray(d) && Letter(b) && input == [d, b]
    ensures ToyScan(input, Position(l, 2)) ==
            [Token("Unknown", [d], l, 2), Token("Identifier", [b], l, 3), Token("EOF", [], l, 3)]
  {
    assert input == [d] + ([b] + []);
    EmptyInput(Position(l, 3));
    LetterThen(b, [], Position(l, 2));
    UnknownThen(d, [b] + [], Position(l, 2));
  }

  /** A newline, then a letter: the letter is an Identifier at column 2 of the next line. */
  lemma NewlineLetterThen(line: int, a: byte, rest: Bytes)
    requires Letter(a)
    ensures ToyScan([LF] + ([a] + rest), Position(line, 1)) ==
            [Token("Identifier", [a], line + 1, 2)] + ToyScan(rest, Position(line + 1, 2))
  {
    LetterThen(a, rest, Position(line + 1, 1));
    NewlineThen([a] + rest, Position(line, 1));
  }

  /** A byte no rule matches becomes one Unknown token between its neighbours, at the column the
      previous token reached (recovery does not move the column), and the suppressed newline rule
      still moves the line: for instance a newline then `A$B`. */
  lemma UnknownBetweenIdentifiers(line: int, a: byte, d: byte, b: byte, input: Bytes)
    requires Letter(a) && Stray(d) && Letter(b) && input == [LF, a, d, b]
    ensures ToyScan(input, Position(line, 1)) ==
            [Token("Identifier", [a], line + 1, 2), Token("Unknown", [d], line + 1, 2),
             Token("Identifier", [b], line + 1, 3), Token("EOF", [], line + 1, 3)]
  {
    var rest: Bytes := [d, b];
    assert input == [LF] + ([a] + rest);
    NewlineLetterThen(line, a, rest);
    TailStrayLetter(line + 1, d, b, rest);
  }

  /** Input no rule matches at all goes through one recovery step. */
  lemma RecoverThen(input: Bytes, p: Position)
    requires |input| > 0 && Find(Toy(), ToyRules(), input).None?
    ensures var rc := Recover(input, p);
            ToyScan(input, p) ==
            [Token("Unknown", RuneString(rc.value), rc.pos.line, rc.pos.column)] + ToyScan(input[rc.consumed..], rc.pos)
  {
    var rc := Recover(input, p);
    ToyUnfold(input, p, Step(Unrecognized(Token("Unknown", RuneString(rc.value), rc.pos.line, rc.pos.column)),
                             input[..rc.consumed], rc.pos));
  }

  /** Recovery steps over a tab and a carriage return, counting each as a new line and leaving the
      column alone, then keeps `$`. */
  lemma RecoveryCountsBlankAsLine(line: int, column: int, input: Bytes)
    requires input == [TAB, CR, 0x24]
    ensures ToyScan(input, Position(line, column)) ==
            [Token("Unknown", [0x24], line + 2, column), Token("EOF", [], line + 2, column)]
  {
    var p := Position(line, column);
    ToyFindResult(input);
    assert input[1..][1..] == [0x24];
    assert Recover(input[1..][1..], Position(line + 2, column)) == Recovery(1, 0x24, Position(line + 2, column));
    assert Recover(input[1..], Position(line + 1, column)) == Recovery(2, 0x24, Position(line + 2, column));
    assert Recover(input, p) == Recovery(3, 0x24, Position(line + 2, column));
    RecoverThen(input, p);
    EmptyInput(Position(line + 2, column));
  }

  /** A byte above 0x7F that no rule matches becomes an Unknown token holding that byte's code point
      in UTF-8: 0xD0 gives the two bytes 0xC3 0x90. */
  lemma UnknownHighByte(line: int, column: int, input: Bytes)
    requires input == [0xD0]
    ensures ToyScan(input, Position(line, column)) ==
            [Token("Unknown", [0xC3, 0x90], line, column), Token("EOF", [], line, column)]
  {
    var p := Position(line, column);
    ToyFindResult(input);
    assert Recover(input, p) == Recovery(1, 0xD0, p);
    RecoverThen(input, p);
    EmptyInput(p);
  }

  /** A tab then a NUL byte, which no toy rule matches: recovery runs off the end without keeping
      a byte, and the Unknown token holds 0x00. */
  lemma UnknownAtEnd(line: int, column: int, input: Bytes)
    requires input == [TAB, NUL]
    ensures ToyScan(input, Position(line, column)) ==
            [Token("Unknown", [NUL], line + 1, column), Token("EOF", [], line + 1, column)]
  {
    var p := Position(line, column);
    ToyFindResult(input);
    assert input[1..][1..] == [];
    assert Recover(input[1..], Position(line + 1, column)) == Recovery(1, NUL, Position(line + 1, column));
    assert Recover(input, p) == Recovery(2, NUL, Position(line + 1, column));
    RecoverThen(input, p);
    EmptyInput(Position(line + 1, column));
  }

  /** A matcher where pattern "any" takes the first byte (and the empty string of the empty text)
      and every other pattern matches the empty string. */
  function ShadowFind(pattern: string, s: Bytes): Option<Bytes>
  {
    if pattern == "any" then Some(s[..if |s| == 0 then 0 else 1]) else Some([])
  }

  /** A rule set whose second rule only ever matches the empty string, behind a catch-all: the
      scan still advances on every non-empty input, though that rule never consumes. */
  lemma ShadowedEmptyRuleProgresses(e: Engine, rules: seq<Rule>)
    requires e == Engine(p => None, ShadowFind, (p, s, r) => s)
    requires rules == [Rule("Any", "any", false, []), Rule("Empty", "empty", false, [])]
    ensures Progressing(e, rules)
    ensures !Consumes(e, rules[1].pattern)
  {
    forall s: Bytes
      ensures ProgressesOn(e, rules, s)
    {
      assert e.find(rules[0].pattern, s) == ShadowFind("any", s);
    }
    var one: Bytes := [0x41];
    assert e.find(rules[1].pattern, one) == ShadowFind("empty", one);
  }
}
