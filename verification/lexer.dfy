/** The `Lexer`: construction, parsing a buffer, and the pull cursor over the tokens. */
module Lexer {
  import opened Wrappers
  import opened Bytes
  import opened Regexp
  import opened Tokens
  import opened Positions
  import opened Rules
  import opened Scanner

  /** The lexer's state: its rules, the last buffer parsed, that buffer's tokens and the cursor. */
  datatype Lexer = Lexer(rules: seq<Rule>, buf: Bytes, tokens: seq<Token>, nextToken: nat)

  /** `New`: a lexer with no tokens when every pattern compiles, else the first compile error. */
  function New(e: Engine, rules: seq<Rule>): (r: Result<Lexer, string>)
    ensures r.Success? <==> Ready(e, rules)
    ensures r.Failure? ==> Init(e, rules) == Some(r.error)
    ensures r.Success? ==> r.value.rules == rules && r.value.tokens == [] && r.value.nextToken == 0
  {
    InitSucceedsIff(e, rules);
    match Init(e, rules)
    case Some(err) => Failure(err)
    case None => Success(Lexer(rules, [], [], 0))
  }

  /** `Parse`: forgets earlier tokens, rewinds the cursor and scans the whole buffer from line 1, column 1. */
  function Parse(e: Engine, l: Lexer, buf: Bytes): (r: Lexer)
    requires Progressing(e, l.rules)
    ensures r.rules == l.rules && r.buf == buf && r.nextToken == 0
    ensures r.tokens == Scan(e, l.rules, buf, Start)
    ensures |r.tokens| >= 1 && r.tokens[|r.tokens| - 1].rule == "EOF" && r.tokens[|r.tokens| - 1].value == []
  {
    ScanEndsWithEof(e, l.rules, buf, Start);
    Lexer(l.rules, buf, Scan(e, l.rules, buf, Start), 0)
  }

  /** `ParseString`: a Go string already is a sequence of bytes, so this is `Parse` on those bytes. */
  function ParseString(e: Engine, l: Lexer, str: Bytes): (r: Lexer)
    requires Progressing(e, l.rules)
    ensures r.rules == l.rules && r.buf == str && r.nextToken == 0
    ensures r.tokens == Scan(e, l.rules, str, Start)
  {
    Parse(e, l, str)
  }

  /** Parsing only depends on the rules and the buffer: not on earlier parses or the cursor. */
  lemma ParseForgetsHistory(e: Engine, l1: Lexer, l2: Lexer, buf: Bytes)
    requires Progressing(e, l1.rules) && l1.rules == l2.rules
    ensures Parse(e, l1, buf) == Parse(e, l2, buf)
    ensures Parse(e, Parse(e, l1, buf), buf) == Parse(e, l1, buf)
  {
  }

  /** What `NextToken` returns (`None` is nil) and the lexer it leaves. */
  datatype Pulled = Pulled(token: Option<Token>, lexer: Lexer)

  /** `NextToken`: the token under the cursor, moving past it, or nil once the tokens are used up. */
  function NextToken(l: Lexer): (r: Pulled)
    ensures r.token.Some? <==> l.nextToken < |l.tokens|
    ensures r.token.Some? ==> r.token.value == l.tokens[l.nextToken]
    ensures r.lexer.rules == l.rules && r.lexer.buf == l.buf && r.lexer.tokens == l.tokens
    ensures r.lexer.nextToken == if l.nextToken < |l.tokens| then l.nextToken + 1 else l.nextToken
  {
    if l.nextToken >= |l.tokens| then Pulled(None, l)
    else Pulled(Some(l.tokens[l.nextToken]), l.(nextToken := l.nextToken + 1))
  }

  /** The results of `n` consecutive `NextToken` calls. */
  function Pulls(l: Lexer, n: nat): (ps: seq<Option<Token>>)
    decreases n
    ensures |ps| == n
  {
    if n == 0 then [] else [NextToken(l).token] + Pulls(NextToken(l).lexer, n - 1)
  }

  /** Consecutive `NextToken` calls hand out the tokens in order from the cursor, then nil for ever. */
  lemma {:induction false} PullsInOrder(l: Lexer, n: nat)
    ensures forall k :: 0 <= k < n ==>
              Pulls(l, n)[k] == if l.nextToken + k < |l.tokens| then Some(l.tokens[l.nextToken + k]) else None
    decreases n
  {
    if n > 0 {
      var next := NextToken(l).lexer;
      PullsInOrder(next, n - 1);
      var ps := Pulls(l, n);
      assert forall k :: 1 <= k < n ==> ps[k] == Pulls(next, n - 1)[k - 1];
    }
  }

  /** After `Parse`, pulling hands out exactly the scanned tokens, EOF last, and then nil. */
  lemma ParseThenPull(e: Engine, l: Lexer, buf: Bytes, n: nat)
    requires Progressing(e, l.rules)
    ensures forall k :: 0 <= k < n ==>
              Pulls(Parse(e, l, buf), n)[k] ==
                if k < |Scan(e, l.rules, buf, Start)| then Some(Scan(e, l.rules, buf, Start)[k]) else None
  {
    PullsInOrder(Parse(e, l, buf), n);
  }

  /** The byte-replay loop of `Parse` on a matched span, from line `line0`, column `column0`. */
  method ReplayMatch(result: Bytes, line0: int, column0: int) returns (line: int, column: int)
    ensures Position(line, column) == Advance(Position(line0, column0), result)
  {
    line, column := line0, column0;
    var k := 0;
    while k < |result|
      invariant 0 <= k <= |result|
      invariant Position(line, column) == Advance(Position(line0, column0), result[..k])
    {
      if result[k] == LF {
        line := line + 1;
        column := 1;
      } else {
        column := column + 1;
      }
      AdvanceAppend(Position(line0, column0), result[..k], [result[k]]);
      assert result[..k + 1] == result[..k] + [result[k]];
      k := k + 1;
    }
    assert result[..k] == result;
  }

  /** The recovery loop of `Parse` on the unread input `stack`, from line `line0`, column `column0`:
      how many bytes it consumed, the byte it kept and where it left the counters. */
  method RecoverLoop(stack: Bytes, line0: int, column0: int) returns (consumed: nat, result: byte, line: int, column: int)
    ensures Recover(stack, Position(line0, column0)) == Recovery(consumed, result, Position(line, column))
  {
    line, column := line0, column0;
    result := 0;
    consumed := 0;
    while consumed < |stack|
      invariant 0 <= consumed <= |stack|
      invariant result == 0
      invariant Recover(stack, Position(line0, column0)) ==
                var rest := Recover(stack[consumed..], Position(line, column)); rest.(consumed := rest.consumed + consumed)
    {
      var b := stack[consumed];
      assert stack[consumed..][1..] == stack[consumed + 1..];
      consumed := consumed + 1;
      if b == LF {
        line := line + 1;
        column := 1;
      } else if b == TAB || b == CR || b == SP {
        line := line + 1;
      } else {
        result := b;
      }
      if result != 0 {
        break;
      }
    }
  }

  /** Regrouping for the loop invariant of `Parse`: the tokens so far, then one iteration's tokens,
      then the scan of the rest. Kept as its own lemma so that the loop's proof stays small. */
  lemma PrefixStep<T>(done: seq<T>, emitted: seq<T>, later: seq<T>, whole: seq<T>)
    requires done + (emitted + later) == whole
    ensures (done + emitted) + later == whole
  {
  }

  /** One iteration of the loop of `Parse` at offset `iStart` of `buf`: the tokens it appends, the
      bytes it consumes and the counters it leaves, exactly as the functional step does them. */
  method Iterate(e: Engine, rules: seq<Rule>, buf: Bytes, iStart: nat, line0: int, column0: int)
    returns (emitted: seq<Token>, consumed: nat, line: int, column: int)
    requires Progressing(e, rules) && iStart < |buf|
    ensures var step := NextStep(e, rules, buf[iStart..], Position(line0, column0));
            && emitted == Emitted(step.outcome)
            && consumed == |step.span|
            && Position(line, column) == step.pos
    ensures 0 < consumed && iStart + consumed <= |buf|
    ensures Scan(e, rules, buf[iStart..], Position(line0, column0)) ==
            emitted + Scan(e, rules, buf[iStart + consumed..], Position(line, column))
  {
    var stack := buf[iStart..];
    var found := Find(e, rules, stack);
    if found.Some? {
      var r := rules[found.value.index];
      var result := found.value.text;
      line, column := ReplayMatch(result, line0, column0);
      emitted := if r.deleteToken then [] else [NewToken(r.name, Normalize(e, r, result), line, column)];
      consumed := |result|;
    } else {
      var result;
      consumed, result, line, column := RecoverLoop(stack, line0, column0);
      emitted := [NewToken("Unknown", RuneString(result), line, column)];
    }
    LoopStep(e, rules, buf, iStart, Position(line0, column0), emitted, consumed, Position(line, column));
  }

  /** The body of the loop of `Parse`: one iteration appended to the tokens so far. The tokens so
      far followed by the scan of the unread input stay the scan of the whole buffer. */
  method LoopBody(e: Engine, rules: seq<Rule>, buf: Bytes, tokens: seq<Token>, iStart: nat, line: int, column: int)
    returns (tokens': seq<Token>, iStart': nat, line': int, column': int)
    requires Progressing(e, rules) && iStart < |buf|
    requires tokens + Scan(e, rules, buf[iStart..], Position(line, column)) == Scan(e, rules, buf, Start)
    ensures iStart < iStart' <= |buf|
    ensures tokens' + Scan(e, rules, buf[iStart'..], Position(line', column')) == Scan(e, rules, buf, Start)
  {
    var emitted, consumed;
    emitted, consumed, line', column' := Iterate(e, rules, buf, iStart, line, column);
    PrefixStep(tokens, emitted, Scan(e, rules, buf[iStart + consumed..], Position(line', column')), Scan(e, rules, buf, Start));
    tokens', iStart' := tokens + emitted, iStart + consumed;
    assert buf[iStart'..] == buf[iStart + consumed..];
  }

  /** The loop of `Lexer.Parse` as written; it builds exactly the token list of the functional scan. */
  method ParseTokens(e: Engine, rules: seq<Rule>, buf: Bytes) returns (tokens: seq<Token>)
    requires Progressing(e, rules)
    ensures tokens == Scan(e, rules, buf, Start)
  {
    tokens := [];
    var line, column := 1, 1;
    var iStart := 0;
    assert buf[iStart..] == buf;
    while iStart < |buf|
      invariant 0 <= iStart <= |buf|
      invariant tokens + Scan(e, rules, buf[iStart..], Position(line, column)) == Scan(e, rules, buf, Start)
      decreases |buf| - iStart
    {
      tokens, iStart, line, column := LoopBody(e, rules, buf, tokens, iStart, line, column);
    }
    assert buf[iStart..] == [];
    tokens := tokens + [NewToken("EOF", [], line, column)];
  }
}
