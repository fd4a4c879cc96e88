# A Dafny model of the AlkBur/lexer scanning core

The Go package `lexer` turns a byte buffer into a list of tokens. It does this with an ordered
list of regular-expression rules. `Rules.Init` compiles every rule's pattern and every
normalisation ("replace") pattern, and stops at the first compile error. `New` builds a
`Lexer` over the rules once they compile. `Parse` walks the buffer:

- `Rules.Find` asks each rule in declaration order for a match. The first rule that matches wins.
- On a match, the loop replays the matched bytes into the line/column counters. A newline moves
  to the next line at column 1; any other byte moves one column on.
- Unless the rule is a `delete` rule, the loop appends a token with the rule's name, the
  normalised match (`Rule.Replace`) and the counters reached after the match.
- When no rule matches, a recovery loop steps over whitespace and NUL bytes. It keeps the first
  other byte and appends an `Unknown` token holding that byte.
- At the end of the buffer, an `EOF` token with an empty value closes the list.

`NextToken` hands the tokens out one by one and then returns nil.

The model is pure. The lexer is an immutable datatype, and `Parse` and `NextToken` return the
new lexer state. The Go loop of `Parse` is also written as a method, `Lexer.ParseTokens`, with
loop invariants. It is proved to build exactly the token list of the functional scan
`Scanner.Scan`.

Modules:

| module | file | contents |
|---|---|---|
| `Wrappers` | wrappers.dfy | `Option`, `Result` |
| `Bytes` | bytes.dfy | `byte`, special bytes, Go's `string(b)` |
| `Regexp` | regexp.dfy | the abstract regular-expression engine |
| `Tokens` | token.dfy | `Token`, `NewToken`, `NewUnknownToken`, `TokenType` |
| `Positions` | positions.dfy | line/column replay of a matched span |
| `Rules` | rules.dfy | `Rule`, `Replace`, `Init`, `Rule.Replace`, `Find` |
| `Scanner` | scanner.dfy | one loop iteration, recovery, the whole scan and its properties |
| `Lexer` | lexer.dfy | `New`, `Parse`, `ParseString`, `NextToken`, the imperative loop |
| `Scenarios` | scenarios.dfy | worked scans with a small hand-built rule set |

The regular-expression package is a parameter, `Regexp.Engine`, with three functions:

- `compile` returns the error message, or `None` on success.
- `find` is `Regexp.Find`.
- `replaceAll` is `Regexp.ReplaceAllString`.

A compiled expression is identified with its pattern. Go strings built from the buffer are
byte sequences. Rule names, patterns and replacement templates are Dafny strings.

Where the Go code is easy to misread, the model follows the code:

- The value of an `Unknown` token is Go's `string(result)` for a byte `result`. That is the
  UTF-8 encoding of the code point `result`, not the raw byte. Bytes from 0x80 up give two
  bytes; `Bytes.RuneString` and its inverse `Bytes.DecodeRune` model this.
- The recovery loop also steps over NUL bytes. Its "nothing kept yet" marker is the byte value
  0, so a NUL never stops it.
- When recovery reaches the end of the input without keeping a byte, the token value is
  `string(byte(0))`. That is the single byte 0x00, not an empty value.
- In the recovery loop, tab, carriage return and space each add one to the line and leave the
  column alone. A newline adds a line and resets the column to 1. The kept byte moves neither
  counter. `Scenarios.RecoveryCountsBlankAsLine` shows the effect.
- `Find` returns the leftmost match anywhere in the unread input, not only at the cursor. The
  loop then skips as many bytes as the match is long, starting at the cursor. The model keeps
  this. The coverage and end-position lemmas assume that every match `Find` returns starts at
  the cursor (`Rules.AnchoredFinds`).
- When the match `Find` returns on non-empty unread input is empty, the loop does not advance
  and `Parse` never returns. This happens only when the first rule that matches there matches
  the empty string. `Scanner.EmptyMatchStalls` shows the stall. Everything about the scan
  therefore assumes `Rules.Progressing`: on every non-empty input, the match `Find` returns is
  non-empty. A rule that an earlier rule always beats, or one that matches the empty string
  only in the empty input, does not break this. `Rules.ConsumingRulesProgress` shows that it
  holds whenever every rule's matches in non-empty text are non-empty.

## Model

| member | source | states |
|---|---|---|
| Tokens.NewToken | token.go:17-24 | the token carries exactly the rule tag, value, line and column it was given |
| Tokens.NewUnknownToken | token.go:26-28 | the placeholder token is an `Unknown` token with an empty value at line -1, column -1 |
| Bytes.RuneString | lexer.go:75-79 | Go's `string(b)` is one byte below 0x80 and two from 0x80 up, and UTF-8 decoding gives `b` back |
| Bytes.DecodeRuneInverse | lexer.go:75-79 | every one- or two-byte encoding that decodes to `b` is the one `string(b)` produces, so encoding and decoding are inverse |
| Rules.FirstCompileError | rules.go:23-37 | reference definition: nothing is reported exactly when every pattern compiles, and otherwise the error of the first pattern that fails |
| Rules.InitReplacesIsFirstError | rules.go:30-35 | the inner loop over a rule's replaces reports the first failing replace pattern, in declaration order |
| Rules.InitIsFirstError | rules.go:23-37 | `Init` reports the error of the first failing pattern in its compile order: each rule's own pattern, then its replaces, rule by rule |
| Rules.InitSucceedsIff | rules.go:23-37 | `Init` returns nil if and only if every pattern of every rule and replace compiles |
| Rules.Init | rules.go:23-37 | `Rules.Init` as written, rule by rule; its meaning is stated by `Rules.InitIsFirstError` and `Rules.InitSucceedsIff` |
| Rules.InitReplaces | rules.go:30-35 | the inner loop of `Init` over a rule's replaces; its meaning is stated by `Rules.InitReplacesIsFirstError` |
| Rules.Normalize | rules.go:40-46 | a rule without replaces keeps the matched text unchanged as the token value |
| Rules.ApplyReplacesSnoc | rules.go:40-46 | the replaces run in declaration order: the last one rewrites the result of all the earlier ones |
| Rules.ApplyReplacesAppend | rules.go:40-46 | splitting a rule's replaces anywhere splits the rewriting into two consecutive passes |
| Rules.ApplyReplaces | rules.go:41-45 | the loop of `Rule.Replace`, a left fold of `ReplaceAllString` over the replaces; its meaning is stated by `Rules.ApplyReplacesSnoc` and `Rules.ApplyReplacesAppend` |
| Rules.Find | rules.go:48-56 | a returned rule is one of the rule set's rules |
| Rules.FindFrom | rules.go:49-55 | the loop of `Find` from rule `i` on; a returned index is at least `i` and inside the rule set, and `Rules.FindFromSpec` states the rest |
| Rules.FindFromSpec | rules.go:48-56 | the search from a given rule on finds nothing exactly when no later rule matches, and otherwise finds the first matching rule with its own match |
| Rules.FindSpec | rules.go:48-56 | `Find` returns nil if and only if no rule matches; otherwise the returned rule matches with the returned text and no rule declared before it matches |
| Rules.ConsumingRulesProgress | rules.go:48-56 | when every rule's matches in non-empty text are non-empty, so is every match `Find` returns, and the scan loop advances |
| Rules.AnchoredRulesAnchor | rules.go:48-56 | when every rule's matches start at the beginning of the text, so does every match `Find` returns |
| Positions.AdvanceAppend | lexer.go:38-46 | replaying two spans one after the other is replaying their concatenation |
| Positions.AdvanceClosedForm | lexer.go:38-46 | after a span the line has grown by its number of newlines; the column counts the bytes after the last newline, or grows by the span's length when there is none |
| Positions.AdvanceForward | lexer.go:38-46 | replaying a span never moves to an earlier line, and keeps a positive column positive |
| Positions.AdvanceByte | lexer.go:39-45 | one byte of a match: a newline gives the next line at column 1, any other byte the next column; `Positions.AdvanceClosedForm` states the effect of many |
| Positions.Advance | lexer.go:38-46 | the replay of a match, byte by byte; its meaning is stated by `Positions.AdvanceAppend`, `Positions.AdvanceClosedForm` and `Positions.AdvanceForward` |
| Scanner.Recover | lexer.go:58-73 | recovery consumes at least one byte of non-empty input and never more than the input |
| Scanner.RecoverByte | lexer.go:61-67 | one byte of recovery: a newline gives the next line at column 1, tab, carriage return and space the next line at the same column, any other byte no move; `Scanner.RecoverLines` and `Scanner.RecoverColumn` state the effect of many |
| Scanner.RecoverStops | lexer.go:58-73 | every consumed byte but the last is whitespace or NUL; recovery stops early only on a byte that is neither, and keeps that byte, or NUL when it runs off the end |
| Scanner.RecoverLines | lexer.go:61-67 | the line recovery reaches is the start line plus the number of whitespace bytes consumed |
| Scanner.RecoverColumn | lexer.go:61-67 | the column recovery reaches is 1 once a newline was consumed, and the starting column otherwise |
| Scanner.RecoverSpec | lexer.go:58-73 | recovery consumes whitespace and NUL bytes and stops right after the first other byte, which it keeps (NUL when it runs off the end); the line grows by the whitespace consumed; the column is 1 after a newline and untouched otherwise |
| Scanner.NextStep | lexer.go:34-81 | with non-empty matches, every iteration on non-empty input consumes at least one byte and at most the unread input |
| Scanner.StepSpec | lexer.go:35-81 | an iteration emits `Unknown` exactly when no rule matches and nothing exactly for a matching `delete` rule; a match is replayed and its token has the rule's name and the normalised match; an unknown token holds the UTF-8 encoding of the kept byte; the token sits at the iteration's final position, which is never on an earlier line |
| Scanner.ScanEndsWithEof | lexer.go:83-87 | every token list is non-empty and ends with an `EOF` token with an empty value at the scan's final position |
| Scanner.EofToken | lexer.go:83-87 | the closing token: tag `EOF`, empty value, at the given position; `Scanner.ScanEndsWithEof` states that every scan ends with it |
| Scanner.Scan | lexer.go:33-87 | the whole loop of `Parse`, functionally: each iteration's tokens, then `EOF`; its meaning is stated by `Scanner.ScanIsRun`, `Scanner.ScanEndsWithEof`, `Scanner.ScanPositions`, `Scanner.TokenCount`, and `Lexer.ParseTokens` proves the loop as written equal to it |
| Scanner.Execute | lexer.go:33-82 | the iterations consume the whole input, each at least one byte; when every match `Find` returns is anchored, their spans concatenate to the input, so no byte is skipped |
| Scanner.ScanIsRun | lexer.go:33-87 | the token list is the iterations' tokens in order, followed by `EOF` |
| Scanner.TokenCount | lexer.go:48-87 | the list holds one token per non-deleted match, one per recovery step, and the `EOF` token |
| Scanner.ScanPositions | lexer.go:31-87 | token lines never decrease along the list or drop below the start line, and no column drops below 1 |
| Scanner.EndWithoutRecovery | lexer.go:34-56 | with anchored matches and no recovery step, the scan ends where replaying the whole input ends: the final line is the start line plus the number of newlines |
| Scanner.EmptyMatchStalls | lexer.go:36-56 | an empty match consumes nothing and leaves the position unchanged, so the loop repeats the same iteration |
| Lexer.New | lexer.go:10-20 | construction succeeds if and only if every pattern compiles, reports `Init`'s error otherwise, and starts with no tokens and the cursor at 0 |
| Lexer.Parse | lexer.go:26-88 | parsing keeps the rules, stores the buffer, rewinds the cursor and holds the scan from line 1, column 1, which ends with `EOF` |
| Lexer.ParseString | lexer.go:22-24 | parsing a string parses its bytes |
| Lexer.ParseForgetsHistory | lexer.go:26-29 | the result of parsing depends only on the rules and the buffer, so parsing the same buffer twice gives the same lexer |
| Lexer.NextToken | lexer.go:90-97 | returns the token under the cursor and moves past it, or nil without moving once the tokens are used up; nothing else changes |
| Lexer.PullsInOrder | lexer.go:90-97 | consecutive calls hand out the tokens in order from the cursor, then nil for ever |
| Lexer.ParseThenPull | lexer.go:26-29 | after parsing, consecutive `NextToken` calls return exactly the scanned tokens, `EOF` last, and then nil |
| Lexer.ReplayMatch | lexer.go:38-46 | the byte loop over a match leaves the counters at the replay of the whole match |
| Lexer.RecoverLoop | lexer.go:58-73 | the byte loop of recovery, with its `break`, consumes, keeps and counts exactly as the recursive recovery does |
| Lexer.Iterate | lexer.go:35-81 | one iteration of the loop as written appends exactly the tokens of the functional step, consumes exactly its span (at least one byte) and leaves the counters at its final position |
| Lexer.LoopBody | lexer.go:35-81 | one pass of the loop body moves the cursor forward inside the buffer and keeps the loop invariant: the tokens so far, then the scan of the unread input, are the scan of the whole buffer |
| Lexer.ParseTokens | lexer.go:26-88 | the loop of `Parse` as written, with its closing `EOF`, builds exactly the functional scan's token list |
| Scenarios.NewlineLetterThen | lexer.go:38-55 | a suppressed newline then a letter gives an Identifier at column 2 of the next line, then the scan of the rest from there |
| Scenarios.UnknownBetweenIdentifiers | lexer_test.go:431-456 | a newline then `A$B` gives `A`, an `Unknown` token for `$`, then `B`, and `EOF`, with the lines and columns the counters reach |
| Scenarios.RecoveryCountsBlankAsLine | lexer.go:65-66 | recovery over a tab and a carriage return adds two lines and keeps the column |
| Scenarios.UnknownHighByte | lexer.go:75-79 | an unmatched byte 0xD0 becomes an `Unknown` token with the two bytes 0xC3 0x90 |
| Scenarios.UnknownAtEnd | lexer.go:58-79 | a tab then a NUL byte, which no rule matches, give one `Unknown` token holding the byte 0x00 one line down, because recovery runs off the end without keeping a byte |
| Scenarios.ShadowedEmptyRuleProgresses | rules.go:48-56 | a rule that only matches the empty string, placed after a catch-all rule, never wins on non-empty input, so the scan still advances even though that rule alone would not |
| Scenarios.EmptyInput | lexer.go:83-87 | empty input gives the `EOF` token alone, at the start position |

## Left out

- `LoadRules` (utils.go) reads the rules from a JSON file. This is file I/O, so the model takes the rules as a value.
- Go's `regexp` package is not modelled. It is the `Regexp.Engine` parameter, so nothing is proved about the regular-expression syntax or its matching semantics.
- Rules.Init: Go's rules and replaces are pointers (`Rules []*Rule`, `Replaces []*Replace`). A nil entry, such as a JSON `null` in the rule file, makes `Init` dereference nil and panic, and so `New` panics instead of returning an error. The model's rules and replaces are values and cannot be nil, so `Rules.Init`, `Rules.InitSucceedsIff` and `Lexer.New` are total where Go is not.
- `Init` writes the compiled expressions into the rules in place. The model identifies a compiled expression with its pattern. So `Init` is modelled only by the error it returns; the half-compiled rule set left after an error is not modelled.
- Reusing the token slice across parses (`l.tokens[:0]`, capacity 128) and the pointer identity of `*Token` cannot be observed in the model, which uses values.
- Line and column are unbounded integers. Go's `int` would wrap after 2^31 or 2^63 lines or columns, depending on the platform's word size, which no real buffer reaches.
- Concurrent use of one lexer is not modelled; the model is pure.
- Scanner.Scan: requires that on every non-empty input the match `Find` returns is non-empty (`Rules.Progressing`). When that match is empty the Go loop never ends, which `Scanner.EmptyMatchStalls` shows. The condition ranges over all inputs, not only the suffixes one particular buffer reaches, so a rule set that stalls only on inputs a given buffer never produces is still excluded.
- Lexer.Parse: has the same precondition as `Scanner.Scan`, for the same reason.
- Lexer.ParseString: has the same precondition as `Scanner.Scan`, for the same reason.
- Scanner.Execute: states coverage (the spans concatenate to the input) only when every match `Find` returns is anchored. With unanchored matches, the bytes before a match are skipped unaccounted, exactly as the Go loop does.
- Lexer.ParseString: also takes the string as its bytes. A Go string is a byte sequence, so nothing is lost.
- `TokenType`, `TokenUnknown` and `TokenEOF` are declared (token.go:3-8) but nothing in the lexer uses them. The model declares them and states nothing about them.
- Behaviour that depends on the real rule file (for example which literal forms exist) is outside the lexer core. The scenarios use a small hand-built rule set.
