/** Tokens: the lexer's output records. */
module Tokens {
  import opened Bytes

  /** Go's `TokenType`, an `int` enumeration declared with `iota`. */
  newtype TokenType = int

  const TokenUnknown: TokenType := 0
  const TokenEOF: TokenType := 1

  /** A rule tag, the normalised value, and the line and column reached when it was emitted. */
  datatype Token = Token(rule: string, value: Bytes, line: int, column: int)

  /** Builds a token from its four fields. */
  function NewToken(rule: string, value: Bytes, line: int, column: int): (t: Token)
    ensures t.rule == rule && t.value == value
    ensures t.line == line && t.column == column
  {
    Token(rule, value, line, column)
  }

  /** A placeholder Unknown token with no value, at the sentinel position (-1, -1). */
  function NewUnknownToken(): (t: Token)
    ensures t.rule == "Unknown" && t.value == []
    ensures t.line == -1 && t.column == -1
  {
    NewToken("Unknown", [], -1, -1)
  }
}
