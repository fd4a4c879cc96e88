/** The part of Go's regexp package the lexer relies on, kept abstract.
    A compiled regular expression is identified with the pattern it was compiled from:
    what it matches and how it rewrites are functions of that pattern. */
module Regexp {
  import opened Wrappers
  import opened Bytes

  /** `compile(p)` is `Some(message)` when `regexp.Compile(p)` fails, `None` when it succeeds.
      `find(p, s)` is `Regexp.Find`: the leftmost match of `p` in `s`, or `None` for a nil slice.
      `replaceAll(p, s, r)` is `Regexp.ReplaceAllString(s, r)`. */
  datatype Engine = Engine(
    compile: string -> Option<string>,
    find: (string, Bytes) -> Option<Bytes>,
    replaceAll: (string, Bytes, string) -> Bytes)

  /** Every match of `pattern` in a non-empty text is non-empty and no longer than that text.
      Go's `Find` returns a sub-slice, which gives the bound; non-emptiness is what the scan
      loop needs to move forward. The empty text is left free: the loop never searches it. */
  ghost predicate Consumes(e: Engine, pattern: string)
  {
    forall s: Bytes :: 0 < |s| && e.find(pattern, s).Some? ==> 0 < |e.find(pattern, s).value| <= |s|
  }

  /** Every match of `pattern` starts at the beginning of the text it was found in. */
  ghost predicate Anchored(e: Engine, pattern: string)
  {
    forall s: Bytes :: e.find(pattern, s).Some? ==> e.find(pattern, s).value <= s
  }
}
