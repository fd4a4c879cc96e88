/** Rules: the ordered rule set, its compilation, value normalisation and first-match lookup. */
module Rules {
  import opened Wrappers
  import opened Bytes
  import opened Regexp

  /** One normalisation step: rewrite every match of `pattern` with the template `replace`. */
  datatype Replace = Replace(pattern: string, replace: string)

  /** A named pattern; `deleteToken` suppresses the token of a match, `replacements` (Go's `Replaces`) normalise its value. */
  datatype Rule = Rule(name: string, pattern: string, deleteToken: bool, replacements: seq<Replace>)

  /** The patterns of a list of replaces, in order. */
  function ReplacePatterns(reps: seq<Replace>): (ps: seq<string>)
    ensures |ps| == |reps|
    ensures forall j :: 0 <= j < |reps| ==> ps[j] == reps[j].pattern
  {
    seq(|reps|, j requires 0 <= j < |reps| => reps[j].pattern)
  }

  /** Every pattern of a rule set in the order `Init` compiles them:
      each rule's own pattern, then its replaces, rule after rule. */
  function Patterns(rules: seq<Rule>): seq<string>
    decreases |rules|
  {
    if |rules| == 0 then []
    else [rules[0].pattern] + ReplacePatterns(rules[0].replacements) + Patterns(rules[1..])
  }

  /** No pattern of `ps` before index `k` fails to compile. */
  predicate CompilesBefore(e: Engine, ps: seq<string>, k: nat)
    requires k <= |ps|
  {
    forall j :: 0 <= j < k ==> e.compile(ps[j]).None?
  }

  /** The error of the first pattern of `ps` that fails to compile, if any. */
  function FirstCompileError(e: Engine, ps: seq<string>): (err: Option<string>)
    decreases |ps|
    ensures err.None? <==> forall k :: 0 <= k < |ps| ==> e.compile(ps[k]).None?
    ensures forall k :: 0 <= k < |ps| && e.compile(ps[k]).Some? && CompilesBefore(e, ps, k) ==>
                          err == e.compile(ps[k])
  {
    if |ps| == 0 then None
    else if e.compile(ps[0]).Some? then e.compile(ps[0])
    else FirstCompileError(e, ps[1..])
  }

  /** Every pattern of the rule set compiles: the state `Init` leaves a usable rule set in. */
  ghost predicate Ready(e: Engine, rules: seq<Rule>)
  {
    forall k :: 0 <= k < |Patterns(rules)| ==> e.compile(Patterns(rules)[k]).None?
  }

  /** The inner loop of `Init`: compiles a rule's replaces in order, stopping at the first error. */
  function InitReplaces(e: Engine, reps: seq<Replace>): Option<string>
    decreases |reps|
  {
    if |reps| == 0 then None
    else if e.compile(reps[0].pattern).Some? then e.compile(reps[0].pattern)
    else InitReplaces(e, reps[1..])
  }

  /** `Rules.Init`: compiles each rule's pattern and then its replaces, rule by rule, and returns
      the first error met (`None` is Go's nil error). */
  function Init(e: Engine, rules: seq<Rule>): Option<string>
    decreases |rules|
  {
    if |rules| == 0 then None
    else if e.compile(rules[0].pattern).Some? then e.compile(rules[0].pattern)
    else if InitReplaces(e, rules[0].replacements).Some? then InitReplaces(e, rules[0].replacements)
    else Init(e, rules[1..])
  }

  /** Looking for the first error in a concatenation looks in the first part, then the second. */
  lemma {:induction false} FirstCompileErrorAppend(e: Engine, a: seq<string>, b: seq<string>)
    ensures FirstCompileError(e, a + b) ==
            if FirstCompileError(e, a).Some? then FirstCompileError(e, a) else FirstCompileError(e, b)
    decreases |a|
  {
    if |a| == 0 {
      assert a + b == b;
    } else {
      assert (a + b)[1..] == a[1..] + b;
      FirstCompileErrorAppend(e, a[1..], b);
    }
  }

  lemma {:induction false} InitReplacesIsFirstError(e: Engine, reps: seq<Replace>)
    ensures InitReplaces(e, reps) == FirstCompileError(e, ReplacePatterns(reps))
    decreases |reps|
  {
    if |reps| > 0 {
      assert ReplacePatterns(reps)[1..] == ReplacePatterns(reps[1..]);
      InitReplacesIsFirstError(e, reps[1..]);
    }
  }

  /** `Init` reports exactly the error of the first pattern, in compile order, that fails. */
  lemma {:induction false} InitIsFirstError(e: Engine, rules: seq<Rule>)
    ensures Init(e, rules) == FirstCompileError(e, Patterns(rules))
    decreases |rules|
  {
    if |rules| > 0 {
      var own := [rules[0].pattern];
      var reps := ReplacePatterns(rules[0].replacements);
      var rest := Patterns(rules[1..]);
      assert Patterns(rules) == (own + reps) + rest;
      FirstCompileErrorAppend(e, own + reps, rest);
      FirstCompileErrorAppend(e, own, reps);
      InitReplacesIsFirstError(e, rules[0].replacements);
      InitIsFirstError(e, rules[1..]);
    }
  }

  /** `Init` returns nil exactly when every pattern compiles. */
  lemma InitSucceedsIff(e: Engine, rules: seq<Rule>)
    ensures Init(e, rules).None? <==> Ready(e, rules)
  {
    InitIsFirstError(e, rules);
  }

  /** `Rule.Replace`, the loop over replaces: each one rewrites the previous result (a left fold). */
  function ApplyReplaces(e: Engine, reps: seq<Replace>, s: Bytes): Bytes
    decreases |reps|
  {
    if |reps| == 0 then s
    else ApplyReplaces(e, reps[1..], e.replaceAll(reps[0].pattern, s, reps[0].replace))
  }

  /** `Rule.Replace`: the token value of a matched text. */
  function Normalize(e: Engine, r: Rule, text: Bytes): (v: Bytes)
    ensures r.replacements == [] ==> v == text
  {
    ApplyReplaces(e, r.replacements, text)
  }

  /** The last replace is applied last, to the result of all the earlier ones. */
  lemma {:induction false} ApplyReplacesSnoc(e: Engine, reps: seq<Replace>, x: Replace, s: Bytes)
    ensures ApplyReplaces(e, reps + [x], s) == e.replaceAll(x.pattern, ApplyReplaces(e, reps, s), x.replace)
    decreases |reps|
  {
    if |reps| == 0 {
      assert reps + [x] == [x];
    } else {
      assert (reps + [x])[1..] == reps[1..] + [x];
      ApplyReplacesSnoc(e, reps[1..], x, e.replaceAll(reps[0].pattern, s, reps[0].replace));
    }
  }

  /** Splitting the replaces anywhere splits the rewriting into two consecutive passes. */
  lemma {:induction false} ApplyReplacesAppend(e: Engine, a: seq<Replace>, b: seq<Replace>, s: Bytes)
    ensures ApplyReplaces(e, a + b, s) == ApplyReplaces(e, b, ApplyReplaces(e, a, s))
    decreases |a|
  {
    if |a| == 0 {
      assert a + b == b;
    } else {
      assert (a + b)[1..] == a[1..] + b;
      ApplyReplacesAppend(e, a[1..], b, e.replaceAll(a[0].pattern, s, a[0].replace));
    }
  }

  /** What `Rules.Find` returns on a match: the winning rule (by its index) and the match. */
  datatype Found = Found(index: nat, text: Bytes)

  /** The search of `Rules.Find` from rule `i` on. */
  function FindFrom(e: Engine, rules: seq<Rule>, stack: Bytes, i: nat): (r: Option<Found>)
    requires i <= |rules|
    decreases |rules| - i
    ensures r.Some? ==> i <= r.value.index < |rules|
  {
    if i == |rules| then None
    else
      match e.find(rules[i].pattern, stack)
      case Some(text) => Some(Found(i, text))
      case None => FindFrom(e, rules, stack, i + 1)
  }

  /** `Rules.Find`: the first rule, in declaration order, whose pattern matches, with its match. */
  function Find(e: Engine, rules: seq<Rule>, stack: Bytes): (r: Option<Found>)
    ensures r.Some? ==> r.value.index < |rules|
  {
    FindFrom(e, rules, stack, 0)
  }

  /** The search from rule `i` finds nothing exactly when no rule from `i` on matches; otherwise it
      finds the first one that does, with that rule's own match. */
  lemma {:induction false} FindFromSpec(e: Engine, rules: seq<Rule>, stack: Bytes, i: nat)
    requires i <= |rules|
    decreases |rules| - i
    ensures var r := FindFrom(e, rules, stack, i);
            && (r.None? <==> forall j :: i <= j < |rules| ==> e.find(rules[j].pattern, stack).None?)
            && (r.Some? ==> i <= r.value.index < |rules|
                            && e.find(rules[r.value.index].pattern, stack) == Some(r.value.text)
                            && forall j :: i <= j < r.value.index ==> e.find(rules[j].pattern, stack).None?)
  {
    if i < |rules| && e.find(rules[i].pattern, stack).None? {
      FindFromSpec(e, rules, stack, i + 1);
    }
  }

  /** `Find` returns nil exactly when no rule matches; otherwise the rule it returns matches, with
      the match returned, and no rule declared before it matches, however long its match would be. */
  lemma FindSpec(e: Engine, rules: seq<Rule>, stack: Bytes)
    ensures Find(e, rules, stack).None? <==> forall j :: 0 <= j < |rules| ==> e.find(rules[j].pattern, stack).None?
    ensures Find(e, rules, stack).Some? ==>
              && Find(e, rules, stack).value.index < |rules|
              && e.find(rules[Find(e, rules, stack).value.index].pattern, stack) == Some(Find(e, rules, stack).value.text)
              && forall j :: 0 <= j < |rules| && e.find(rules[j].pattern, stack).Some? ==> Find(e, rules, stack).value.index <= j
  {
    FindFromSpec(e, rules, stack, 0);
  }

  /** On every non-empty text, the match `Find` returns is non-empty and fits in the text: the
      scan loop then always advances. Only the winning rule's match matters; a rule that an
      earlier rule always beats, or one that matches the empty string only in the empty text,
      does not break it. */
  ghost predicate Progressing(e: Engine, rules: seq<Rule>)
  {
    forall s: Bytes :: ProgressesOn(e, rules, s)
  }

  /** The scan loop advances on the unread input `s`. */
  predicate ProgressesOn(e: Engine, rules: seq<Rule>, s: Bytes)
  {
    0 < |s| && Find(e, rules, s).Some? ==> 0 < |Find(e, rules, s).value.text| <= |s|
  }

  /** Every match `Find` returns starts at the scan cursor. */
  ghost predicate AnchoredFinds(e: Engine, rules: seq<Rule>)
  {
    forall s: Bytes :: AnchoredOn(e, rules, s)
  }

  /** The match `Find` returns in `s`, if any, starts at the beginning of `s`. */
  predicate AnchoredOn(e: Engine, rules: seq<Rule>, s: Bytes)
  {
    Find(e, rules, s).Some? ==> Find(e, rules, s).value.text <= s
  }

  /** A rule set whose every rule consumes makes progress. */
  lemma ConsumingRulesProgress(e: Engine, rules: seq<Rule>)
    requires forall i :: 0 <= i < |rules| ==> Consumes(e, rules[i].pattern)
    ensures Progressing(e, rules)
  {
    forall s: Bytes
      ensures ProgressesOn(e, rules, s)
    {
      FindSpec(e, rules, s);
    }
  }

  /** A rule set whose every rule is anchored only finds matches at the cursor. */
  lemma AnchoredRulesAnchor(e: Engine, rules: seq<Rule>)
    requires forall i :: 0 <= i < |rules| ==> Anchored(e, rules[i].pattern)
    ensures AnchoredFinds(e, rules)
  {
    forall s: Bytes
      ensures AnchoredOn(e, rules, s)
    {
      FindSpec(e, rules, s);
    }
  }
}
