/** The backtracking glob matcher of lib/re/re.c.
  *
  * First what a pattern means, then the compiled pattern and the matcher that run over it.
  * Strings are C strings without their terminator.
  */
module GlobSpec {

  datatype Token = Char(c: char) | Wildcard

  /** Both '*' and '?' are wildcards of any length. */
  function Tokenize(c: char): Token {
    if c == '*' || c == '?' then Wildcard else Char(c)
  }

  function Tokens(expr: string): (p: seq<Token>) {
    seq(|expr|, k requires 0 <= k < |expr| => Tokenize(expr[k]))
  }

  /** The string a pattern stands for once each wildcard is filled in; fills[k] belongs to the
    * token at position k and is looked at only if that token is a wildcard. */
  function Expand(p: seq<Token>, fills: seq<string>): string
    requires |fills| == |p|
  {
    if p == [] then ""
    else (if p[0].Wildcard? then fills[0] else [p[0].c]) + Expand(p[1..], fills[1..])
  }

  /** The usual meaning of a glob pattern. */
  ghost predicate StandardMatch(p: seq<Token>, s: string) {
    exists fills :: |fills| == |p| && Expand(p, fills) == s
  }

  predicate NoAdjacentWildcards(p: seq<Token>) {
    forall k :: 0 <= k < |p| - 1 ==> !(p[k].Wildcard? && p[k + 1].Wildcard?)
  }

  predicate EndsInWildcard(p: seq<Token>) {
    p != [] && p[|p| - 1].Wildcard?
  }

  /** What re_matches decides: two adjacent wildcards match nothing at all, and a wildcard at
    * the end of the pattern has to be filled with at least one character. */
  ghost predicate CodeMatch(p: seq<Token>, s: string) {
    && NoAdjacentWildcards(p)
    && exists fills :: |fills| == |p| && Expand(p, fills) == s
                       && (EndsInWildcard(p) ==> fills[|p| - 1] != "")
  }

  /** The same, token by token and character by character. */
  predicate Glob(p: seq<Token>, s: string)
    decreases |p|, |s|
  {
    if p == [] then s == ""
    else if p[0].Char? then s != "" && s[0] == p[0].c && Glob(p[1..], s[1..])
    else if |p| == 1 then s != ""
    else p[1].Char? && (Glob(p[1..], s) || (s != "" && Glob(p, s[1..])))
  }

  lemma NothingMatchesEmpty(p: seq<Token>)
    ensures Glob(p, "") <==> p == []
  {
    if |p| > 1 {
      assert !p[1].Char? || !Glob(p[1..], "");
    }
  }

  lemma NoAdjacentCons(p: seq<Token>)
    requires p != []
    ensures NoAdjacentWildcards(p) <==>
            NoAdjacentWildcards(p[1..]) && (|p| > 1 ==> !(p[0].Wildcard? && p[1].Wildcard?))
  {
    if NoAdjacentWildcards(p) {
      forall k | 0 <= k < |p[1..]| - 1 ensures !(p[1..][k].Wildcard? && p[1..][k + 1].Wildcard?) {
        assert p[1..][k] == p[k + 1] && p[1..][k + 1] == p[k + 2];
      }
    } else {
      var k :| 0 <= k < |p| - 1 && p[k].Wildcard? && p[k + 1].Wildcard?;
      if k > 0 {
        assert p[1..][k - 1] == p[k] && p[1..][k] == p[k + 1];
      }
    }
  }

  lemma {:induction false} GlobHasFills(p: seq<Token>, s: string) returns (fills: seq<string>)
    requires Glob(p, s)
    ensures NoAdjacentWildcards(p)
    ensures |fills| == |p| && Expand(p, fills) == s
    ensures EndsInWildcard(p) ==> fills[|p| - 1] != ""
    decreases |p|, |s|
  {
    if p == [] {
      fills := [];
    } else if p[0].Wildcard? && |p| == 1 {
      fills := [s];
      assert Expand(p[1..], fills[1..]) == "";
    } else if p[0].Wildcard? && !Glob(p[1..], s) {
      var more := GlobHasFills(p, s[1..]);
      fills := [[s[0]] + more[0]] + more[1..];
      var rest := Expand(p[1..], more[1..]);
      assert fills[1..] == more[1..] && s[1..] == more[0] + rest;
      assert Expand(p, fills) == [s[0]] + more[0] + rest == s;
    } else {
      NoAdjacentCons(p);
      var rest := GlobHasFills(p[1..], if p[0].Char? then s[1..] else s);
      fills := [""] + rest;
      assert fills[1..] == rest;
    }
  }

  lemma {:induction false} FillsGiveGlob(p: seq<Token>, fills: seq<string>)
    requires NoAdjacentWildcards(p) && |fills| == |p|
    requires EndsInWildcard(p) ==> fills[|p| - 1] != ""
    ensures Glob(p, Expand(p, fills))
    decreases |p|, if fills == [] then 0 else |fills[0]|
  {
    if p != [] {
      var s, rest := Expand(p, fills), Expand(p[1..], fills[1..]);
      NoAdjacentCons(p);
      if p[0].Char? || (|p| > 1 && fills[0] == "") {
        FillsGiveGlob(p[1..], fills[1..]);
        assert if p[0].Char? then s[1..] == rest else s == rest;
      } else if |p| > 1 {
        var less := [fills[0][1..]] + fills[1..];
        assert less[1..] == fills[1..];
        FillsGiveGlob(p, less);
        assert s[1..] == less[0] + rest == Expand(p, less);
      } else {
        assert s == fills[0] + "";
      }
    }
  }

  lemma GlobIsCodeMatch(p: seq<Token>, s: string)
    ensures Glob(p, s) <==> CodeMatch(p, s)
  {
    if Glob(p, s) {
      var fills := GlobHasFills(p, s);
    }
    if CodeMatch(p, s) {
      var fills :| |fills| == |p| && Expand(p, fills) == s && (EndsInWildcard(p) ==> fills[|p| - 1] != "");
      FillsGiveGlob(p, fills);
    }
  }

  // ----- In the characters of the pattern

  function Concat(parts: seq<string>): string {
    if parts == [] then "" else parts[0] + Concat(parts[1..])
  }

  /** The parts are what the characters of the pattern stand for. */
  predicate StandFor(expr: string, parts: seq<string>) {
    |parts| == |expr| && forall k :: 0 <= k < |expr| ==> expr[k] in "*?" || parts[k] == [expr[k]]
  }

  /** The string falls into parts that the characters of the pattern stand for; no two of the characters
    * '*' and '?' are adjacent, and one at the end stands for at least one character. */
  ghost predicate Matches(expr: string, s: string) {
    && (forall k :: 0 < k < |expr| ==> expr[k - 1] !in "*?" || expr[k] !in "*?")
    && exists parts :: StandFor(expr, parts) && Concat(parts) == s
                       && (expr != "" && expr[|expr| - 1] in "*?" ==> parts[|expr| - 1] != "")
  }

  lemma {:induction false} ExpandIsConcat(p: seq<Token>, fills: seq<string>, parts: seq<string>)
    requires |fills| == |p| == |parts|
    requires forall k :: 0 <= k < |p| ==> parts[k] == if p[k].Wildcard? then fills[k] else [p[k].c]
    ensures Expand(p, fills) == Concat(parts)
  {
    if p != [] {
      ExpandIsConcat(p[1..], fills[1..], parts[1..]);
    }
  }

  lemma SameWildcards(expr: string)
    ensures NoAdjacentWildcards(Tokens(expr)) <==> forall k :: 0 < k < |expr| ==> expr[k - 1] !in "*?" || expr[k] !in "*?"
    ensures EndsInWildcard(Tokens(expr)) <==> expr != "" && expr[|expr| - 1] in "*?"
  {
    var p := Tokens(expr);
    if NoAdjacentWildcards(p) {
      forall k | 0 < k < |expr| ensures expr[k - 1] !in "*?" || expr[k] !in "*?" {
        assert !(p[k - 1].Wildcard? && p[k - 1 + 1].Wildcard?);
      }
    } else {
      var k :| 0 <= k < |p| - 1 && p[k].Wildcard? && p[k + 1].Wildcard?;
      assert expr[k + 1 - 1] in "*?" && expr[k + 1] in "*?";
    }
  }

  lemma FillsToParts(expr: string, fills: seq<string>) returns (parts: seq<string>)
    requires |fills| == |expr|
    ensures StandFor(expr, parts) && Concat(parts) == Expand(Tokens(expr), fills)
    ensures forall k :: 0 <= k < |expr| && expr[k] in "*?" ==> parts[k] == fills[k]
  {
    var p := Tokens(expr);
    parts := seq(|p|, k requires 0 <= k < |p| => if p[k].Wildcard? then fills[k] else [p[k].c]);
    ExpandIsConcat(p, fills, parts);
  }

  /** What re_matches decides, for the compiled pattern and for the string it was compiled from. */
  lemma CodeMatchIsMatches(expr: string, s: string)
    ensures CodeMatch(Tokens(expr), s) <==> Matches(expr, s)
  {
    var p := Tokens(expr);
    SameWildcards(expr);
    if CodeMatch(p, s) {
      var fills :| |fills| == |p| && Expand(p, fills) == s && (EndsInWildcard(p) ==> fills[|p| - 1] != "");
      var parts := FillsToParts(expr, fills);
    }
    if Matches(expr, s) {
      var parts :| StandFor(expr, parts) && Concat(parts) == s
                   && (expr != "" && expr[|expr| - 1] in "*?" ==> parts[|expr| - 1] != "");
      ExpandIsConcat(p, parts, parts);
    }
  }

  lemma {:induction false} ExpandLength(p: seq<Token>, fills: seq<string>, k: nat)
    requires |fills| == |p| && k < |p| && p[k].Wildcard?
    ensures |Expand(p, fills)| >= |Expand(p, Blanks(|p|))| + |fills[k]|
    decreases |p|
  {
    assert Blanks(|p|)[1..] == Blanks(|p[1..]|);
    if k > 0 {
      ExpandLength(p[1..], fills[1..], k - 1);
    } else {
      ExpandShortest(p[1..], fills[1..]);
    }
  }

  function Blanks(n: nat): (b: seq<string>)
    ensures |b| == n
  {
    seq(n, _ => "")
  }

  lemma {:induction false} ExpandShortest(p: seq<Token>, fills: seq<string>)
    requires |fills| == |p|
    ensures |Expand(p, Blanks(|p|))| <= |Expand(p, fills)|
  {
    if p != [] {
      assert Blanks(|p|)[1..] == Blanks(|p[1..]|);
      ExpandShortest(p[1..], fills[1..]);
    }
  }

  /** The matcher agrees with the usual meaning on every input exactly for the patterns with
    * no two adjacent wildcards and no wildcard at the end. */
  lemma AgreesExactly(p: seq<Token>)
    ensures (forall s :: CodeMatch(p, s) <==> StandardMatch(p, s))
            <==> (NoAdjacentWildcards(p) && !EndsInWildcard(p))
  {
    var shortest := Expand(p, Blanks(|p|));
    assert StandardMatch(p, shortest);
    if EndsInWildcard(p) && CodeMatch(p, shortest) {
      var fills :| |fills| == |p| && Expand(p, fills) == shortest && fills[|p| - 1] != "";
      ExpandLength(p, fills, |p| - 1);
      assert false;
    }
  }
}

/** The compiled pattern: an array of linked states. */
module Re {
  import opened GlobSpec

  datatype Link = Null | To(index: nat)

  /** re_st_t; links are indices into the array of states. */
  datatype St = St(accepter: Token, next: Link, prev: Link)

  /** The states are linked in the order of the pattern. */
  ghost predicate Chained(sts: seq<St>) {
    forall k :: 0 <= k < |sts| ==>
      && sts[k].next == (if k + 1 < |sts| then To(k + 1) else Null)
      && sts[k].prev == (if k > 0 then To(k - 1) else Null)
  }

  function Accepters(sts: seq<St>): (p: seq<Token>)
    ensures |p| == |sts|
  {
    seq(|sts|, k requires 0 <= k < |sts| => sts[k].accepter)
  }

  class Regex {
    var start: Link
    const sts: array<St>

    ghost predicate Valid()
      reads this, sts
    {
      && Chained(sts[..])
      && start == (if sts.Length > 0 then To(0) else Null)
    }

    ghost function Pattern(): (p: seq<Token>)
      reads sts
      ensures |p| == sts.Length
    {
      Accepters(sts[..])
    }

    /** re_compile */
    constructor Compile(expr: string)
      ensures Valid() && fresh(sts)
      ensures Pattern() == Tokens(expr)
    {
      start := Null;
      sts := new St[|expr|](_ => St(Wildcard, Null, Null));
      new;
      if |expr| > 0 {
        sts[0] := St(Tokenize(expr[0]), Null, Null);
        start := To(0);
        var prev := 0;
        while prev + 1 < |expr|
          invariant prev < |expr| == sts.Length && start == To(0)
          invariant Chained(sts[..prev + 1])
          invariant forall k :: 0 <= k <= prev ==> sts[k].accepter == Tokenize(expr[k])
        {
          var next := prev + 1;
          sts[next] := St(Tokenize(expr[next]), Null, To(prev));
          sts[prev] := sts[prev].(next := To(next));
          prev := next;
        }
        assert sts[..prev + 1] == sts[..];
      }
    }
  }
}

/** re_matches */
module Matcher {
  import opened GlobSpec
  import opened Re

  const STACK_SIZE := 100

  /** re_ctx_backtrack_t: the wildcard to come back to, and where to resume in the input. */
  datatype Backtrack = Backtrack(wildcard: nat, validTo: nat)

  /** The first place at or after i where s has c, or the end. */
  function Find(s: string, c: char, i: nat): (f: nat)
    requires i <= |s|
    ensures i <= f <= |s|
    ensures f < |s| ==> s[f] == c
    ensures forall k :: i <= k < f ==> s[k] != c
    decreases |s| - i
  {
    if i == |s| || s[i] == c then i else Find(s, c, i + 1)
  }

  /** A wildcard that is followed by a character; only these are ever put on the stack. */
  predicate Opener(p: seq<Token>, k: nat) {
    k + 1 < |p| && p[k].Wildcard? && p[k + 1].Char?
  }

  function OpenersBelow(p: seq<Token>, k: nat): nat {
    if k == 0 then 0 else OpenersBelow(p, k - 1) + if Opener(p, k - 1) then 1 else 0
  }

  lemma {:induction false} OpenersMonotone(p: seq<Token>, j: nat, k: nat)
    requires j <= k
    ensures OpenersBelow(p, j) <= OpenersBelow(p, k)
    decreases k
  {
    if j < k {
      OpenersMonotone(p, j, k - 1);
    }
  }

  predicate From(p: seq<Token>, s: string, c: nat, i: nat)
    requires c <= |p| && i <= |s|
  {
    Glob(p[c..], s[i..])
  }

  /** Nothing but the empty pattern matches at the end of the input. */
  lemma AtEnd(p: seq<Token>, s: string, c: nat)
    requires c <= |p|
    ensures From(p, s, c, |s|) <==> c == |p|
  {
    assert s[|s|..] == "";
    NothingMatchesEmpty(p[c..]);
  }

  lemma StepChar(p: seq<Token>, s: string, c: nat, i: nat)
    requires c < |p| && i < |s| && p[c].Char?
    ensures From(p, s, c, i) <==> s[i] == p[c].c && From(p, s, c + 1, i + 1)
  {
    assert p[c..][1..] == p[c + 1..] && s[i..][1..] == s[i + 1..];
  }

  /** A wildcard before a character: either that character is matched at its next occurrence f,
    * or the wildcard takes it too. */
  lemma {:induction false} StepOpener(p: seq<Token>, s: string, c: nat, i: nat, f: nat)
    requires Opener(p, c) && i <= |s| && f == Find(s, p[c + 1].c, i)
    ensures From(p, s, c, i) <==> f < |s| && (From(p, s, c + 1, f) || From(p, s, c, f + 1))
    decreases |s| - i
  {
    assert p[c..][1..] == p[c + 1..] && p[c + 1..][0] == p[c + 1];
    if i < |s| {
      assert s[i..][1..] == s[i + 1..] && s[i..][0] == s[i];
      if f > i {
        StepChar(p, s, c + 1, i);
        StepOpener(p, s, c, i + 1, f);
      }
    } else {
      AtEnd(p, s, c);
    }
  }

  /** The number of moves the matcher makes from (c, i) before it rejects or accepts, if it
    * were to start there with an empty stack. */
  function Cost(p: seq<Token>, s: string, c: nat, i: nat): nat
    decreases |p| - c, |s| - i
  {
    if i >= |s| || c >= |p| then 0
    else if p[c].Char? then (if s[i] == p[c].c then 1 + Cost(p, s, c + 1, i + 1) else 0)
    else if !Opener(p, c) then 1
    else
      var f := Find(s, p[c + 1].c, i);
      if f == |s| then 1 else 2 + Cost(p, s, c + 1, f) + Cost(p, s, c, f + 1)
  }

  function StackCost(p: seq<Token>, s: string, stack: seq<Backtrack>): nat {
    if stack == [] then 0
    else
      var top := stack[|stack| - 1];
      StackCost(p, s, stack[..|stack| - 1]) + 1 + Cost(p, s, top.wildcard, top.validTo)
  }

  ghost predicate Resumable(p: seq<Token>, s: string, b: Backtrack) {
    Opener(p, b.wildcard) && b.validTo <= |s|
  }

  /** The stacked wildcards come before c, deeper ones further left. */
  ghost predicate StackInv(p: seq<Token>, s: string, stack: seq<Backtrack>, c: nat) {
    stack != [] ==>
      var top := stack[|stack| - 1];
      && Resumable(p, s, top)
      && top.wildcard < c
      && StackInv(p, s, stack[..|stack| - 1], top.wildcard)
  }

  /** So there are never more of them than the pattern has openers before c. */
  lemma {:induction false} StackFits(p: seq<Token>, s: string, stack: seq<Backtrack>, c: nat)
    requires StackInv(p, s, stack, c)
    ensures |stack| <= OpenersBelow(p, c)
  {
    if stack != [] {
      var w := stack[|stack| - 1].wildcard;
      StackFits(p, s, stack[..|stack| - 1], w);
      OpenersMonotone(p, w + 1, c);
    }
  }

  /** Where the matcher is: the position in the pattern (its length stands for NULL), the
    * position in the input, and the stack. */
  datatype Config = Config(c: nat, i: nat, stack: seq<Backtrack>) {
    function Accepted(): Config {
      Config(c + 1, i + 1, stack)
    }

    function Resumed(): Config
      requires stack != []
    {
      Config(stack[|stack| - 1].wildcard, stack[|stack| - 1].validTo, stack[..|stack| - 1])
    }

    /** A wildcard is stacked and the next token is tried at its next occurrence; or, when there
      * is none to be found, the rest of the input is skipped. */
    function Chomped(p: seq<Token>, s: string): Config
      requires c < |p| && i <= |s|
    {
      if Opener(p, c) && Find(s, p[c + 1].c, i) < |s| then
        var f := Find(s, p[c + 1].c, i);
        Config(c + 1, f, stack + [Backtrack(c, f + 1)])
      else
        Config(c + 1, |s|, stack)
    }

    ghost predicate Good(p: seq<Token>, s: string) {
      c <= |p| && i <= |s| && StackInv(p, s, stack, c)
    }

    /** A match can still be found from here or from the stack. */
    ghost predicate Viable(p: seq<Token>, s: string)
      requires c <= |p| && i <= |s|
    {
      From(p, s, c, i) || Pending(p, s, stack)
    }

    function Measure(p: seq<Token>, s: string): nat {
      Cost(p, s, c, i) + StackCost(p, s, stack)
    }

    /** The matcher may go from here to next: it loses no match, finds none that was not there,
      * and gets nearer to its end. */
    ghost predicate GoesTo(p: seq<Token>, s: string, next: Config)
      requires c <= |p| && i <= |s|
    {
      && next.Good(p, s)
      && next.Viable(p, s) == Viable(p, s)
      && next.Measure(p, s) < Measure(p, s)
    }
  }

  /** Some stacked position still leads to a match. */
  ghost predicate Pending(p: seq<Token>, s: string, stack: seq<Backtrack>) {
    stack != [] &&
    var top := stack[|stack| - 1];
    || (Resumable(p, s, top) && From(p, s, top.wildcard, top.validTo))
    || Pending(p, s, stack[..|stack| - 1])
  }

  lemma AcceptStep(p: seq<Token>, s: string, cfg: Config)
    requires cfg.Good(p, s) && cfg.c < |p| && cfg.i < |s| && p[cfg.c] == Char(s[cfg.i])
    ensures cfg.GoesTo(p, s, cfg.Accepted())
  {
    StepChar(p, s, cfg.c, cfg.i);
  }

  lemma ResumeStep(p: seq<Token>, s: string, cfg: Config)
    requires cfg.Good(p, s) && cfg.stack != [] && !From(p, s, cfg.c, cfg.i)
    ensures cfg.GoesTo(p, s, cfg.Resumed())
  {
  }

  lemma PushStep(p: seq<Token>, s: string, cfg: Config)
    requires cfg.Good(p, s) && cfg.i < |s| && Opener(p, cfg.c) && Find(s, p[cfg.c + 1].c, cfg.i) < |s|
    ensures cfg.GoesTo(p, s, cfg.Chomped(p, s))
  {
    var f := Find(s, p[cfg.c + 1].c, cfg.i);
    assert (cfg.stack + [Backtrack(cfg.c, f + 1)])[..|cfg.stack|] == cfg.stack;
    StepOpener(p, s, cfg.c, cfg.i, f);
  }

  /** A wildcard at the end of the pattern, before another wildcard, or before a character that
    * does not occur any more sends the matcher to the end of the input. */
  lemma GiveUpStep(p: seq<Token>, s: string, cfg: Config)
    requires cfg.Good(p, s) && cfg.c < |p| && cfg.i < |s| && p[cfg.c].Wildcard?
    requires Opener(p, cfg.c) ==> Find(s, p[cfg.c + 1].c, cfg.i) == |s|
    ensures cfg.GoesTo(p, s, cfg.Chomped(p, s))
  {
    AtEnd(p, s, cfg.c + 1);
    if Opener(p, cfg.c) {
      StepOpener(p, s, cfg.c, cfg.i, |s|);
    } else {
      assert From(p, s, cfg.c, cfg.i) <==> cfg.c + 1 == |p|;
    }
  }

  datatype Move = Stop(matched: bool) | Go(next: Config)

  /** One round of the loop of re_matches. */
  function NextMove(p: seq<Token>, s: string, cfg: Config): Move
    requires cfg.c <= |p| && cfg.i <= |s|
  {
    if cfg.i < |s| && cfg.c < |p| && p[cfg.c] == Char(s[cfg.i]) then Go(cfg.Accepted())
    else if cfg.i < |s| && cfg.c < |p| && p[cfg.c].Wildcard? then Go(cfg.Chomped(p, s))
    else if cfg.i == |s| && cfg.c == |p| then Stop(true)
    else if cfg.stack != [] then Go(cfg.Resumed())
    else Stop(false)
  }

  /** The loop stops with the right answer, and otherwise goes on to a configuration with the
    * same chances of a match. */
  lemma NextMoveIsRight(p: seq<Token>, s: string, cfg: Config)
    requires cfg.Good(p, s)
    ensures match NextMove(p, s, cfg)
            case Stop(matched) => matched == cfg.Viable(p, s)
            case Go(next) => cfg.GoesTo(p, s, next)
  {
    if cfg.i == |s| || cfg.c == |p| {
      AtEnd(p, s, cfg.c);
      StopOrResume(p, s, cfg);
    } else if p[cfg.c] == Char(s[cfg.i]) {
      AcceptStep(p, s, cfg);
    } else if p[cfg.c].Wildcard? {
      if Opener(p, cfg.c) && Find(s, p[cfg.c + 1].c, cfg.i) < |s| {
        PushStep(p, s, cfg);
      } else {
        GiveUpStep(p, s, cfg);
      }
    } else {
      StepChar(p, s, cfg.c, cfg.i);
      StopOrResume(p, s, cfg);
    }
  }

  lemma StopOrResume(p: seq<Token>, s: string, cfg: Config)
    requires cfg.Good(p, s)
    requires From(p, s, cfg.c, cfg.i) <==> cfg.i == |s| && cfg.c == |p|
    ensures cfg.stack != [] && !From(p, s, cfg.c, cfg.i) ==> cfg.GoesTo(p, s, cfg.Resumed())
    ensures cfg.stack == [] ==> cfg.Viable(p, s) == (cfg.i == |s| && cfg.c == |p|)
  {
    if cfg.stack != [] && !From(p, s, cfg.c, cfg.i) {
      ResumeStep(p, s, cfg);
    }
  }

  // ----- How deep the stack gets

  predicate Pair(p: seq<Token>, k: nat) {
    k + 1 < |p| && p[k].Wildcard? && p[k + 1].Wildcard?
  }

  /** The first place from k on where two wildcards are adjacent, or the end of the pattern. */
  function FirstPair(p: seq<Token>, k: nat): (j: nat)
    requires k <= |p|
    ensures k <= j <= |p|
    ensures j < |p| ==> Pair(p, j)
    ensures forall l :: k <= l < j ==> !Pair(p, l)
    decreases |p| - k
  {
    if k == |p| || Pair(p, k) then k else FirstPair(p, k + 1)
  }

  /** The wildcards that can be on the stack all at once: those followed by a character, up to the
    * first two adjacent wildcards, which the matcher never gets past. */
  function MostStacked(p: seq<Token>): nat {
    OpenersBelow(p, FirstPair(p, 0))
  }

  /** The matcher is not past the first two adjacent wildcards, or it is about to turn back. */
  predicate Early(p: seq<Token>, s: string, cfg: Config) {
    var j := FirstPair(p, 0);
    cfg.c <= j || (cfg.c == j + 1 && cfg.i == |s|)
  }

  lemma StaysEarly(p: seq<Token>, s: string, cfg: Config)
    requires cfg.Good(p, s) && Early(p, s, cfg)
    ensures NextMove(p, s, cfg).Go? ==> Early(p, s, NextMove(p, s, cfg).next)
  {
    var j := FirstPair(p, 0);
    if cfg.c == j < |p| {
      assert Pair(p, j);
    }
  }

  lemma StackedAtMost(p: seq<Token>, s: string, cfg: Config)
    requires cfg.Good(p, s) && Early(p, s, cfg)
    ensures |cfg.stack| <= MostStacked(p)
    ensures cfg.i < |s| && Opener(p, cfg.c) ==> |cfg.stack| < MostStacked(p)
  {
    var j := FirstPair(p, 0);
    StackFits(p, s, cfg.stack, cfg.c);
    if cfg.c <= j {
      OpenersMonotone(p, cfg.c, j);
      if Opener(p, cfg.c) {
        assert j < |p| ==> Pair(p, j);
        OpenersMonotone(p, cfg.c + 1, j);
      }
    }
  }

  /** What the matcher does in n rounds, if the stack is as large as it needs. */
  function RunFor(p: seq<Token>, s: string, n: nat): Move {
    if n == 0 then Go(Config(0, 0, []))
    else
      match RunFor(p, s, n - 1)
      case Stop(matched) => Stop(matched)
      case Go(cfg) => if cfg.c <= |p| && cfg.i <= |s| then NextMove(p, s, cfg) else Stop(false)
  }

  /** A configuration that is reached has no more than size places of the stack in use. */
  predicate WithinAt(p: seq<Token>, s: string, n: nat, size: nat) {
    RunFor(p, s, n).Go? ==> |RunFor(p, s, n).next.stack| <= size
  }

  /** Every configuration that is reached, on any input, fits a stack of this size. */
  ghost predicate StackSafe(p: seq<Token>, size: nat) {
    forall s, n: nat :: WithinAt(p, s, n, size)
  }

  lemma {:induction false} ReachedIsEarly(p: seq<Token>, s: string, n: nat)
    ensures var m := RunFor(p, s, n); m.Go? ==> m.next.Good(p, s) && Early(p, s, m.next)
  {
    if n == 0 {
      StartIsRight(p, s);
    } else {
      ReachedIsEarly(p, s, n - 1);
      var before := RunFor(p, s, n - 1);
      if before.Go? {
        StaysEarly(p, s, before.next);
        NextMoveIsRight(p, s, before.next);
      }
    }
  }

  /** The literal characters of a pattern: what it matches with every wildcard empty. */
  function Literals(p: seq<Token>): string {
    if p == [] then "" else Literals(p[..|p| - 1]) + if p[|p| - 1].Char? then [p[|p| - 1].c] else ""
  }

  lemma {:induction false} LiteralAt(p: seq<Token>, k: nat)
    requires k <= |p|
    ensures Literals(p[..k]) <= Literals(p)
    ensures k < |p| && p[k].Char? ==> |Literals(p[..k])| < |Literals(p)| && Literals(p)[|Literals(p[..k])|] == p[k].c
    decreases |p|
  {
    if k < |p| {
      var front := p[..|p| - 1];
      assert front[..k] == p[..k];
      LiteralAt(front, k);
    } else {
      assert p[..k] == p;
    }
  }

  /** On its own literals the matcher goes straight through the pattern up to position k, and stacks
    * every wildcard that is followed by a character. */
  lemma {:induction false} StraightThrough(p: seq<Token>, k: nat) returns (n: nat)
    requires k <= FirstPair(p, 0) && (k == |p| && k > 0 ==> p[k - 1].Char?)
    ensures RunFor(p, Literals(p), n).Go?
    ensures var cfg := RunFor(p, Literals(p), n).next;
            cfg.c == k && cfg.i == |Literals(p[..k])| && |cfg.stack| == OpenersBelow(p, k)
  {
    n := 0;
    if k > 0 {
      var s, c := Literals(p), k - 1;
      assert !Pair(p, c);
      var m := StraightThrough(p, c);
      var cfg := RunFor(p, s, m).next;
      n := m + 1;
      LiteralAt(p, c);
      LiteralAt(p, k);
      assert p[..k][..c] == p[..c] && p[..k][c] == p[c];
      if p[c].Wildcard? {
        assert Opener(p, c);
        assert Find(s, p[k].c, cfg.i) == cfg.i;
      }
    }
  }

  /** The position up to which wildcards are stacked before anything is taken back. */
  function LastOpen(p: seq<Token>): (k: nat)
    ensures k <= FirstPair(p, 0) && (k == |p| && k > 0 ==> p[k - 1].Char?)
    ensures OpenersBelow(p, k) == MostStacked(p)
  {
    var j := FirstPair(p, 0);
    if j == |p| && j > 0 && p[j - 1].Wildcard? then j - 1 else j
  }

  /** A stack of the given size suffices for every input exactly when no more wildcards than that can
    * be stacked at once; where it does not suffice, the pattern's own literals overflow it. */
  lemma StackSafeExactly(p: seq<Token>, size: nat)
    ensures StackSafe(p, size) <==> MostStacked(p) <= size
    ensures MostStacked(p) > size ==> exists n: nat :: !WithinAt(p, Literals(p), n, size)
  {
    if MostStacked(p) <= size {
      forall s, n: nat ensures WithinAt(p, s, n, size) {
        ReachedIsEarly(p, s, n);
        if RunFor(p, s, n).Go? {
          StackedAtMost(p, s, RunFor(p, s, n).next);
        }
      }
    } else {
      var n := StraightThrough(p, LastOpen(p));
      assert !WithinAt(p, Literals(p), n, size);
    }
  }

  /** re_ctx_t and the backtrack stack, while a regular expression is matched. */
  class Ctx {
    const re: Regex
    const input: string
    var idx: nat
    var current: Link
    const stack: array<Backtrack>
    var depth: nat

    constructor (re: Regex, input: string)
      requires re.Valid()
      ensures this.re == re && this.input == input && fresh(stack)
      ensures Valid() && Contents() == Config(0, 0, [])
    {
      this.re, this.input, idx, current := re, input, 0, re.start;
      stack := new Backtrack[STACK_SIZE](_ => Backtrack(0, 0));
      depth := 0;
    }

    ghost predicate Valid()
      reads this, stack, re, re.sts
    {
      && re.Valid()
      && stack.Length == STACK_SIZE
      && depth <= STACK_SIZE
      && idx <= |input|
      && (current.To? ==> current.index < re.sts.Length)
    }

    ghost function Contents(): Config
      requires depth <= stack.Length
      reads this, stack
    {
      Config(if current.Null? then re.sts.Length else current.index, idx, stack[..depth])
    }

    /** The token of the current state. */
    function Token(): (t: Token)
      requires Valid() && current.To?
      reads this, stack, re, re.sts
      ensures t == re.Pattern()[Contents().c]
    {
      re.sts[current.index].accepter
    }

    method AcceptAndStep()
      requires Valid() && current.To? && idx < |input|
      modifies this`idx, this`current
      ensures Valid() && Contents() == old(Contents()).Accepted()
    {
      assert re.sts[..][current.index] == re.sts[current.index];
      idx := idx + 1;
      current := re.sts[current.index].next;
    }

    /** _backtrack */
    method Resume()
      requires Valid() && depth > 0
      requires stack[depth - 1].wildcard < re.sts.Length && stack[depth - 1].validTo <= |input|
      modifies this`idx, this`current, this`depth
      ensures Valid() && Contents() == old(Contents()).Resumed()
    {
      ghost var before := stack[..depth];
      depth := depth - 1;
      assert stack[..depth] == before[..|before| - 1];
      current := To(stack[depth].wildcard);
      idx := stack[depth].validTo;
    }

    /** _chomp_wildcard; there is room on the stack for one more. */
    method ChompWildcard()
      requires Valid() && current.To? && idx < |input|
      requires Token().Wildcard?
      requires Opener(re.Pattern(), Contents().c) ==> depth < STACK_SIZE
      modifies this`idx, this`current, this`depth, stack
      ensures Valid() && Contents() == old(Contents()).Chomped(re.Pattern(), input)
    {
      ghost var p, before := re.Pattern(), Contents();
      assert re.sts[..][before.c] == re.sts[before.c];
      var next := re.sts[current.index].next;
      var validUpTo := |input|;
      if next.To? {
        var token := re.sts[next.index].accepter;
        assert p[before.c + 1] == token by { assert re.sts[..][next.index] == re.sts[next.index]; }
        // a second wildcard falls out of the do-while, and is then looked for in vain
        validUpTo := Seek(token);
        if validUpTo != |input| {
          stack[depth] := Backtrack(current.index, validUpTo + 1);
          depth := depth + 1;
          assert stack[..depth] == before.stack + [Backtrack(before.c, validUpTo + 1)];
        }
      }
      current := next;
      idx := validUpTo;
    }

    /** One round of the loop of lines 206-225. */
    method Round() returns (over: bool, matched: bool)
      requires Valid()
      requires idx < |input| && Opener(re.Pattern(), Contents().c) ==> depth < STACK_SIZE
      requires depth > 0 ==> stack[depth - 1].wildcard < re.sts.Length && stack[depth - 1].validTo <= |input|
      modifies this`idx, this`current, this`depth, stack
      ensures Valid()
      ensures match NextMove(re.Pattern(), input, old(Contents()))
              case Stop(m) => over && matched == m
              case Go(next) => !over && Contents() == next
    {
      over, matched := false, false;
      var atEnd, noMore := idx == |input|, current.Null?;
      if atEnd || noMore {
        if atEnd && noMore {
          over, matched := true, true;
        } else if depth > 0 {
          Resume();
        } else {
          over := true;
        }
      } else if Token() == Char(input[idx]) {
        AcceptAndStep();
      } else if Token().Wildcard? {
        ChompWildcard();
      } else if depth > 0 {
        Resume();
      } else {
        over := true;
      }
    }

    /** The loop of lines 163-178: the next place in the input that the token accepts. */
    method Seek(token: Token) returns (validUpTo: nat)
      requires idx <= |input|
      ensures validUpTo == if token.Char? then Find(input, token.c, idx) else |input|
    {
      validUpTo := idx;
      while true
        invariant idx <= validUpTo <= |input|
        invariant token.Char? ==> Find(input, token.c, idx) == Find(input, token.c, validUpTo)
        decreases |input| - validUpTo
      {
        if validUpTo == |input| {
          return;
        }
        if token == Char(input[validUpTo]) {
          break;
        }
        validUpTo := validUpTo + 1;
      }
    }
  }

  lemma StartIsRight(p: seq<Token>, s: string)
    ensures Config(0, 0, []).Good(p, s)
    ensures Config(0, 0, []).Viable(p, s) <==> CodeMatch(p, s)
  {
    GlobIsCodeMatch(p, s);
    assert p[0..] == p && s[0..] == s;
  }

  /** re_matches decides CodeMatch, for exactly the patterns for which the stack is large enough on
    * every input. */
  method ReMatches(re: Regex, input: string) returns (matched: bool)
    requires re.Valid() && MostStacked(re.Pattern()) <= 100
    ensures matched <==> CodeMatch(re.Pattern(), input)
  {
    var ctx := new Ctx(re, input);
    ghost var p, cfg := re.Pattern(), ctx.Contents();
    ghost var answer := cfg.Viable(p, input);
    StartIsRight(p, input);
    while true
      invariant ctx.Valid() && ctx.re == re && ctx.input == input && re.Pattern() == p
      invariant fresh(ctx) && fresh(ctx.stack)
      invariant cfg == ctx.Contents() && cfg.Good(p, input) && Early(p, input, cfg)
      invariant cfg.Viable(p, input) == answer
      decreases cfg.Measure(p, input)
    {
      NextMoveIsRight(p, input, cfg);
      StackedAtMost(p, input, cfg);
      StaysEarly(p, input, cfg);
      var over, verdict := ctx.Round();
      if over {
        return verdict;
      }
      cfg := ctx.Contents();
    }
  }
}
