/** The vote collector: what one match does to its metrics, the loop that selects between the two
    channels, and the closed forms of the counters. */
module VoteLogs {
  import opened Text
  import opened Logtail
  import opened Counting
  import FanIn
  import Tailing

  // ---------------------------------------------------------------- scanning helpers

  predicate MatchesAny(line: string, regexes: seq<Regex>) {
    exists i :: 0 <= i < |regexes| && regexes[i].Matches(line)
  }

  /** The number a pattern's first group captures, if it matches and the group is a number. */
  function NumberIn(line: string, p: Regex): Option<int> {
    var m := p.find(line);
    if |m| >= 2 then Atoi(m[1]) else None
  }

  /** The first two groups a pattern captures, if it matches and has two. */
  function PairIn(line: string, p: Regex): Option<(string, string)> {
    var m := p.find(line);
    if |m| >= 3 then Some((m[1], m[2])) else None
  }

  /** What the first pattern that captures anything captures. */
  function FirstCapture<X>(capture: Regex -> Option<X>, regexes: seq<Regex>): (r: Option<X>)
    ensures r.None? <==> forall i :: 0 <= i < |regexes| ==> capture(regexes[i]).None?
    ensures r.Some? ==> exists i: nat :: i < |regexes| && IsFirst(capture, regexes, i) && capture(regexes[i]) == r
  {
    if regexes == [] then None
    else
      assert forall i :: 0 < i < |regexes| ==> regexes[i] == regexes[1..][i - 1];
      if capture(regexes[0]).Some? then
        assert IsFirst(capture, regexes, 0);
        capture(regexes[0])
      else
        var r := FirstCapture(capture, regexes[1..]);
        assert r.Some? ==> exists i: nat ::
          i < |regexes| - 1 && IsFirst(capture, regexes[1..], i) && IsFirst(capture, regexes, i + 1)
          && capture(regexes[1..][i]) == r;
        r
  }

  predicate IsFirst<X>(capture: Regex -> Option<X>, regexes: seq<Regex>, i: nat) {
    i < |regexes| && capture(regexes[i]).Some? && forall j :: 0 <= j < i ==> capture(regexes[j]).None?
  }

  lemma FirstCaptureIs<X>(capture: Regex -> Option<X>, regexes: seq<Regex>, i: nat)
    requires IsFirst(capture, regexes, i)
    ensures FirstCapture(capture, regexes) == capture(regexes[i])
  {
    var j: nat :| j < |regexes| && IsFirst(capture, regexes, j)
        && capture(regexes[j]) == FirstCapture(capture, regexes);
    OnlyOneFirst(capture, regexes, i, j);
  }

  lemma OnlyOneFirst<X>(capture: Regex -> Option<X>, regexes: seq<Regex>, i: nat, j: nat)
    requires IsFirst(capture, regexes, i) && IsFirst(capture, regexes, j)
    ensures i == j
  {
  }

  function Numbers(line: string): Regex -> Option<int> { (p: Regex) => NumberIn(line, p) }

  function Pairs(line: string): Regex -> Option<(string, string)> { (p: Regex) => PairIn(line, p) }

  method LineMatchesAny(line: string, regexes: seq<Regex>) returns (found: bool)
    ensures found <==> MatchesAny(line, regexes)
  {
    for i := 0 to |regexes|
      invariant forall j :: 0 <= j < i ==> !regexes[j].Matches(line)
    {
      if regexes[i].Matches(line) {
        return true;
      }
    }
    return false;
  }

  /** The pattern matches and its first group is a number. */
  predicate HasNumber(line: string, p: Regex) {
    |p.find(line)| >= 2 && Atoi(p.find(line)[1]).Some?
  }

  predicate FirstNumber(line: string, regexes: seq<Regex>, i: nat) {
    i < |regexes| && HasNumber(line, regexes[i]) && forall j :: 0 <= j < i ==> !HasNumber(line, regexes[j])
  }

  /** Pattern i is the first that captures two groups. */
  predicate FirstPair(line: string, regexes: seq<Regex>, i: nat) {
    i < |regexes| && |regexes[i].find(line)| >= 3 && forall j :: 0 <= j < i ==> |regexes[j].find(line)| < 3
  }

  /** The number of the first pattern whose first group is one; patterns before it may match, with a
      group that is missing or no number. */
  method FirstCapture1Int(line: string, regexes: seq<Regex>) returns (n: int, ok: bool)
    ensures ok ==> exists i: nat :: FirstNumber(line, regexes, i) && Atoi(regexes[i].find(line)[1]) == Some(n)
    ensures !ok ==> n == 0 && NoNumber(line, regexes)
  {
    for i := 0 to |regexes|
      invariant forall j :: 0 <= j < i ==> !HasNumber(line, regexes[j])
    {
      var m := regexes[i].find(line);
      if |m| >= 2 {
        var parsed := Atoi(m[1]);
        if parsed.None? {
          continue;
        }
        assert FirstNumber(line, regexes, i);
        return parsed.value, true;
      }
    }
    return 0, false;
  }

  /** The first and the second group of the first pattern that captures two. */
  method FirstCapture2(line: string, regexes: seq<Regex>) returns (name: string, status: string, ok: bool)
    ensures ok ==> exists i: nat :: FirstPair(line, regexes, i)
                                    && name == regexes[i].find(line)[1] && status == regexes[i].find(line)[2]
    ensures !ok ==> name == status == "" && NoPair(line, regexes)
  {
    for i := 0 to |regexes|
      invariant forall j :: 0 <= j < i ==> |regexes[j].find(line)| < 3
    {
      var m := regexes[i].find(line);
      if |m| >= 3 {
        assert FirstPair(line, regexes, i);
        return m[1], m[2], true;
      }
    }
    return "", "", false;
  }

  lemma FirstPairIsFirst(line: string, regexes: seq<Regex>, i: nat)
    requires FirstPair(line, regexes, i)
    ensures FirstCapture(Pairs(line), regexes) == Some((regexes[i].find(line)[1], regexes[i].find(line)[2]))
  {
    FirstCaptureIs(Pairs(line), regexes, i);
  }

  lemma FirstNumberIsFirst(line: string, regexes: seq<Regex>, i: nat)
    requires FirstNumber(line, regexes, i)
    ensures FirstCapture(Numbers(line), regexes) == Atoi(regexes[i].find(line)[1])
  {
    FirstCaptureIs(Numbers(line), regexes, i);
  }

  // ---------------------------------------------------------------- metrics

  datatype Patterns = Patterns(bridgeOK: seq<Regex>, bridgeFail: seq<Regex>, providerFail: seq<Regex>,
                               oracleOK: seq<Regex>, oracleFail: seq<Regex>)

  /** What a bridge match counts as, by precedence. */
  datatype BridgeEvent = ProviderFail(name: string, status: string) | Votes(n: int) | VoteFail | Nothing

  function BridgeClass(p: Patterns, line: string): BridgeEvent {
    var pair := FirstCapture(Pairs(line), p.providerFail);
    var votes := FirstCapture(Numbers(line), p.bridgeOK);
    if pair.Some? then ProviderFail(pair.value.0, pair.value.1)
    else if votes.Some? then Votes(votes.value)
    else if MatchesAny(line, p.bridgeFail) then VoteFail
    else Nothing
  }

  datatype OracleEvent = Sent | SendFail | Neither

  function OracleClass(p: Patterns, line: string): OracleEvent {
    if MatchesAny(line, p.oracleOK) then Sent
    else if MatchesAny(line, p.oracleFail) then SendFail
    else Neither
  }

  datatype Metrics = Metrics(bridgeOK: int, bridgeFail: int, oracleOK: int, oracleFail: int,
                             providerFail: map<(string, string), int>, bridgeLastOK: int, oracleLastOK: int)

  function Failures(counts: map<(string, string), int>, key: (string, string)): int {
    if key in counts then counts[key] else 0
  }

  function BridgeStep(p: Patterns, s: Metrics, m: Match): Metrics {
    match BridgeClass(p, m.line)
    case ProviderFail(name, status) =>
      s.(providerFail := s.providerFail[(name, status) := Failures(s.providerFail, (name, status)) + 1])
    case Votes(n) => if n > 0 then s.(bridgeOK := s.bridgeOK + n, bridgeLastOK := Unix(m.at)) else s
    case VoteFail => s.(bridgeFail := s.bridgeFail + 1)
    case Nothing => s
  }

  function OracleStep(p: Patterns, s: Metrics, m: Match): Metrics {
    match OracleClass(p, m.line)
    case Sent => s.(oracleOK := s.oracleOK + 1, oracleLastOK := Unix(m.at))
    case SendFail => s.(oracleFail := s.oracleFail + 1)
    case Neither => s
  }

  /** What a bridge match does to the metrics, from what the patterns find in its line: a provider failure
      counts under its own name and status; else votes, if there are any, add up and set the success
      time; else a failure counts. */
  ghost predicate BridgeEffect(p: Patterns, m: Match, s: Metrics, r: Metrics) {
    && (forall i: nat :: FirstPair(m.line, p.providerFail, i) ==>
          FailureEffect(p.providerFail[i].find(m.line)[1], p.providerFail[i].find(m.line)[2], s, r))
    && (NoPair(m.line, p.providerFail) ==> forall i: nat :: FirstNumber(m.line, p.bridgeOK, i) ==>
          VotesEffect(Atoi(p.bridgeOK[i].find(m.line)[1]).value, m.at, s, r))
    && (NoPair(m.line, p.providerFail) && NoNumber(m.line, p.bridgeOK) ==>
          r == if exists i :: 0 <= i < |p.bridgeFail| && p.bridgeFail[i].find(m.line) != []
               then s.(bridgeFail := s.bridgeFail + 1) else s)
  }

  predicate FailureEffect(name: string, status: string, s: Metrics, r: Metrics) {
    var before := if (name, status) in s.providerFail then s.providerFail[(name, status)] else 0;
    r == s.(providerFail := s.providerFail[(name, status) := before + 1])
  }

  predicate VotesEffect(n: int, at: Time, s: Metrics, r: Metrics) {
    if n > 0 then r == s.(bridgeOK := s.bridgeOK + n, bridgeLastOK := r.bridgeLastOK) && InSecond(r.bridgeLastOK, at)
    else r == s
  }

  /** The same for an oracle match: ok before fail. */
  ghost predicate OracleEffect(p: Patterns, m: Match, s: Metrics, r: Metrics) {
    if exists i :: 0 <= i < |p.oracleOK| && p.oracleOK[i].find(m.line) != [] then
      r == s.(oracleOK := s.oracleOK + 1, oracleLastOK := r.oracleLastOK) && InSecond(r.oracleLastOK, m.at)
    else if exists i :: 0 <= i < |p.oracleFail| && p.oracleFail[i].find(m.line) != [] then
      r == s.(oracleFail := s.oracleFail + 1)
    else r == s
  }

  predicate NoPair(line: string, regexes: seq<Regex>) {
    forall i :: 0 <= i < |regexes| ==> |regexes[i].find(line)| < 3
  }

  predicate NoNumber(line: string, regexes: seq<Regex>) {
    forall i :: 0 <= i < |regexes| ==> !HasNumber(line, regexes[i])
  }

  /** What a line counts as, from what the patterns find in it. */
  lemma BridgeClassIs(p: Patterns, line: string)
    ensures forall i: nat :: FirstPair(line, p.providerFail, i) ==>
              BridgeClass(p, line) == ProviderFail(p.providerFail[i].find(line)[1], p.providerFail[i].find(line)[2])
    ensures NoPair(line, p.providerFail) ==> forall i: nat :: FirstNumber(line, p.bridgeOK, i) ==>
              BridgeClass(p, line) == Votes(Atoi(p.bridgeOK[i].find(line)[1]).value)
    ensures NoPair(line, p.providerFail) && NoNumber(line, p.bridgeOK) ==>
              BridgeClass(p, line) == if MatchesAny(line, p.bridgeFail) then VoteFail else Nothing
  {
    hide FirstCapture, MatchesAny;
    forall i: nat | FirstPair(line, p.providerFail, i)
      ensures BridgeClass(p, line) == ProviderFail(p.providerFail[i].find(line)[1], p.providerFail[i].find(line)[2])
    {
      FirstPairIsFirst(line, p.providerFail, i);
    }
    forall i: nat | FirstNumber(line, p.bridgeOK, i)
      ensures FirstCapture(Numbers(line), p.bridgeOK) == Some(Atoi(p.bridgeOK[i].find(line)[1]).value)
    {
      FirstNumberIsFirst(line, p.bridgeOK, i);
    }
    NoneCaptured(line, p);
  }

  lemma NoneCaptured(line: string, p: Patterns)
    ensures NoPair(line, p.providerFail) ==> FirstCapture(Pairs(line), p.providerFail).None?
    ensures NoNumber(line, p.bridgeOK) ==> FirstCapture(Numbers(line), p.bridgeOK).None?
  {
    hide FirstCapture;
    assert forall q: Regex :: Pairs(line)(q).None? <==> |q.find(line)| < 3;
    assert forall q: Regex :: Numbers(line)(q).None? <==> !HasNumber(line, q);
  }

  lemma StepOf(p: Patterns, s: Metrics, m: Match)
    ensures var r := BridgeStep(p, s, m);
            match BridgeClass(p, m.line)
            case ProviderFail(name, status) => FailureEffect(name, status, s, r)
            case Votes(n) => VotesEffect(n, m.at, s, r)
            case VoteFail => r == s.(bridgeFail := s.bridgeFail + 1)
            case Nothing => r == s
  {
    hide BridgeClass;
  }

  lemma BridgeStepIs(p: Patterns, s: Metrics, m: Match)
    ensures BridgeEffect(p, m, s, BridgeStep(p, s, m))
  {
    assert MatchesAny(m.line, p.bridgeFail)
      <==> exists i :: 0 <= i < |p.bridgeFail| && p.bridgeFail[i].find(m.line) != [];
    BridgeClassIs(p, m.line);
    StepOf(p, s, m);
    hide BridgeClass, BridgeStep, MatchesAny, NoPair, NoNumber, Atoi, FailureEffect, VotesEffect;
  }

  lemma OracleStepIs(p: Patterns, s: Metrics, m: Match)
    ensures OracleEffect(p, m, s, OracleStep(p, s, m))
  {
    assert InSecond(Unix(m.at), m.at);
    assert MatchesAny(m.line, p.oracleOK) <==> exists i :: 0 <= i < |p.oracleOK| && p.oracleOK[i].find(m.line) != [];
    assert MatchesAny(m.line, p.oracleFail)
      <==> exists i :: 0 <= i < |p.oracleFail| && p.oracleFail[i].find(m.line) != [];
  }

  function Classify(p: Patterns): FanIn.Classifier<Match, Metrics> {
    (side: FanIn.Side, s: Metrics, m: Match) => if side.Bridge? then BridgeStep(p, s, m) else OracleStep(p, s, m)
  }

  /** The two logs feed disjoint metrics, so FanIn.Confluence applies to this collector. */
  lemma SidesIndependent(p: Patterns)
    ensures FanIn.Independent(Classify(p))
  {
    hide BridgeClass, OracleClass;
    var classify := Classify(p);
    forall s: Metrics, m: Match, n: Match
      ensures classify(FanIn.Oracle, classify(FanIn.Bridge, s, m), n)
          == classify(FanIn.Bridge, classify(FanIn.Oracle, s, n), m)
    {
      assert OracleStep(p, BridgeStep(p, s, m), n) == BridgeStep(p, OracleStep(p, s, n), m);
    }
  }

  class VoteLogsCollector {
    const patterns: Patterns
    var bridgeVoteOK: int
    var bridgeVoteFail: int
    var oracleVoteOK: int
    var oracleVoteFail: int
    var providerFailTot: map<(string, string), int>
    var bridgeLastOK: int
    var oracleLastOK: int

    constructor (patterns: Patterns, now: Time)
      ensures this.patterns == patterns
      ensures InSecond(bridgeLastOK, now) && State() == Metrics(0, 0, 0, 0, map[], bridgeLastOK, bridgeLastOK)
    {
      this.patterns := patterns;
      bridgeVoteOK, bridgeVoteFail, oracleVoteOK, oracleVoteFail := 0, 0, 0, 0;
      providerFailTot := map[];
      bridgeLastOK, oracleLastOK := Unix(now), Unix(now);
    }

    ghost function State(): Metrics
      reads this
    {
      Metrics(bridgeVoteOK, bridgeVoteFail, oracleVoteOK, oracleVoteFail, providerFailTot, bridgeLastOK, oracleLastOK)
    }

    method ClassifyBridge(m: Match)
      modifies this
      ensures BridgeEffect(patterns, m, old(State()), State())
      ensures State() == BridgeStep(patterns, old(State()), m)
    {
      BridgeStepIs(patterns, State(), m);
      BridgeClassIs(patterns, m.line);
      StepOf(patterns, State(), m);
      hide BridgeEffect, BridgeClass, BridgeStep, MatchesAny, NoPair, NoNumber;
      var name, status, matched := FirstCapture2(m.line, patterns.providerFail);
      if matched {
        ghost var i: nat :| FirstPair(m.line, patterns.providerFail, i)
          && name == patterns.providerFail[i].find(m.line)[1] && status == patterns.providerFail[i].find(m.line)[2];
        providerFailTot := providerFailTot[(name, status) := Failures(providerFailTot, (name, status)) + 1];
        return;
      }
      var n, ok := FirstCapture1Int(m.line, patterns.bridgeOK);
      if ok {
        ghost var i: nat :| FirstNumber(m.line, patterns.bridgeOK, i)
          && Atoi(patterns.bridgeOK[i].find(m.line)[1]) == Some(n);
        if n > 0 {
          bridgeVoteOK := bridgeVoteOK + n;
          bridgeLastOK := Unix(m.at);
        }
        return;
      }
      var fail := LineMatchesAny(m.line, patterns.bridgeFail);
      if fail {
        bridgeVoteFail := bridgeVoteFail + 1;
      }
    }

    method ClassifyOracle(m: Match)
      modifies this
      ensures OracleEffect(patterns, m, old(State()), State())
      ensures State() == OracleStep(patterns, old(State()), m)
    {
      OracleStepIs(patterns, State(), m);
      hide OracleEffect;
      var ok := LineMatchesAny(m.line, patterns.oracleOK);
      if ok {
        oracleVoteOK := oracleVoteOK + 1;
        oracleLastOK := Unix(m.at);
        return;
      }
      var fail := LineMatchesAny(m.line, patterns.oracleFail);
      if fail {
        oracleVoteFail := oracleVoteFail + 1;
      }
    }

    /** The receive loop on two channels that deliver these matches until cancellation closes them,
        under any choice of the select between what is ready. Whatever the choices, it ends, with the
        metrics of some first part of each sequence; of all of both, unless it took ctx.Done before. */
    method Start(bridge: seq<Match>, oracle: seq<Match>, choice: nat -> Ready)
      returns (i: nat, j: nat, left: bool)
      modifies this
      ensures i <= |bridge| && j <= |oracle|
      ensures State() == FanIn.Combined(Classify(patterns), old(State()), bridge[..i], oracle[..j])
      ensures left ==> exists turn :: choice(turn) == Done
      ensures !left ==> i == |bridge| && j == |oracle|
    {
      hide FanIn.Combined, BridgeStep, OracleStep;
      assert FanIn.Combined(Classify(patterns), State(), bridge[..0], oracle[..0]) == State() by {
        NothingFolds(patterns, State());
      }
      var turn := 0;
      var bridgeOpen, oracleOpen := true, true;
      i, j, left := 0, 0, false;
      while bridgeOpen || oracleOpen
        invariant i <= |bridge| && j <= |oracle|
        invariant !bridgeOpen ==> i == |bridge|
        invariant !oracleOpen ==> j == |oracle|
        invariant State() == FanIn.Combined(Classify(patterns), old(State()), bridge[..i], oracle[..j])
        decreases |bridge| - i + |oracle| - j + (if bridgeOpen then 1 else 0) + (if oracleOpen then 1 else 0)
      {
        SidesIndependent(patterns);
        if choice(turn) == Done {
          left := true;
          return;
        }
        if bridgeOpen && (!oracleOpen || choice(turn) == BridgeMatch) {
          if i == |bridge| {
            bridgeOpen := false;
          } else {
            FanIn.ReceiveFolds(Classify(patterns), old(State()), bridge[..i], oracle[..j], bridge[i]);
            assert bridge[..i + 1] == bridge[..i] + [bridge[i]];
            ClassifyBridge(bridge[i]);
            i := i + 1;
          }
        } else {
          if j == |oracle| {
            oracleOpen := false;
          } else {
            FanIn.ReceiveFolds(Classify(patterns), old(State()), bridge[..i], oracle[..j], oracle[j]);
            assert oracle[..j + 1] == oracle[..j] + [oracle[j]];
            ClassifyOracle(oracle[j]);
            j := j + 1;
          }
        }
        turn := turn + 1;
      }
    }
  }

  lemma NothingFolds(p: Patterns, s: Metrics)
    ensures FanIn.Combined(Classify(p), s, [], []) == s
  {
  }

  /** What the select takes; a channel that has been closed is never ready again. */
  datatype Ready = BridgeMatch | OracleMatch | Done

  // ---------------------------------------------------------------- closed forms

  /** The votes a bridge line adds. */
  function VotesOf(p: Patterns): string -> nat {
    line => var e := BridgeClass(p, line); if e.Votes? && e.n > 0 then e.n else 0
  }

  function IsBridge(p: Patterns, e: BridgeEvent): string -> nat {
    line => if BridgeClass(p, line) == e then 1 else 0
  }

  function IsOracle(p: Patterns, e: OracleEvent): string -> nat {
    line => if OracleClass(p, line) == e then 1 else 0
  }

  /** Bridge accounting over any sequence of matches: the ok counter is the sum of the positive
      captured votes, the last success is the time of the last such match, idle scans move neither,
      failures count under their own label only, and nothing of the oracle's changes. */
  lemma {:induction false} BridgeAccounting(p: Patterns, s: Metrics, ms: seq<Match>)
    ensures var r := FanIn.Fold(Classify(p), FanIn.Bridge, s, ms);
            && r.bridgeOK == s.bridgeOK + Weighted(ms, VotesOf(p))
            && r.bridgeFail == s.bridgeFail + Weighted(ms, IsBridge(p, VoteFail))
            && r.bridgeLastOK == LastTime(ms, VotesOf(p), s.bridgeLastOK)
            && (forall name, status :: Failures(r.providerFail, (name, status))
                  == Failures(s.providerFail, (name, status)) + Weighted(ms, IsBridge(p, ProviderFail(name, status))))
            && r.oracleOK == s.oracleOK && r.oracleFail == s.oracleFail && r.oracleLastOK == s.oracleLastOK
  {
    hide BridgeClass;
    if ms != [] {
      var before, m := ms[..|ms| - 1], ms[|ms| - 1];
      BridgeAccounting(p, s, before);
      assert FanIn.Fold(Classify(p), FanIn.Bridge, s, ms)
          == BridgeStep(p, FanIn.Fold(Classify(p), FanIn.Bridge, s, before), m);
    }
  }

  lemma {:induction false} OracleAccounting(p: Patterns, s: Metrics, ms: seq<Match>)
    ensures var r := FanIn.Fold(Classify(p), FanIn.Oracle, s, ms);
            && r.oracleOK == s.oracleOK + Weighted(ms, IsOracle(p, Sent))
            && r.oracleFail == s.oracleFail + Weighted(ms, IsOracle(p, SendFail))
            && r.oracleLastOK == LastTime(ms, IsOracle(p, Sent), s.oracleLastOK)
            && r.bridgeOK == s.bridgeOK && r.bridgeFail == s.bridgeFail && r.bridgeLastOK == s.bridgeLastOK
            && r.providerFail == s.providerFail
  {
    hide OracleClass;
    if ms != [] {
      var before, m := ms[..|ms| - 1], ms[|ms| - 1];
      OracleAccounting(p, s, before);
      assert FanIn.Fold(Classify(p), FanIn.Oracle, s, ms)
          == OracleStep(p, FanIn.Fold(Classify(p), FanIn.Oracle, s, before), m);
    }
  }

  /** One match changes at most one of the three bridge counters, and none goes down. */
  lemma OneCounterPerMatch(p: Patterns, s: Metrics, m: Match)
    ensures var r := BridgeStep(p, s, m);
            && (r == s || (r.bridgeOK > s.bridgeOK && r.bridgeFail == s.bridgeFail && r.providerFail == s.providerFail)
                || (r.bridgeFail == s.bridgeFail + 1 && r.bridgeOK == s.bridgeOK && r.providerFail == s.providerFail
                    && r.bridgeLastOK == s.bridgeLastOK)
                || (exists key :: r == s.(providerFail := s.providerFail[key := Failures(s.providerFail, key) + 1])))
            && (r.bridgeLastOK != s.bridgeLastOK ==> r.bridgeOK > s.bridgeOK)
  {
    hide BridgeClass;
    var e := BridgeClass(p, m.line);
    if e.ProviderFail? {
      var key := (e.name, e.status);
      assert BridgeStep(p, s, m) == s.(providerFail := s.providerFail[key := Failures(s.providerFail, key) + 1]);
    }
  }

  // ---------------------------------------------------------------- from log lines to metrics

  /** combine: what the collector subscribes to. */
  function BridgePatterns(p: Patterns): seq<Regex> { p.bridgeOK + p.bridgeFail + p.providerFail }

  function OraclePatterns(p: Patterns): seq<Regex> { p.oracleOK + p.oracleFail }

  /** End to end: for every run of the two polling loops and every interleaving of the tailers, the
      two bounded channels and the select, whenever nothing is in flight each counter is the sum, over
      all sessions of its own log and their complete, admitted lines, of the number of subscribed
      patterns the line matches times what its class is worth. The gauges show the last successes. */
  lemma VotesEndToEnd(t: Tailer, p: Patterns, bridge: seq<Tailing.Poll>, oracle: seq<Tailing.Poll>, start: Metrics,
                      run: seq<FanIn.Action>)
    requires FanIn.Legal(Classify(p), FanIn.Start(Emitted(t, p, bridge, oracle), start), run)
    requires FanIn.Settled(FanIn.After(Classify(p), FanIn.Start(Emitted(t, p, bridge, oracle), start), run))
    ensures var emitted := Emitted(t, p, bridge, oracle);
            var r := FanIn.After(Classify(p), FanIn.Start(emitted, start), run).metrics;
            var b, o := p.bridgeOK + p.bridgeFail + p.providerFail, p.oracleOK + p.oracleFail;
            var bs, os := Tailing.Run(bridge).Sessions(), Tailing.Run(oracle).Sessions();
            && r.bridgeOK == start.bridgeOK + PerSession(t, b, bs, VotesOf(p))
            && r.bridgeFail == start.bridgeFail + PerSession(t, b, bs, IsBridge(p, VoteFail))
            && (forall name, status :: Failures(r.providerFail, (name, status))
                  == Failures(start.providerFail, (name, status))
                     + PerSession(t, b, bs, IsBridge(p, ProviderFail(name, status))))
            && r.oracleOK == start.oracleOK + PerSession(t, o, os, IsOracle(p, Sent))
            && r.oracleFail == start.oracleFail + PerSession(t, o, os, IsOracle(p, SendFail))
            && r.bridgeLastOK == LastTime(emitted.bridge, VotesOf(p), start.bridgeLastOK)
            && r.oracleLastOK == LastTime(emitted.oracle, IsOracle(p, Sent), start.oracleLastOK)
  {
    assert BridgePatterns(p) == p.bridgeOK + p.bridgeFail + p.providerFail;
    assert OraclePatterns(p) == p.oracleOK + p.oracleFail;
    hide Classify, BridgePatterns, OraclePatterns, Failures, Tailing.Run, Tailing.Render;
    var emitted := Emitted(t, p, bridge, oracle);
    var bs, os := Tailing.Run(bridge).Sessions(), Tailing.Run(oracle).Sessions();
    SidesIndependent(p);
    FanIn.Confluence(Classify(p), emitted, start, run);
    hide FanIn.Legal, FanIn.After, FanIn.Independent, PerSession, Weighted;
    BridgeAccounting(p, start, emitted.bridge);
    OracleAccounting(p, FanIn.Fold(Classify(p), FanIn.Bridge, start, emitted.bridge), emitted.oracle);
    RunWeight(t, BridgePatterns(p), bridge, VotesOf(p));
    RunWeight(t, BridgePatterns(p), bridge, IsBridge(p, VoteFail));
    forall name, status
      ensures Weighted(emitted.bridge, IsBridge(p, ProviderFail(name, status)))
           == PerSession(t, BridgePatterns(p), bs, IsBridge(p, ProviderFail(name, status)))
    {
      RunWeight(t, BridgePatterns(p), bridge, IsBridge(p, ProviderFail(name, status)));
    }
    RunWeight(t, OraclePatterns(p), oracle, IsOracle(p, Sent));
    RunWeight(t, OraclePatterns(p), oracle, IsOracle(p, SendFail));
  }

  /** What the two polling loops emit (Tailing.Loop). */
  function Emitted(t: Tailer, p: Patterns, bridge: seq<Tailing.Poll>,
                   oracle: seq<Tailing.Poll>): FanIn.Both<seq<Match>> {
    FanIn.Both(Tailing.Render(t, BridgePatterns(p), Tailing.Run(bridge).Sessions()),
               Tailing.Render(t, OraclePatterns(p), Tailing.Run(oracle).Sessions()))
  }
}
