/** The outcome, visor and download collectors: what their counters and gauges come to in terms of
    the log lines, through the tailer's one emission per matching pattern. */
module LogCounters {
  import opened Text
  import opened Logtail
  import Tailing
  import opened Counting
  import opened VoteLogs

  // ---------------------------------------------------------------- outcome-voter

  class OutcomeLogsCollector {
    const warnPatterns: seq<Regex>
    const critPatterns: seq<Regex>
    var warn: int
    var crit: int

    constructor (warnPatterns: seq<Regex>, critPatterns: seq<Regex>)
      ensures this.warnPatterns == warnPatterns && this.critPatterns == critPatterns && warn == crit == 0
    {
      this.warnPatterns, this.critPatterns := warnPatterns, critPatterns;
      warn, crit := 0, 0;
    }

    method Classify(m: Match)
      modifies this
      ensures crit == old(crit) + OutcomeCrit(critPatterns)(m.line)
      ensures warn == old(warn) + OutcomeWarn(warnPatterns, critPatterns)(m.line)
      ensures crit == old(crit) + if FoundBy(critPatterns, m.line) then 1 else 0
      ensures warn == old(warn) + if !FoundBy(critPatterns, m.line) && FoundBy(warnPatterns, m.line) then 1 else 0
    {
      var isCrit := LineMatchesAny(m.line, critPatterns);
      if isCrit {
        crit := crit + 1;
        return;
      }
      var isWarn := LineMatchesAny(m.line, warnPatterns);
      if isWarn {
        warn := warn + 1;
      }
    }

    /** The receive loop until the channel is closed. */
    method Start(ms: seq<Match>)
      modifies this
      ensures crit == old(crit) + Weighted(ms, OutcomeCrit(critPatterns))
      ensures warn == old(warn) + Weighted(ms, OutcomeWarn(warnPatterns, critPatterns))
      ensures crit == old(crit) + |set i: nat | i < |ms| && FoundBy(critPatterns, ms[i].line)|
      ensures warn == old(warn) + |set i: nat | i < |ms| && !FoundBy(critPatterns, ms[i].line)
                                                && FoundBy(warnPatterns, ms[i].line)|
    {
      for i := 0 to |ms|
        invariant crit == old(crit) + Weighted(ms[..i], OutcomeCrit(critPatterns))
        invariant warn == old(warn) + Weighted(ms[..i], OutcomeWarn(warnPatterns, critPatterns))
      {
        assert ms[..i + 1] == ms[..i] + [ms[i]];
        Classify(ms[i]);
      }
      assert ms[..|ms|] == ms;
      WeightedIs(ms, OutcomeCrit(critPatterns), set i: nat | i < |ms| && FoundBy(critPatterns, ms[i].line));
      WeightedIs(ms, OutcomeWarn(warnPatterns, critPatterns),
                 set i: nat | i < |ms| && !FoundBy(critPatterns, ms[i].line) && FoundBy(warnPatterns, ms[i].line));
    }
  }

  /** Some pattern finds something in the line. */
  predicate FoundBy(regexes: seq<Regex>, line: string) {
    exists j :: 0 <= j < |regexes| && regexes[j].find(line) != []
  }

  /** A critical line counts one, whatever else it matches. */
  function OutcomeCrit(crit: seq<Regex>): string -> nat {
    line => if MatchesAny(line, crit) then 1 else 0
  }

  function OutcomeWarn(warn: seq<Regex>, crit: seq<Regex>): string -> nat {
    line => if MatchesAny(line, warn) && !MatchesAny(line, crit) then 1 else 0
  }

  /** The documented "per line" reading of the critical counter is right exactly when no critical
      line matches two of the subscribed patterns; otherwise that line is counted once per pattern. */
  lemma CritCountsLinesIff(t: Tailer, warn: seq<Regex>, crit: seq<Regex>, s: Tailing.Session)
    requires s.Valid()
    ensures Weighted(Tailing.SessionOutput(t, warn + crit, s), OutcomeCrit(crit))
            == PerLine(t, warn + crit, Lines(s.text), OutcomeCrit(crit))
       <==> forall i :: 0 <= i < |Lines(s.text)| ==>
              Passes(t, Lines(s.text)[i]) && MatchesAny(Lines(s.text)[i], crit) ==>
                Multiplicity(warn + crit, Lines(s.text)[i]) <= 1
  {
    hide Lines, MatchesAny;
    var lines := Lines(s.text);
    MultiplicityLaw(t, s.path, warn + crit, lines, s.clocks, OutcomeCrit(crit));
    PlainCountIff(t, warn + crit, lines, OutcomeCrit(crit));
    assert forall i :: 0 <= i < |lines| ==>
      (CountsOnce(t, warn + crit, lines[i], OutcomeCrit(crit))
       <==> (Passes(t, lines[i]) && MatchesAny(lines[i], crit) ==> Multiplicity(warn + crit, lines[i]) <= 1));
  }

  /** The same for the warnings. */
  lemma WarnCountsLinesIff(t: Tailer, warn: seq<Regex>, crit: seq<Regex>, s: Tailing.Session)
    requires s.Valid()
    ensures Weighted(Tailing.SessionOutput(t, warn + crit, s), OutcomeWarn(warn, crit))
            == PerLine(t, warn + crit, Lines(s.text), OutcomeWarn(warn, crit))
       <==> forall i :: 0 <= i < |Lines(s.text)| ==>
              Passes(t, Lines(s.text)[i]) && MatchesAny(Lines(s.text)[i], warn)
                  && !MatchesAny(Lines(s.text)[i], crit) ==>
                Multiplicity(warn, Lines(s.text)[i]) <= 1
  {
    hide Lines, MatchesAny;
    var lines := Lines(s.text);
    MultiplicityLaw(t, s.path, warn + crit, lines, s.clocks, OutcomeWarn(warn, crit));
    PlainCountIff(t, warn + crit, lines, OutcomeWarn(warn, crit));
    forall i | 0 <= i < |lines|
      ensures CountsOnce(t, warn + crit, lines[i], OutcomeWarn(warn, crit))
         <==> (Passes(t, lines[i]) && MatchesAny(lines[i], warn) && !MatchesAny(lines[i], crit) ==>
                 Multiplicity(warn, lines[i]) <= 1)
    {
      MultiplicityConcat(warn, crit, lines[i]);
      MatchesAnyIff(crit, lines[i]);
    }
  }

  lemma MatchesAnyIff(regexes: seq<Regex>, line: string)
    ensures MatchesAny(line, regexes) <==> Multiplicity(regexes, line) > 0
  {
    MultiplicityConcat(regexes, [], line);
    assert MatchesAny(line, regexes) <==> exists p <- regexes :: p.Matches(line);
  }

  /** A line matched by a warning and a critical pattern is two critical lines to the counter. */
  lemma OneLineCountsTwice(t: Tailer, warn: Regex, crit: Regex, path: string, inode: Tailing.Inode, line: string,
                           clock: Time)
    requires Without(line, '\n') && Passes(t, line) && warn.Matches(line) && crit.Matches(line)
    ensures var s := Tailing.Session(path, inode, line + "\n", [clock]);
            && s.Valid() && Lines(s.text) == [line]
            && Weighted(Tailing.SessionOutput(t, [warn] + [crit], s), OutcomeCrit([crit])) == 2
            && PerLine(t, [warn] + [crit], Lines(s.text), OutcomeCrit([crit])) == 1
  {
    hide Lines;
    var s := Tailing.Session(path, inode, line + "\n", [clock]);
    assert Lines(s.text) == [line] by {
      FirstLine(line, "");
      NoLines("");
      assert line + ['\n'] + "" == line + "\n" && Lines("") == [];
    }
    MultiplicityConcat([warn], [crit], line);
    assert Multiplicity([warn], line) == 1 && Multiplicity([crit], line) == 1 by {
      assert [warn][..0] == [] && [crit][..0] == [];
    }
    assert [crit][0].Matches(line);
    assert OutcomeCrit([crit])(line) == 1;
    SessionWeight(t, [warn] + [crit], s, OutcomeCrit([crit]));
    assert [line][1..] == [];
  }

  // ---------------------------------------------------------------- visor

  const CHILDREN: set<string> := {"bridge-voter", "outcome-voter", "reference-oracle-publisher"}

  /** The child component a pattern's first group names, if it is a known one. */
  function Child(p: Regex, line: string): Option<string> {
    var sub := p.find(line);
    if |sub| >= 2 && sub[1] in CHILDREN then Some(sub[1]) else None
  }

  function Names(p: Regex, child: string): string -> nat {
    line => if Child(p, line) == Some(child) then 1 else 0
  }

  /** The pattern's first group is that child's name. */
  predicate NamesChild(p: Regex, line: string, child: string) {
    |p.find(line)| >= 2 && p.find(line)[1] == child
    && child in {"bridge-voter", "outcome-voter", "reference-oracle-publisher"}
  }

  function Count(counts: map<string, int>, child: string): int {
    if child in counts then counts[child] else 0
  }

  class VisorLogCollector {
    const restartPattern: Regex
    const critPattern: Regex
    var childRestart: map<string, int>
    var visorCrit: int

    constructor (restartPattern: Regex, critPattern: Regex)
      ensures this.restartPattern == restartPattern && this.critPattern == critPattern
      ensures childRestart.Keys == CHILDREN && visorCrit == 0 && forall c :: Count(childRestart, c) == 0
    {
      this.restartPattern, this.critPattern := restartPattern, critPattern;
      childRestart := map c | c in CHILDREN :: 0;
      visorCrit := 0;
    }

    method Start(ms: seq<Match>)
      requires childRestart.Keys == CHILDREN
      modifies this
      ensures childRestart.Keys == CHILDREN
      ensures forall c :: Count(childRestart, c) == old(Count(childRestart, c)) + Weighted(ms, Names(restartPattern, c))
      ensures visorCrit == old(visorCrit) + Weighted(ms, VisorCrit(restartPattern, critPattern))
      ensures forall c :: Count(childRestart, c) == old(Count(childRestart, c))
                          + |set i: nat | i < |ms| && NamesChild(restartPattern, ms[i].line, c)|
      ensures visorCrit == old(visorCrit)
                           + |set i: nat | i < |ms| && |restartPattern.find(ms[i].line)| < 2
                                           && critPattern.find(ms[i].line) != []|
    {
      hide Weighted;
      assert forall weight: string -> nat :: Weighted(ms[..0], weight) == 0 by { NothingWeighs(ms); }
      for i := 0 to |ms|
        invariant childRestart.Keys == CHILDREN
        invariant forall c :: Count(childRestart, c)
                           == old(Count(childRestart, c)) + Weighted(ms[..i], Names(restartPattern, c))
        invariant visorCrit == old(visorCrit) + Weighted(ms[..i], VisorCrit(restartPattern, critPattern))
      {
        assert ms[..i + 1] == ms[..i] + [ms[i]];
        forall weight ensures Weighted(ms[..i + 1], weight) == Weighted(ms[..i], weight) + weight(ms[i].line) {
          WeightedOneMore(ms[..i], ms[i], weight);
        }
        var sub := restartPattern.find(ms[i].line);
        if |sub| >= 2 {
          var component := sub[1];
          if component in CHILDREN {
            childRestart := childRestart[component := Count(childRestart, component) + 1];
          }
          continue;
        }
        if critPattern.Matches(ms[i].line) {
          visorCrit := visorCrit + 1;
        }
      }
      assert ms[..|ms|] == ms;
      VisorCounts(restartPattern, critPattern, ms);
    }
  }

  lemma VisorCounts(restart: Regex, crit: Regex, ms: seq<Match>)
    ensures forall c :: Weighted(ms, Names(restart, c)) == |set i: nat | i < |ms| && NamesChild(restart, ms[i].line, c)|
    ensures Weighted(ms, VisorCrit(restart, crit))
         == |set i: nat | i < |ms| && |restart.find(ms[i].line)| < 2 && crit.find(ms[i].line) != []|
  {
    hide Weighted;
    forall c
      ensures Weighted(ms, Names(restart, c)) == |set i: nat | i < |ms| && NamesChild(restart, ms[i].line, c)|
    {
      WeightedIs(ms, Names(restart, c), set i: nat | i < |ms| && NamesChild(restart, ms[i].line, c));
    }
    WeightedIs(ms, VisorCrit(restart, crit),
               set i: nat | i < |ms| && |restart.find(ms[i].line)| < 2 && crit.find(ms[i].line) != []);
  }

  lemma NothingWeighs(ms: seq<Match>)
    ensures forall weight: string -> nat :: Weighted(ms[..0], weight) == 0
  {
  }

  /** A restart line never counts as critical, not even one of an unknown child. */
  function VisorCrit(restart: Regex, crit: Regex): string -> nat {
    line => if |restart.find(line)| < 2 && crit.Matches(line) then 1 else 0
  }

  // ---------------------------------------------------------------- downloads

  class DownloadLogsCollector {
    const pattern: Regex
    var downloadStarted: map<string, int>

    constructor (pattern: Regex)
      ensures this.pattern == pattern && downloadStarted == map[]
    {
      this.pattern := pattern;
      downloadStarted := map[];
    }

    method Start(ms: seq<Match>)
      modifies this
      ensures downloadStarted == Downloads(pattern, old(downloadStarted), ms)
    {
      for i := 0 to |ms|
        invariant downloadStarted == Downloads(pattern, old(downloadStarted), ms[..i])
      {
        assert ms[..i + 1][..i] == ms[..i];
        var sub := pattern.find(ms[i].line);
        if |sub| < 2 {
          continue;
        }
        var component := sub[1];
        if component !in CHILDREN {
          continue;
        }
        downloadStarted := downloadStarted[component := Unix(ms[i].at)];
      }
      assert ms[..|ms|] == ms;
    }
  }

  function Downloads(p: Regex, started: map<string, int>, ms: seq<Match>): map<string, int> {
    if ms == [] then started
    else
      var before, m := Downloads(p, started, ms[..|ms| - 1]), ms[|ms| - 1];
      if Child(p, m.line).Some? then before[Child(p, m.line).value := Unix(m.at)] else before
  }

  /** The gauge of a child is the time of its last match; labels never leave the three children. */
  lemma {:induction false} DownloadsAre(p: Regex, started: map<string, int>, ms: seq<Match>, c: string)
    ensures var r := Downloads(p, started, ms);
            && (c in r <==> c in started || LastWhere(ms, Counts(Names(p, c))).Some?)
            && (c in r ==> r[c] == LastTime(ms, Names(p, c), if c in started then started[c] else 0))
            && (c in r && c !in started ==> c in CHILDREN)
  {
    if ms != [] {
      DownloadsAre(p, started, ms[..|ms| - 1], c);
    }
  }

  /** The last match that names the child decides its gauge; without one it keeps what it had. */
  lemma DownloadsShow(p: Regex, started: map<string, int>, ms: seq<Match>, c: string)
    ensures var r := Downloads(p, started, ms);
            && (forall i :: 0 <= i < |ms| && NamesChild(p, ms[i].line, c)
                  && (forall j :: i < j < |ms| ==> !NamesChild(p, ms[j].line, c))
                  ==> c in r && InSecond(r[c], ms[i].at))
            && ((forall i :: 0 <= i < |ms| ==> !NamesChild(p, ms[i].line, c)) ==>
                  (c in r <==> c in started) && (c in r ==> r[c] == started[c]))
  {
    hide Downloads;
    DownloadsAre(p, started, ms, c);
    assert forall i :: 0 <= i < |ms| ==> (Counts(Names(p, c))(ms[i]) <==> NamesChild(p, ms[i].line, c));
    forall i | 0 <= i < |ms| && NamesChild(p, ms[i].line, c)
               && (forall j :: i < j < |ms| ==> !NamesChild(p, ms[j].line, c))
      ensures LastWhere(ms, Counts(Names(p, c))) == Some(i)
    {
      LastWhereUnique(ms, Counts(Names(p, c)), i);
    }
  }

  lemma {:induction false} DownloadsConcat(p: Regex, started: map<string, int>, a: seq<Match>, b: seq<Match>)
    ensures Downloads(p, started, a + b) == Downloads(p, Downloads(p, started, a), b)
  {
    if b == [] {
      assert a + b == a;
    } else {
      assert (a + b)[..|a + b| - 1] == a + b[..|b| - 1];
      DownloadsConcat(p, started, a, b[..|b| - 1]);
    }
  }

  lemma DownloadsTwice(p: Regex, started: map<string, int>, ms: seq<Match>)
    ensures Downloads(p, Downloads(p, started, ms), ms) == Downloads(p, started, ms)
  {
    var once := Downloads(p, started, ms);
    var twice := Downloads(p, once, ms);
    forall c: string ensures c in twice <==> c in once {
      DownloadsAre(p, started, ms, c);
      DownloadsAre(p, once, ms, c);
    }
    forall c: string | c in once ensures twice[c] == once[c] {
      DownloadsAre(p, started, ms, c);
      DownloadsAre(p, once, ms, c);
    }
  }

  /** Replay idempotence: reading a file again from its first byte, whatever has been appended to it
      since, leaves the download gauges as a single first read of it would, when the lines that
      matter carry their own timestamps. */
  lemma ReplayIdempotent(t: Tailer, p: Regex, started: map<string, int>, s: Tailing.Session, again: Tailing.Session)
    requires s.Valid() && again.Valid() && s.path == again.path && Lines(s.text) <= Lines(again.text)
    requires forall i :: 0 <= i < |Lines(again.text)| ==> SelfStamped(t, [p], Lines(again.text)[i])
    ensures Downloads(p, started, Tailing.Render(t, [p], [s, again]))
         == Downloads(p, started, Tailing.SessionOutput(t, [p], again))
  {
    hide Lines, SelfStamped, Output, Downloads, Tailing.Render, Tailing.Session.Valid, Tailing.SessionOutput;
    var out, rest := ReplayedOutput(t, p, s, again);
    Tailing.RenderSnoc(t, [p], [], s);
    Tailing.RenderSnoc(t, [p], [s], again);
    Tailing.NothingRead(t, [p]);
    assert [] + [s] == [s] && [s] + [again] == [s, again] && [] + out == out;
    DownloadsConcat(p, started, out, out + rest);
    DownloadsConcat(p, Downloads(p, started, out), out, rest);
    DownloadsTwice(p, started, out);
    DownloadsConcat(p, started, out, rest);
  }

  /** The second reading emits what the first did, and then the rest. */
  lemma ReplayedOutput(t: Tailer, p: Regex, s: Tailing.Session, again: Tailing.Session)
    returns (out: seq<Match>, rest: seq<Match>)
    requires s.Valid() && again.Valid() && s.path == again.path && Lines(s.text) <= Lines(again.text)
    requires forall i :: 0 <= i < |Lines(again.text)| ==> SelfStamped(t, [p], Lines(again.text)[i])
    ensures Tailing.SessionOutput(t, [p], s) == out && Tailing.SessionOutput(t, [p], again) == out + rest
  {
    hide Lines, SelfStamped, Output;
    var first, all := Lines(s.text), Lines(again.text);
    var n := |first|;
    var before, after := again.clocks[..n], again.clocks[n..];
    out, rest := Output(t, s.path, [p], first, s.clocks), Output(t, s.path, [p], all[n..], after);
    OutputConcat(t, s.path, [p], first, before, all[n..], after);
    assert first + all[n..] == all && before + after == again.clocks;
    OutputIgnoresClock(t, s.path, [p], first, s.clocks, before);
  }
}
