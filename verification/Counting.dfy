/** Counters fed by matches, in terms of log lines: the tailer emits a line once per pattern it
    matches, and a collector adds the line's weight each time. */
module Counting {
  import opened Text
  import opened Logtail
  import Tailing

  /** A counter fed with `weight` of every match. */
  function Weighted(ms: seq<Match>, weight: string -> nat): nat {
    if ms == [] then 0 else Weighted(ms[..|ms| - 1], weight) + weight(ms[|ms| - 1].line)
  }

  lemma {:induction false} WeightedConcat(a: seq<Match>, b: seq<Match>, weight: string -> nat)
    ensures Weighted(a + b, weight) == Weighted(a, weight) + Weighted(b, weight)
  {
    if b == [] {
      assert a + b == a;
    } else {
      assert (a + b)[..|a + b| - 1] == a + b[..|b| - 1];
      WeightedConcat(a, b[..|b| - 1], weight);
    }
  }

  /** A counter that counts by ones has the number of matches that count. */
  lemma {:induction false} WeightedIs(ms: seq<Match>, weight: string -> nat, at: set<nat>)
    requires forall line :: weight(line) <= 1
    requires forall i: nat :: i in at <==> i < |ms| && weight(ms[i].line) == 1
    ensures Weighted(ms, weight) == |at|
  {
    if ms == [] {
      assert at == {};
    } else {
      var n := |ms| - 1;
      WeightedIs(ms[..n], weight, at - {n});
      assert n in at ==> at == (at - {n}) + {n};
      assert n !in at ==> at == at - {n};
    }
  }

  /** The number of patterns a line matches. */
  function Multiplicity(patterns: seq<Regex>, line: string): nat {
    if patterns == [] then 0
    else
      Multiplicity(patterns[..|patterns| - 1], line) + if patterns[|patterns| - 1].Matches(line) then 1 else 0
  }

  lemma {:induction false} MultiplicityIs(patterns: seq<Regex>, line: string)
    ensures Multiplicity(patterns, line) == |set j: nat | j < |patterns| && patterns[j].find(line) != []|
  {
    var all := set j: nat | j < |patterns| && patterns[j].find(line) != [];
    if patterns == [] {
      assert all == {};
    } else {
      var n := |patterns| - 1;
      MultiplicityIs(patterns[..n], line);
      var before := set j: nat | j < n && patterns[..n][j].find(line) != [];
      assert all == if patterns[n].find(line) != [] then before + {n} else before;
    }
  }

  lemma {:induction false} MultiplicityConcat(a: seq<Regex>, b: seq<Regex>, line: string)
    ensures Multiplicity(a + b, line) == Multiplicity(a, line) + Multiplicity(b, line)
    ensures Multiplicity(a, line) == 0 <==> forall p <- a :: !p.Matches(line)
    decreases |a| + |b|
  {
    if b != [] {
      assert (a + b)[..|a + b| - 1] == a + b[..|b| - 1];
      MultiplicityConcat(a, b[..|b| - 1], line);
    } else if a != [] {
      assert a + b == a;
      MultiplicityConcat(a[..|a| - 1], [], line);
      assert a == a[..|a| - 1] + [a[|a| - 1]];
    }
  }

  /** There is no line filter, or it finds something in the line. */
  predicate Passes(t: Tailer, line: string) {
    t.linePrefix.None? || t.linePrefix.value.find(line) != []
  }

  /** Each line that passes the filter counts its weight once per pattern it matches. */
  function PerMatch(t: Tailer, patterns: seq<Regex>, lines: seq<string>, weight: string -> nat): nat {
    if lines == [] then 0
    else
      (if Passes(t, lines[0])
       then Multiplicity(patterns, lines[0]) * weight(lines[0]) else 0)
      + PerMatch(t, patterns, lines[1..], weight)
  }

  /** Each line that passes the filter and matches at all counts its weight once. */
  function PerLine(t: Tailer, patterns: seq<Regex>, lines: seq<string>, weight: string -> nat): nat {
    if lines == [] then 0
    else
      (if Passes(t, lines[0]) && Multiplicity(patterns, lines[0]) > 0
       then weight(lines[0]) else 0)
      + PerLine(t, patterns, lines[1..], weight)
  }

  lemma {:induction false} HitsWeight(file: string, line: string, patterns: seq<Regex>, at: Time, weight: string -> nat)
    ensures Weighted(Hits(file, line, patterns, at), weight) == Multiplicity(patterns, line) * weight(line)
  {
    if patterns != [] {
      var before, last := patterns[..|patterns| - 1], patterns[|patterns| - 1];
      HitsWeight(file, line, before, at, weight);
      var hits, m := Hits(file, line, before, at), Match(file, line, last, at);
      if last.Matches(line) {
        WeightedOneMore(hits, m, weight);
        OneMoreTime(Multiplicity(before, line), weight(line));
      } else {
        assert hits + [] == hits;
      }
    }
  }

  lemma WeightedOneMore(ms: seq<Match>, m: Match, weight: string -> nat)
    ensures Weighted(ms + [m], weight) == Weighted(ms, weight) + weight(m.line)
  {
    assert (ms + [m])[..|ms|] == ms;
  }

  lemma OneMoreTime(k: nat, w: nat)
    ensures (k + 1) * w == k * w + w
  {
  }

  /** From log lines to counters: the sum over the complete, admitted lines of the number of
      patterns the line matches times what its class weighs. */
  lemma {:induction false} MultiplicityLaw(t: Tailer, file: string, patterns: seq<Regex>, lines: seq<string>,
                                           clocks: seq<Time>, weight: string -> nat)
    requires |clocks| == |lines|
    ensures Weighted(Output(t, file, patterns, lines, clocks), weight) == PerMatch(t, patterns, lines, weight)
  {
    if lines != [] {
      var first := LineOutput(t, file, patterns, lines[0], clocks[0]);
      MultiplicityLaw(t, file, patterns, lines[1..], clocks[1..], weight);
      HitsWeight(file, lines[0], patterns, t.Stamp(lines[0], clocks[0]), weight);
      WeightedConcat(first, Output(t, file, patterns, lines[1..], clocks[1..]), weight);
    }
  }

  lemma SessionWeight(t: Tailer, patterns: seq<Regex>, s: Tailing.Session, weight: string -> nat)
    requires s.Valid()
    ensures Weighted(Tailing.SessionOutput(t, patterns, s), weight) == PerMatch(t, patterns, Lines(s.text), weight)
  {
    MultiplicityLaw(t, s.path, patterns, Lines(s.text), s.clocks, weight);
  }

  /** The same summed over sessions. */
  function PerSession(t: Tailer, patterns: seq<Regex>, sessions: seq<Tailing.Session>, weight: string -> nat): nat {
    if sessions == [] then 0
    else
      PerSession(t, patterns, sessions[..|sessions| - 1], weight)
      + PerMatch(t, patterns, Lines(sessions[|sessions| - 1].text), weight)
  }

  lemma {:induction false} RenderWeight(t: Tailer, patterns: seq<Regex>, sessions: seq<Tailing.Session>,
                                        weight: string -> nat)
    requires forall i :: 0 <= i < |sessions| ==> sessions[i].Valid()
    ensures Weighted(Tailing.Render(t, patterns, sessions), weight) == PerSession(t, patterns, sessions, weight)
  {
    hide Lines, Tailing.SessionOutput;
    if sessions != [] {
      var before, s := sessions[..|sessions| - 1], sessions[|sessions| - 1];
      RenderWeight(t, patterns, before, weight);
      WeightedConcat(Tailing.Render(t, patterns, before), Tailing.SessionOutput(t, patterns, s), weight);
      SessionWeight(t, patterns, s, weight);
    }
  }

  /** A whole run of the polling loop feeds a counter the sum over all its sessions. */
  lemma RunWeight(t: Tailer, patterns: seq<Regex>, script: seq<Tailing.Poll>, weight: string -> nat)
    ensures var sessions := Tailing.Run(script).Sessions();
            Weighted(Tailing.Render(t, patterns, sessions), weight) == PerSession(t, patterns, sessions, weight)
  {
    hide Tailing.Run, Tailing.Render, PerSession;
    Tailing.OutputGrows(t, patterns, script, 0);
    RenderWeight(t, patterns, Tailing.Run(script).Sessions(), weight);
  }

  /** The counter is the plain number (weight) of lines exactly when no line that counts matches
      more than one pattern. */
  lemma {:induction false} PlainCountIff(t: Tailer, patterns: seq<Regex>, lines: seq<string>, weight: string -> nat)
    ensures PerLine(t, patterns, lines, weight) <= PerMatch(t, patterns, lines, weight)
    ensures PerMatch(t, patterns, lines, weight) == PerLine(t, patterns, lines, weight)
       <==> forall i :: 0 <= i < |lines| ==> CountsOnce(t, patterns, lines[i], weight)
  {
    if lines != [] {
      var line, rest := lines[0], lines[1..];
      PlainCountIff(t, patterns, rest, weight);
      assert forall i :: 0 < i < |lines| ==> lines[i] == rest[i - 1];
      assert forall i :: 0 <= i < |rest| ==> rest[i] == lines[i + 1];
      ManyTimes(Multiplicity(patterns, line), weight(line));
    }
  }

  predicate CountsOnce(t: Tailer, patterns: seq<Regex>, line: string, weight: string -> nat) {
    Passes(t, line) && weight(line) > 0 ==> Multiplicity(patterns, line) <= 1
  }

  lemma ManyTimes(k: nat, w: nat)
    ensures k > 0 ==> k * w >= w
    ensures k > 1 && w > 0 ==> k * w > w
    ensures k == 0 || w == 0 ==> k * w == 0
  {
  }

  /** A file read twice is counted twice. */
  lemma CountersAddReplays(t: Tailer, patterns: seq<Regex>, sessions: seq<Tailing.Session>, s: Tailing.Session,
                           weight: string -> nat)
    requires s.Valid()
    ensures Weighted(Tailing.Render(t, patterns, sessions + [s]), weight)
         == Weighted(Tailing.Render(t, patterns, sessions), weight) + PerMatch(t, patterns, Lines(s.text), weight)
  {
    hide Lines;
    Tailing.RenderSnoc(t, patterns, sessions, s);
    WeightedConcat(Tailing.Render(t, patterns, sessions), Tailing.SessionOutput(t, patterns, s), weight);
    MultiplicityLaw(t, s.path, patterns, Lines(s.text), s.clocks, weight);
  }

  function Counts(weight: string -> nat): Match -> bool {
    (m: Match) => weight(m.line) > 0
  }

  /** The time of the last match with a positive weight, or what the gauge showed before. */
  function LastTime(ms: seq<Match>, weight: string -> nat, before: int): int {
    var last := LastWhere(ms, Counts(weight));
    if last.Some? then Unix(ms[last.value].at) else before
  }
}
