/** The service collector's tick, and what its restart counter is worth against a systemd unit
    whose own restart count can be reset. */
module Service {
  import opened Text

  datatype Kind = NoKind | KindAPI | KindIO

  /** A call's value or its error. */
  datatype Reply<+T> = Ok(value: T) | Err(text: string)

  /** What systemd and procfs answer to one tick; `children` only matters for a running unit. */
  datatype Answers = Answers(active: Reply<bool>, mainPID: Reply<int>, nRestarts: Reply<int>, children: Reply<nat>)

  function Max(a: int, b: int): int { if a > b then a else b }

  class ServiceCollector {
    var up: int
    var childCount: int
    var restartTotal: int
    var lastNRestart: int

    constructor ()
      ensures up == childCount == restartTotal == lastNRestart == 0
    {
      up, childCount, restartTotal, lastNRestart := 0, 0, 0, 0;
    }

    /** One tick. Each source updates its own metric whatever happens to the others; the first
        failing one in order gives the error. */
    method Tick(answers: Answers) returns (kind: Kind, error: Option<string>)
      modifies this
      ensures up == if answers.active == Ok(true) then 1 else 0
      ensures (restartTotal, lastNRestart) == Sampled((old(restartTotal), old(lastNRestart)), answers.nRestarts)
      ensures restartTotal == old(restartTotal)
                              + if answers.nRestarts.Ok? && answers.nRestarts.value > old(lastNRestart)
                                then answers.nRestarts.value - old(lastNRestart) else 0
      ensures lastNRestart == if answers.nRestarts.Ok? then answers.nRestarts.value else old(lastNRestart)
      ensures childCount == if answers.mainPID.Ok? && answers.mainPID.value > 0 && answers.children.Ok?
                            then answers.children.value else 0
      ensures error == if answers.active.Err? then Some(answers.active.text)
                       else if answers.mainPID.Err? then Some(answers.mainPID.text)
                       else if answers.nRestarts.Err? then Some(answers.nRestarts.text)
                       else if answers.mainPID.value > 0 && answers.children.Err? then Some(answers.children.text)
                       else None
      ensures kind == if error.None? then NoKind
                      else if answers.active.Err? || answers.mainPID.Err? || answers.nRestarts.Err? then KindAPI
                      else KindIO
    {
      var Answers(active, mainPID, nRestarts, children) := answers;
      kind, error := NoKind, None;
      if active.Err? {
        kind, error := KindAPI, Some(active.text);
        up := 0;
      } else if active.value {
        up := 1;
      } else {
        up := 0;
      }
      var pid := 0;
      if mainPID.Ok? {
        pid := mainPID.value;
      } else if error.None? {
        kind, error := KindAPI, Some(mainPID.text);
      }
      if nRestarts.Ok? {
        var delta := nRestarts.value - lastNRestart;
        if delta > 0 {
          restartTotal := restartTotal + delta;
        }
        lastNRestart := nRestarts.value;
      } else if error.None? {
        kind, error := KindAPI, Some(nRestarts.text);
      }
      if pid > 0 {
        if children.Err? {
          if error.None? {
            kind, error := KindIO, Some(children.text);
          }
          childCount := 0;
        } else {
          childCount := children.value;
        }
      } else {
        childCount := 0;
      }
    }

    /** The ticker: any number of ticks, one after the other. */
    method Start(ticks: seq<Answers>)
      modifies this
      ensures (restartTotal, lastNRestart) == Samples((old(restartTotal), old(lastNRestart)), Readings(ticks))
    {
      for i := 0 to |ticks|
        invariant (restartTotal, lastNRestart) == Samples((old(restartTotal), old(lastNRestart)), Readings(ticks[..i]))
      {
        assert ticks[..i + 1][..i] == ticks[..i];
        var before := Readings(ticks[..i]);
        assert (before + [ticks[i].nRestarts])[..|before|] == before;
        var _, _ := Tick(ticks[i]);
      }
      assert ticks[..|ticks|] == ticks;
    }
  }

  /** Counter and mirror after a sample of NRestarts. */
  function Sampled(was: (int, int), sample: Reply<int>): (int, int) {
    if sample.Ok? then (was.0 + Max(0, sample.value - was.1), sample.value) else was
  }

  // ---------------------------------------------------------------- over all samples

  function Readings(ticks: seq<Answers>): seq<Reply<int>> {
    if ticks == [] then [] else Readings(ticks[..|ticks| - 1]) + [ticks[|ticks| - 1].nRestarts]
  }

  function Samples(start: (int, int), samples: seq<Reply<int>>): (int, int) {
    if samples == [] then start else Sampled(Samples(start, samples[..|samples| - 1]), samples[|samples| - 1])
  }

  /** The last value seen, `start` before any. */
  function LastSeen(start: int, samples: seq<Reply<int>>): int {
    if samples == [] then start
    else if samples[|samples| - 1].Ok? then samples[|samples| - 1].value
    else LastSeen(start, samples[..|samples| - 1])
  }

  /** By how much the values seen went down, all in all. */
  function Drops(start: int, samples: seq<Reply<int>>): nat {
    if samples == [] then 0
    else
      var before, sample := samples[..|samples| - 1], samples[|samples| - 1];
      Drops(start, before) + if sample.Ok? then Max(0, LastSeen(start, before) - sample.value) else 0
  }

  /** Telescoping: what is counted is by how much the last value seen exceeds the first, plus
      everything the values ever lost; failed reads do not matter. */
  lemma {:induction false} RestartTelescopes(start: (int, int), samples: seq<Reply<int>>)
    ensures Samples(start, samples).1 == LastSeen(start.1, samples)
    ensures Samples(start, samples).0 == start.0 + LastSeen(start.1, samples) - start.1 + Drops(start.1, samples)
  {
    if samples != [] {
      RestartTelescopes(start, samples[..|samples| - 1]);
    }
  }

  // ---------------------------------------------------------------- against systemd

  /** What happens to the unit, and when the collector looks (successfully or not). Restarts from
      before the collector started come first in a run. */
  datatype Event = Restart | Reset | Sample(ok: bool)

  const LOOK := Sample(true)

  /** The unit's true restarts and its resettable count; the collector's counter and mirror; whether
      the count was reset since the last good sample, and how many unseen restarts that wiped out. */
  datatype World = World(restarts: nat, count: nat, total: int, mirror: int, reset: bool, wiped: int)

  function Happen(w: World, e: Event): World {
    match e
    case Restart => w.(restarts := w.restarts + 1, count := w.count + 1)
    case Reset => w.(count := 0, reset := true, wiped := w.wiped + w.count - if w.reset then 0 else w.mirror)
    case Sample(false) => w
    case Sample(true) =>
      var (total, mirror) := Sampled((w.total, w.mirror), Ok(w.count));
      w.(total := total, mirror := mirror, reset := false, wiped := 0)
  }

  function After(run: seq<Event>): World {
    if run == [] then World(0, 0, 0, 0, false, 0)
    else Happen(After(run[..|run| - 1]), run[|run| - 1])
  }

  /** The restarts a good sample at this point can never see. */
  function Missed(w: World): int {
    if w.reset then w.wiped + (if w.count < w.mirror then w.count else w.mirror) else 0
  }

  /** All restarts missed by the good samples of a run. */
  function Lost(run: seq<Event>): int {
    if run == [] then 0
    else
      var before := run[..|run| - 1];
      Lost(before) + if run[|run| - 1] == LOOK then Missed(After(before)) else 0
  }

  /** Conservation: every true restart is counted, missed for good, or still to be seen. */
  lemma {:induction false} RestartConservation(run: seq<Event>)
    ensures var w := After(run);
            && w.restarts == w.total + Lost(run) + (if w.reset then w.wiped + w.count else w.count - w.mirror)
            && 0 <= w.mirror && 0 <= w.wiped && (!w.reset ==> w.wiped == 0 && w.mirror <= w.count)
            && 0 <= Lost(run)
  {
    if run != [] {
      RestartConservation(run[..|run| - 1]);
    }
  }

  /** The counter never exceeds the true number of restarts, and never goes down. */
  lemma NeverOvercounts(run: seq<Event>, e: Event)
    ensures After(run).total <= After(run).restarts
    ensures After(run).total <= After(run + [e]).total
  {
    RestartConservation(run);
    assert (run + [e])[..|run|] == run;
  }

  // ---------------------------------------------------------------- when the counter is exact

  /** There is no `e` after event i. */
  predicate NoneAfter(run: seq<Event>, i: nat, e: Event) {
    forall l :: i < l < |run| ==> run[l] != e
  }

  /** A restart since the last good sample. */
  ghost predicate Unseen(run: seq<Event>) {
    exists a :: 0 <= a < |run| && run[a] == Restart && NoneAfter(run, a, LOOK)
  }

  /** A restart since the last reset. */
  ghost predicate Standing(run: seq<Event>) {
    exists a :: 0 <= a < |run| && run[a] == Restart && NoneAfter(run, a, Reset)
  }

  /** A reset since the last good sample. */
  ghost predicate WasReset(run: seq<Event>) {
    exists r :: 0 <= r < |run| && run[r] == Reset && NoneAfter(run, r, LOOK)
  }

  /** A restart and then a reset, both since the last good sample. */
  ghost predicate Wiped(run: seq<Event>) {
    exists a, r :: 0 <= a < r < |run| && run[a] == Restart && run[r] == Reset && NoneAfter(run, a, LOOK)
  }

  /** At the last good sample the unit had restarted since its last reset. */
  ghost predicate Mirrored(run: seq<Event>) {
    exists g :: 0 <= g < |run| && run[g] == LOOK && NoneAfter(run, g, LOOK) && Standing(run[..g])
  }

  /** A good sample now would miss a restart: one was reset away unseen, or some hide behind the
      higher count of the sample before the reset. */
  ghost predicate Loses(run: seq<Event>) {
    Wiped(run) || (WasReset(run) && Standing(run) && Mirrored(run))
  }

  lemma NoneAfterSnoc(run: seq<Event>, e: Event, x: Event)
    ensures forall i: nat :: i < |run| ==> (NoneAfter(run + [e], i, x) <==> NoneAfter(run, i, x) && e != x)
    ensures forall i :: 0 <= i < |run| ==> (run + [e])[i] == run[i] && (run + [e])[..i] == run[..i]
    ensures NoneAfter(run + [e], |run|, x) && (run + [e])[|run|] == e && (run + [e])[..|run|] == run
  {
    assert forall i :: 0 <= i < |run| ==> (run + [e])[i] == run[i];
    assert (run + [e])[|run|] == e;
    forall i: nat | i < |run| && NoneAfter(run + [e], i, x) ensures NoneAfter(run, i, x) && e != x {
      assert (run + [e])[|run|] != x;
      assert forall l :: i < l < |run| ==> run[l] == (run + [e])[l];
    }
  }

  lemma UnseenSnoc(run: seq<Event>, e: Event)
    ensures Unseen(run + [e]) <==> e == Restart || (Unseen(run) && e != LOOK)
  {
    NoneAfterSnoc(run, e, LOOK);
    hide NoneAfter;
    var more, n := run + [e], |run|;
    if Unseen(run) && e != LOOK {
      var a :| 0 <= a < n && run[a] == Restart && NoneAfter(run, a, LOOK);
      assert more[a] == Restart && NoneAfter(more, a, LOOK);
    }
    if e == Restart {
      assert more[n] == Restart && NoneAfter(more, n, LOOK);
    }
    if Unseen(more) {
      var a :| 0 <= a < |more| && more[a] == Restart && NoneAfter(more, a, LOOK);
      if a < n {
        assert run[a] == Restart && NoneAfter(run, a, LOOK);
      }
    }
  }

  lemma StandingSnoc(run: seq<Event>, e: Event)
    ensures Standing(run + [e]) <==> e == Restart || (Standing(run) && e != Reset)
  {
    NoneAfterSnoc(run, e, Reset);
    hide NoneAfter;
    var more, n := run + [e], |run|;
    if Standing(run) && e != Reset {
      var a :| 0 <= a < n && run[a] == Restart && NoneAfter(run, a, Reset);
      assert more[a] == Restart && NoneAfter(more, a, Reset);
    }
    if e == Restart {
      assert more[n] == Restart && NoneAfter(more, n, Reset);
    }
    if Standing(more) {
      var a :| 0 <= a < |more| && more[a] == Restart && NoneAfter(more, a, Reset);
      if a < n {
        assert run[a] == Restart && NoneAfter(run, a, Reset);
      }
    }
  }

  lemma WasResetSnoc(run: seq<Event>, e: Event)
    ensures WasReset(run + [e]) <==> e == Reset || (WasReset(run) && e != LOOK)
  {
    NoneAfterSnoc(run, e, LOOK);
    hide NoneAfter;
    var more, n := run + [e], |run|;
    if WasReset(run) && e != LOOK {
      var a :| 0 <= a < n && run[a] == Reset && NoneAfter(run, a, LOOK);
      assert more[a] == Reset && NoneAfter(more, a, LOOK);
    }
    if e == Reset {
      assert more[n] == Reset && NoneAfter(more, n, LOOK);
    }
    if WasReset(more) {
      var a :| 0 <= a < |more| && more[a] == Reset && NoneAfter(more, a, LOOK);
      if a < n {
        assert run[a] == Reset && NoneAfter(run, a, LOOK);
      }
    }
  }

  lemma WipedSnoc(run: seq<Event>, e: Event)
    ensures Wiped(run + [e]) <==> (Wiped(run) && e != LOOK) || (e == Reset && Unseen(run))
  {
    NoneAfterSnoc(run, e, LOOK);
    hide NoneAfter;
    var more, n := run + [e], |run|;
    if Wiped(run) && e != LOOK {
      var a, r :| 0 <= a < r < n && run[a] == Restart && run[r] == Reset && NoneAfter(run, a, LOOK);
      assert more[a] == Restart && more[r] == Reset && NoneAfter(more, a, LOOK);
    }
    if Unseen(run) && e == Reset {
      var a :| 0 <= a < n && run[a] == Restart && NoneAfter(run, a, LOOK);
      assert more[a] == Restart && more[n] == Reset && NoneAfter(more, a, LOOK);
    }
    if Wiped(more) {
      var a, r :| 0 <= a < r < |more| && more[a] == Restart && more[r] == Reset && NoneAfter(more, a, LOOK);
      assert run[a] == Restart && NoneAfter(run, a, LOOK);
      if r < n {
        assert run[r] == Reset;
      }
    }
  }

  lemma MirroredSnoc(run: seq<Event>, e: Event)
    ensures Mirrored(run + [e]) <==> if e == LOOK then Standing(run) else Mirrored(run)
  {
    NoneAfterSnoc(run, e, LOOK);
    hide NoneAfter, Standing;
    var more, n := run + [e], |run|;
    if Mirrored(run) && e != LOOK {
      var g :| 0 <= g < n && run[g] == LOOK && NoneAfter(run, g, LOOK) && Standing(run[..g]);
      assert more[g] == LOOK && NoneAfter(more, g, LOOK) && Standing(more[..g]);
    }
    if e == LOOK && Standing(run) {
      assert more[n] == LOOK && NoneAfter(more, n, LOOK) && Standing(more[..n]);
    }
    if Mirrored(more) {
      var g :| 0 <= g < |more| && more[g] == LOOK && NoneAfter(more, g, LOOK) && Standing(more[..g]);
      if g < n {
        assert run[g] == LOOK && NoneAfter(run, g, LOOK) && Standing(run[..g]);
      }
    }
  }

  /** How each of these changes with one more event. */
  lemma SinceSnoc(run: seq<Event>, e: Event)
    ensures Unseen(run + [e]) <==> e == Restart || (Unseen(run) && e != LOOK)
    ensures Standing(run + [e]) <==> e == Restart || (Standing(run) && e != Reset)
    ensures WasReset(run + [e]) <==> e == Reset || (WasReset(run) && e != LOOK)
    ensures Wiped(run + [e]) <==> (Wiped(run) && e != LOOK) || (e == Reset && Unseen(run))
    ensures Mirrored(run + [e]) <==> if e == LOOK then Standing(run) else Mirrored(run)
  {
    NoneAfterSnoc(run, e, LOOK);
    NoneAfterSnoc(run, e, Reset);
    hide NoneAfter;
    UnseenSnoc(run, e);
    StandingSnoc(run, e);
    WasResetSnoc(run, e);
    WipedSnoc(run, e);
    MirroredSnoc(run, e);
  }

  /** The model's quantities say just that. */
  lemma {:induction false} WorldSays(run: seq<Event>)
    ensures var w := After(run);
            && (w.reset <==> WasReset(run)) && (w.count > 0 <==> Standing(run)) && (w.mirror > 0 <==> Mirrored(run))
            && (w.wiped > 0 <==> Wiped(run))
            && (Unseen(run) <==> if w.reset then w.wiped > 0 || w.count > 0 else w.count > w.mirror)
  {
    hide Unseen, Standing, WasReset, Wiped, Mirrored;
    if run == [] {
      NothingSince();
    } else {
      var before, e := run[..|run| - 1], run[|run| - 1];
      WorldSays(before);
      RestartConservation(before);
      SinceSnoc(before, e);
      assert run == before + [e];
    }
  }

  lemma NothingSince()
    ensures !Unseen([]) && !Standing([]) && !WasReset([]) && !Wiped([]) && !Mirrored([])
  {
  }

  /** No restart is missed exactly when no good sample comes at a point where it would miss one. */
  lemma {:induction false} LostNothingIff(run: seq<Event>)
    ensures Lost(run) == 0 <==> forall i :: 0 <= i < |run| && run[i] == LOOK ==> !Loses(run[..i])
  {
    if run != [] {
      var before := run[..|run| - 1];
      LostNothingIff(before);
      RestartConservation(before);
      WorldSays(before);
      hide Loses;
      assert Loses(before) <==> Missed(After(before)) > 0 by { LosesIff(before); }
      assert forall i :: 0 <= i < |before| ==> before[..i] == run[..i];
      assert forall i :: 0 <= i < |run| ==> i < |before| || run[..i] == before;
    }
  }

  lemma LosesIff(run: seq<Event>)
    ensures Loses(run) <==> Missed(After(run)) > 0
  {
    RestartConservation(run);
    WorldSays(run);
    hide Standing, WasReset, Wiped, Mirrored, After;
  }

  /** Right after a good sample the counter is the true number of restarts exactly when no good sample
      of the run came at a point where it would miss one. */
  lemma ExactIff(run: seq<Event>)
    requires run != [] && run[|run| - 1] == LOOK
    ensures After(run).total == After(run).restarts
       <==> forall i :: 0 <= i < |run| && run[i] == LOOK ==> !Loses(run[..i])
  {
    hide Loses;
    RestartConservation(run);
    LostNothingIff(run);
  }

  /** Without resets the counter is exact after every good sample. */
  lemma NoResetIsExact(run: seq<Event>)
    requires run != [] && run[|run| - 1] == LOOK && Reset !in run
    ensures After(run).total == After(run).restarts
  {
    ExactIff(run);
    forall i | 0 <= i < |run| ensures !Loses(run[..i]) {
      assert forall r :: 0 <= r < i ==> run[..i][r] == run[r];
    }
  }

  /** So it is when good samples come right before and right after each reset. */
  lemma BracketedIsExact(run: seq<Event>)
    requires run != [] && run[|run| - 1] == LOOK
    requires forall r :: 0 <= r < |run| && run[r] == Reset ==> 0 < r && run[r - 1] == LOOK && run[r + 1] == LOOK
    ensures After(run).total == After(run).restarts
  {
    ExactIff(run);
    hide Loses;
    forall i | 0 <= i < |run| && run[i] == LOOK ensures !Loses(run[..i]) {
      BracketedLosesNothing(run, i);
    }
  }

  lemma BracketedLosesNothing(run: seq<Event>, i: nat)
    requires i < |run|
    requires forall r :: 0 <= r < i && run[r] == Reset ==> 0 < r && run[r - 1] == LOOK && run[r + 1] == LOOK
    ensures !Loses(run[..i])
  {
    var before := run[..i];
    assert forall r :: 0 <= r < i ==> before[r] == run[r];
    forall a, r | 0 <= a < r < i && before[a] == Restart && before[r] == Reset ensures !NoneAfter(before, a, LOOK) {
      assert before[r - 1] == LOOK;
    }
    forall r, a | 0 <= r < i && before[r] == Reset && 0 <= a < i && before[a] == Restart
      ensures !NoneAfter(before, r, LOOK) || !NoneAfter(before, a, Reset)
    {
      if r + 1 < i {
        assert before[r + 1] == LOOK;
      }
    }
  }

  /** Otherwise it need not be: a restart that is reset away before anyone looks is never counted. */
  lemma WipedRestartIsLost()
    ensures var run := [LOOK, Restart, Reset, LOOK]; After(run).total == 0 && After(run).restarts == 1
  {
    hide After;
    AfterSnoc([], LOOK);
    AfterSnoc([LOOK], Restart);
    AfterSnoc([LOOK, Restart], Reset);
    AfterSnoc([LOOK, Restart, Reset], LOOK);
    assert [] + [LOOK] == [LOOK] && [LOOK] + [Restart] == [LOOK, Restart];
    assert [LOOK, Restart] + [Reset] == [LOOK, Restart, Reset];
    assert [LOOK, Restart, Reset] + [LOOK] == [LOOK, Restart, Reset, LOOK];
  }

  /** Nor when restarts after a reset hide behind the higher count seen before it. */
  lemma HiddenRestartIsLost()
    ensures var run := [Restart, LOOK, Reset, Restart, LOOK]; After(run).total == 1 && After(run).restarts == 2
  {
    hide After;
    AfterSnoc([], Restart);
    AfterSnoc([Restart], LOOK);
    AfterSnoc([Restart, LOOK], Reset);
    AfterSnoc([Restart, LOOK, Reset], Restart);
    AfterSnoc([Restart, LOOK, Reset, Restart], LOOK);
    assert [] + [Restart] == [Restart] && [Restart] + [LOOK] == [Restart, LOOK];
    assert [Restart, LOOK] + [Reset] == [Restart, LOOK, Reset];
    assert [Restart, LOOK, Reset] + [Restart] == [Restart, LOOK, Reset, Restart];
    assert [Restart, LOOK, Reset, Restart] + [LOOK] == [Restart, LOOK, Reset, Restart, LOOK];
  }

  lemma AfterSnoc(run: seq<Event>, e: Event)
    ensures After([]) == World(0, 0, 0, 0, false, 0) && After(run + [e]) == Happen(After(run), e)
  {
    assert (run + [e])[..|run|] == run;
  }
}
