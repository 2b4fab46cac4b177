/** Collectors that probe several components in one tick: every component's gauge depends on its
    own probe alone, and the error is that of the first failing component. */
module BestEffort {
  import opened Text
  import opened Logtail
  import Config
  import Logfs

  // ---------------------------------------------------------------- log mtimes

  /** config.AllComponents, in the order a tick visits them. */
  const ALL_COMPONENTS := [Config.Visor, Config.BridgeVoter, Config.ReferenceOracle, Config.OutcomeVoter]

  /** What a probe does to a gauge: a failure keeps it, an empty directory zeroes it. */
  function Kept(probe: Logfs.Latest, before: int): int {
    match probe
    case NoDir => before
    case Empty => 0
    case File(mtime, _) => Unix(mtime)
  }

  /** A gauge after a probe: the time of the newest file; 0 if there is none; as before if the directory
      cannot be read. */
  predicate Shows(probe: Logfs.Latest, before: int, after: int) {
    match probe
    case NoDir => after == before
    case Empty => after == 0
    case File(mtime, _) => InSecond(after, mtime)
  }

  class LogMtimeCollector {
    const visorLogDir: string
    const componentLogDir: string
    var mtime: map<Config.Component, int>

    ghost predicate Valid()
      reads this
    {
      forall c: Config.Component :: c in mtime
    }

    constructor (visorLogDir: string, componentLogDir: string)
      ensures this.visorLogDir == visorLogDir && this.componentLogDir == componentLogDir
      ensures Valid() && forall c: Config.Component :: mtime[c] == 0
    {
      this.visorLogDir, this.componentLogDir := visorLogDir, componentLogDir;
      mtime := map[Config.Visor := 0, Config.BridgeVoter := 0, Config.ReferenceOracle := 0, Config.OutcomeVoter := 0];
      new;
      forall c: Config.Component ensures c in mtime && mtime[c] == 0 {
        match c
        case Visor =>
        case BridgeVoter =>
        case ReferenceOracle =>
        case OutcomeVoter =>
      }
    }

    /** visor and its children log under different directories. */
    function DirFor(c: Config.Component): string {
      if c == Config.Visor then visorLogDir else componentLogDir + "/" + c.Name()
    }

    method Tick(latest: string -> Logfs.Latest) returns (failed: Option<Config.Component>)
      requires Valid()
      modifies this`mtime
      ensures Valid()
      ensures forall c: Config.Component :: mtime[c] == Kept(latest(DirFor(c)), old(mtime[c]))
      ensures forall c: Config.Component ::
                Shows(latest(if c == Config.Visor then visorLogDir else componentLogDir + "/" + c.Name()),
                      old(mtime[c]), mtime[c])
      ensures var fails := (c: Config.Component) =>
                latest(if c == Config.Visor then visorLogDir else componentLogDir + "/" + c.Name()).NoDir?;
              failed == if fails(Config.Visor) then Some(Config.Visor)
                        else if fails(Config.BridgeVoter) then Some(Config.BridgeVoter)
                        else if fails(Config.ReferenceOracle) then Some(Config.ReferenceOracle)
                        else if fails(Config.OutcomeVoter) then Some(Config.OutcomeVoter)
                        else None
    {
      hide Config.Component.Name;
      failed := None;
      ghost var before := mtime;
      for i := 0 to |ALL_COMPONENTS|
        invariant Valid()
        invariant forall j :: 0 <= j < i ==>
            mtime[ALL_COMPONENTS[j]] == Kept(latest(DirFor(ALL_COMPONENTS[j])), before[ALL_COMPONENTS[j]])
        invariant forall j :: i <= j < |ALL_COMPONENTS| ==> mtime[ALL_COMPONENTS[j]] == before[ALL_COMPONENTS[j]]
        invariant failed.None? <==> forall j :: 0 <= j < i ==> !latest(DirFor(ALL_COMPONENTS[j])).NoDir?
        invariant failed.Some? ==> exists k :: 0 <= k < i && failed.value == ALL_COMPONENTS[k]
                                     && latest(DirFor(ALL_COMPONENTS[k])).NoDir?
                                     && forall j :: 0 <= j < k ==> !latest(DirFor(ALL_COMPONENTS[j])).NoDir?
      {
        var comp := ALL_COMPONENTS[i];
        var probe := latest(DirFor(comp));
        if probe.NoDir? {
          if failed.None? {
            failed := Some(comp);
          }
          continue;
        }
        if probe.Empty? {
          mtime := mtime[comp := 0];
          continue;
        }
        mtime := mtime[comp := Unix(probe.mtime)];
      }
      assert ALL_COMPONENTS[0] == Config.Visor && ALL_COMPONENTS[1] == Config.BridgeVoter
          && ALL_COMPONENTS[2] == Config.ReferenceOracle && ALL_COMPONENTS[3] == Config.OutcomeVoter;
    }

    /** The ticker: after any number of ticks each gauge depends on the history of its own directory
        alone. */
    method Start(history: seq<string -> Logfs.Latest>)
      requires Valid()
      modifies this`mtime
      ensures Valid()
      ensures forall c: Config.Component :: mtime[c] == GaugeAfter(old(mtime[c]), Found(history, DirFor(c)))
    {
      hide Kept, Config.Component.Name, GaugeAfter, Found;
      ghost var before := mtime;
      forall c: Config.Component ensures GaugeAfter(before[c], Found(history[..0], DirFor(c))) == before[c] {
        FoundStep(history, 0, before[c], DirFor(c));
      }
      for i := 0 to |history|
        invariant Valid()
        invariant forall c: Config.Component :: mtime[c] == GaugeAfter(before[c], Found(history[..i], DirFor(c)))
      {
        var _ := Tick(history[i]);
        forall c: Config.Component ensures mtime[c] == GaugeAfter(before[c], Found(history[..i + 1], DirFor(c))) {
          FoundStep(history, i, before[c], DirFor(c));
        }
      }
      assert history[..|history|] == history;
    }
  }

  lemma FoundStep(history: seq<string -> Logfs.Latest>, i: nat, start: int, dir: string)
    requires i <= |history|
    ensures GaugeAfter(start, Found(history[..0], dir)) == start
    ensures i < |history| ==>
              GaugeAfter(start, Found(history[..i + 1], dir))
                  == Kept(history[i](dir), GaugeAfter(start, Found(history[..i], dir)))
  {
    hide Kept;
    if i < |history| {
      assert history[..i + 1][..i] == history[..i];
      var before := Found(history[..i], dir);
      assert (before + [history[i](dir)])[..|before|] == before;
    }
  }

  /** A component's gauge after any history of its own probes. */
  function GaugeAfter(start: int, probes: seq<Logfs.Latest>): int {
    if probes == [] then start else Kept(probes[|probes| - 1], GaugeAfter(start, probes[..|probes| - 1]))
  }

  /** What a history of ticks found in one directory. */
  function Found(history: seq<string -> Logfs.Latest>, dir: string): seq<Logfs.Latest> {
    if history == [] then [] else Found(history[..|history| - 1], dir) + [history[|history| - 1](dir)]
  }

  function Answers(): Logfs.Latest -> bool { (probe: Logfs.Latest) => !probe.NoDir? }

  /** It shows the last probe that succeeded, however many have failed since, or what it did before. */
  lemma {:induction false} LastSuccessKept(start: int, probes: seq<Logfs.Latest>)
    ensures var last := LastWhere(probes, Answers());
            GaugeAfter(start, probes) == if last.Some? then Kept(probes[last.value], 0) else start
  {
    if probes != [] {
      LastSuccessKept(start, probes[..|probes| - 1]);
    }
  }

  // ---------------------------------------------------------------- binaries

  /** Go's string order. */
  predicate Below(a: string, b: string) {
    b != "" && (a == "" || a[0] < b[0] || (a[0] == b[0] && Below(a[1..], b[1..])))
  }

  lemma {:induction false} BelowIrreflexive(a: string)
    ensures !Below(a, a)
  {
    if a != "" {
      BelowIrreflexive(a[1..]);
    }
  }

  lemma {:induction false} BelowTotal(a: string, b: string)
    ensures a == b || Below(a, b) || Below(b, a)
  {
    if a != "" && b != "" {
      BelowTotal(a[1..], b[1..]);
      assert a == [a[0]] + a[1..] && b == [b[0]] + b[1..];
    }
  }

  lemma {:induction false} BelowTransitive(a: string, b: string, c: string)
    requires Below(a, b) && Below(b, c)
    ensures Below(a, c)
  {
    if a != "" && a[0] == b[0] && b[0] == c[0] {
      BelowTransitive(a[1..], b[1..], c[1..]);
    }
  }

  /** `a` comes first: where the two part, it has ended or has the smaller character. */
  ghost predicate Precedes(a: string, b: string) {
    exists k: nat :: k <= |a| && k < |b| && a[..k] == b[..k] && (k == |a| || a[k] < b[k])
  }

  lemma {:induction false} BelowIff(a: string, b: string)
    ensures Below(a, b) <==> Precedes(a, b)
  {
    forall k: nat | 0 < k <= |a| && k <= |b| && a[..k] == b[..k] ensures a[0] == b[0] {
      assert a[..k][0] == a[0] && b[..k][0] == b[0];
    }
    if b != "" {
      if a == "" || a[0] < b[0] {
        assert a[..0] == b[..0] == "";
      } else if a[0] == b[0] {
        BelowIff(a[1..], b[1..]);
        if Below(a[1..], b[1..]) {
          var k: nat :| k <= |a[1..]| && k < |b[1..]| && a[1..][..k] == b[1..][..k]
            && (k == |a[1..]| || a[1..][k] < b[1..][k]);
          assert a[..k + 1] == [a[0]] + a[1..][..k] && b[..k + 1] == [b[0]] + b[1..][..k];
        }
        if Precedes(a, b) {
          var k: nat :| k <= |a| && k < |b| && a[..k] == b[..k] && (k == |a| || a[k] < b[k]);
          assert k > 0;
          assert a[1..][..k - 1] == a[..k][1..] && b[1..][..k - 1] == b[..k][1..];
        }
      }
    }
  }

  /** Strictly increasing in the order of strings. */
  ghost predicate Sorted(xs: seq<string>) {
    forall i, j :: 0 <= i < j < |xs| ==> Precedes(xs[i], xs[j])
  }

  lemma SortedDistinct(xs: seq<string>)
    requires Sorted(xs)
    ensures forall i, j :: 0 <= i < j < |xs| ==> xs[i] != xs[j]
  {
    forall i | 0 <= i < |xs| ensures !Precedes(xs[i], xs[i]) {
      BelowIrreflexive(xs[i]);
      BelowIff(xs[i], xs[i]);
    }
  }

  /** Puts one more name in its place. */
  method Insert(xs: seq<string>, x: string) returns (r: seq<string>)
    requires Sorted(xs) && x !in xs
    ensures Sorted(r) && forall y :: y in r <==> y in xs || y == x
  {
    forall a: string, b: string ensures Below(a, b) <==> Precedes(a, b) {
      BelowIff(a, b);
    }
    hide Precedes;
    var i := 0;
    while i < |xs| && Below(xs[i], x)
      invariant i <= |xs| && forall j :: 0 <= j < i ==> Below(xs[j], x)
    {
      i := i + 1;
    }
    r := xs[..i] + [x] + xs[i..];
    forall j | i <= j < |xs| ensures Below(x, xs[j]) {
      BelowTotal(x, xs[i]);
      if i < j {
        assert Precedes(xs[i], xs[j]);
        BelowTransitive(x, xs[i], xs[j]);
      }
    }
  }

  /** componentsSorted: the keys in order, however the map is iterated. */
  method ComponentsSorted(targets: map<string, string>) returns (out: seq<string>)
    ensures Sorted(out) && forall y :: y in out <==> y in targets
  {
    out := [];
    var todo := targets.Keys;
    while todo != {}
      invariant todo <= targets.Keys && Sorted(out)
      invariant forall y :: y in out <==> y in targets && y !in todo
    {
      var k :| k in todo;
      out := Insert(out, k);
      todo := todo - {k};
    }
  }

  class BinaryCollector {
    const targets: map<string, string>
    const remoteURL: string
    var localMtime: map<string, int>
    var remoteMtime: Option<int>
    var remoteOK: Option<int>
    var lastRemote: int
    var hasRemote: bool

    /** Once there has been a remote answer, the gauge shows the last one. */
    ghost predicate Valid()
      reads this
    {
      hasRemote ==> remoteMtime == Some(lastRemote)
    }

    constructor (targets: map<string, string>, remoteURL: string)
      ensures Valid() && this.targets == targets && this.remoteURL == remoteURL
      ensures localMtime == map[] && remoteMtime == None && remoteOK == None && !hasRemote
    {
      this.targets, this.remoteURL := targets, remoteURL;
      localMtime, remoteMtime, remoteOK, lastRemote, hasRemote := map[], None, None, 0, false;
    }

    /** Whether the probe of a component's binary fails. */
    predicate Fails(name: string, probe: string -> Option<Time>) {
      name in targets && targets[name] != "" && probe(targets[name]).None?
    }

    predicate Answered(name: string, probe: string -> Option<Time>) {
      name in targets && targets[name] != "" && probe(targets[name]).Some?
    }

    /** Each gauge follows its own binary; the error, if any, is that of the alphabetically first
        component that fails. */
    method TickLocal(probe: string -> Option<Time>) returns (failed: Option<string>)
      modifies this`localMtime
      ensures forall name :: name in localMtime <==> name in old(localMtime) || Answered(name, probe)
      ensures forall name :: name in localMtime ==>
                localMtime[name] == if Answered(name, probe) then Unix(probe(targets[name]).value)
                    else old(localMtime)[name]
      ensures forall name :: name in targets && targets[name] != "" && probe(targets[name]).Some? ==>
                name in localMtime && InSecond(localMtime[name], probe(targets[name]).value)
      ensures forall name :: !(name in targets && targets[name] != "" && probe(targets[name]).Some?) ==>
                Shown(localMtime, name) == Shown(old(localMtime), name)
      ensures failed.None? <==> forall name :: name in targets && targets[name] != "" ==> probe(targets[name]).Some?
      ensures failed.Some? ==>
                && failed.value in targets && targets[failed.value] != "" && probe(targets[failed.value]).None?
                && forall name ::
                     (name in targets && targets[name] != "" && probe(targets[name]).None?
                      && name != failed.value) ==> Precedes(failed.value, name)
    {
      hide Precedes;
      failed := None;
      ghost var before := localMtime;
      var names := ComponentsSorted(targets);
      ghost var done: set<string> := {};
      for i := 0 to |names|
        invariant forall j :: 0 <= j < |names| ==> (names[j] in done <==> j < i)
        invariant forall name :: name in done ==> name in targets
        invariant forall name :: name in localMtime <==> name in before || (name in done && Answered(name, probe))
        invariant forall name :: name in localMtime ==>
                    localMtime[name] == if name in done && Answered(name, probe) then Unix(probe(targets[name]).value)
                        else before[name]
        invariant failed.None? ==> forall name :: name in done ==> !Fails(name, probe)
        invariant failed.Some? ==> Fails(failed.value, probe) && failed.value in done
                                   && forall name :: name in done && Fails(name, probe) && name != failed.value ==>
                                        Precedes(failed.value, name)
      {
        var name, path := names[i], targets[names[i]];
        SortedDistinct(names);
        assert failed.Some? ==> failed.value in names && Precedes(failed.value, name);
        done := done + {name};
        if path == "" {
          continue;
        }
        var mt := probe(path);
        if mt.None? {
          if failed.None? {
            failed := Some(name);
          }
          continue;
        }
        localMtime := localMtime[name := Unix(mt.value)];
      }
      assert forall name :: name in targets ==> name in names;
      assert failed.None? ==> forall name :: name in targets && targets[name] != "" ==> !Fails(name, probe);
    }

    /** A failed HEAD request flips the check gauge and keeps the last known time. */
    method TickRemote(answer: Option<Time>) returns (failed: bool)
      requires Valid()
      modifies this`remoteMtime, this`remoteOK, this`lastRemote, this`hasRemote
      ensures Valid()
      ensures failed <==> remoteURL != "" && answer.None?
      ensures remoteURL == "" ==> remoteOK == old(remoteOK)
      ensures remoteURL != "" ==> remoteOK == Some(if answer.Some? then 1 else 0)
      ensures remoteMtime == if remoteURL != "" && answer.Some? then Some(Unix(answer.value)) else old(remoteMtime)
      ensures remoteURL != "" && answer.Some? ==> remoteMtime.Some? && InSecond(remoteMtime.value, answer.value)
      ensures hasRemote == (old(hasRemote) || (remoteURL != "" && answer.Some?))
    {
      if remoteURL == "" {
        return false;
      }
      if answer.None? {
        remoteOK := Some(0);
        if hasRemote {
          remoteMtime := Some(lastRemote);
        }
        return true;
      }
      remoteOK := Some(1);
      lastRemote := Unix(answer.value);
      hasRemote := true;
      remoteMtime := Some(lastRemote);
      return false;
    }

    /** The local ticker: each gauge depends on the history of its own binary alone. */
    method StartLocal(history: seq<string -> Option<Time>>)
      modifies this`localMtime
      ensures forall name :: Shown(localMtime, name) ==
                if name in targets && targets[name] != ""
                then MtimeAfter(Shown(old(localMtime), name), Probed(history, targets[name]))
                else Shown(old(localMtime), name)
    {
      hide Precedes, MtimeAfter, Probed;
      ghost var before := localMtime;
      forall name | name in targets && targets[name] != ""
        ensures MtimeAfter(Shown(before, name), Probed(history[..0], targets[name])) == Shown(before, name)
      {
        ProbedStep(history, 0, Shown(before, name), targets[name]);
      }
      for i := 0 to |history|
        invariant forall name :: Shown(localMtime, name) ==
                    if name in targets && targets[name] != ""
                    then MtimeAfter(Shown(before, name), Probed(history[..i], targets[name]))
                    else Shown(before, name)
      {
        forall name | name in targets && targets[name] != ""
          ensures MtimeAfter(Shown(before, name), Probed(history[..i + 1], targets[name]))
               == MtimeStep(MtimeAfter(Shown(before, name), Probed(history[..i], targets[name])),
                            history[i](targets[name]))
        {
          ProbedStep(history, i, Shown(before, name), targets[name]);
        }
        ghost var was := localMtime;
        var _ := TickLocal(history[i]);
        forall name
          ensures Shown(localMtime, name) == if name in targets && targets[name] != ""
                                             then MtimeStep(Shown(was, name), history[i](targets[name]))
                                             else Shown(was, name)
        {
        }
      }
      assert history[..|history|] == history;
    }

    /** The remote ticker: the gauge keeps the last good answer, the check gauge shows the last tick. */
    method StartRemote(answers: seq<Option<Time>>)
      requires Valid()
      modifies this`remoteMtime, this`remoteOK, this`lastRemote, this`hasRemote
      ensures Valid()
      ensures remoteMtime == if remoteURL == "" then old(remoteMtime) else MtimeAfter(old(remoteMtime), answers)
      ensures remoteURL == "" || answers == [] ==> remoteOK == old(remoteOK)
      ensures remoteURL != "" && answers != [] ==>
                remoteOK == Some(if answers[|answers| - 1].Some? then 1 else 0)
    {
      for i := 0 to |answers|
        invariant Valid()
        invariant remoteMtime == if remoteURL == "" then old(remoteMtime)
                                 else MtimeAfter(old(remoteMtime), answers[..i])
        invariant remoteURL == "" || i == 0 ==> remoteOK == old(remoteOK)
        invariant remoteURL != "" && i > 0 ==> remoteOK == Some(if answers[i - 1].Some? then 1 else 0)
      {
        assert answers[..i + 1][..i] == answers[..i];
        var _ := TickRemote(answers[i]);
      }
      assert answers[..|answers|] == answers;
    }
  }

  function Shown(gauges: map<string, int>, name: string): Option<int> {
    if name in gauges then Some(gauges[name]) else None
  }

  function MtimeStep(before: Option<int>, probe: Option<Time>): Option<int> {
    if probe.Some? then Some(Unix(probe.value)) else before
  }

  /** A gauge after any history of probes of its file. */
  function MtimeAfter(start: Option<int>, probes: seq<Option<Time>>): Option<int> {
    if probes == [] then start else MtimeStep(MtimeAfter(start, probes[..|probes| - 1]), probes[|probes| - 1])
  }

  function Probed(history: seq<string -> Option<Time>>, path: string): seq<Option<Time>> {
    if history == [] then [] else Probed(history[..|history| - 1], path) + [history[|history| - 1](path)]
  }

  lemma ProbedStep(history: seq<string -> Option<Time>>, i: nat, start: Option<int>, path: string)
    requires i <= |history|
    ensures MtimeAfter(start, Probed(history[..0], path)) == start
    ensures i < |history| ==>
              MtimeAfter(start, Probed(history[..i + 1], path))
              == MtimeStep(MtimeAfter(start, Probed(history[..i], path)), history[i](path))
  {
    if i < |history| {
      assert history[..i + 1][..i] == history[..i];
      var before := Probed(history[..i], path);
      assert (before + [history[i](path)])[..|before|] == before;
    }
  }

  function Good(): Option<Time> -> bool { (probe: Option<Time>) => probe.Some? }

  /** It shows the last good probe, however many have failed since, or what it did before. */
  lemma {:induction false} LastGoodKept(start: Option<int>, probes: seq<Option<Time>>)
    ensures var last := LastWhere(probes, Good());
            MtimeAfter(start, probes) == if last.Some? then Some(Unix(probes[last.value].value)) else start
  {
    if probes != [] {
      LastGoodKept(start, probes[..|probes| - 1]);
    }
  }
}
