/** Two tailers feeding one collector through bounded channels: every interleaving of their sends
    with the collector's select. The two sides are the tailers; what a match does to the metrics is
    a parameter. */
module FanIn {
  import opened Text

  const CAPACITY := 64

  datatype Side = Bridge | Oracle

  function Other(side: Side): Side { if side.Bridge? then Oracle else Bridge }

  /** One value per side. */
  datatype Both<+T> = Both(bridge: T, oracle: T) {
    function Of(side: Side): T { if side.Bridge? then bridge else oracle }
  }

  function Put<T>(both: Both<T>, side: Side, x: T): Both<T> {
    if side.Bridge? then both.(bridge := x) else both.(oracle := x)
  }

  /** One tailer's channel: what it will still emit, what is in the channel, what was received. */
  datatype Channel<M> = Channel(pending: seq<M>, buffer: seq<M>, received: seq<M>, closed: bool)

  /** `open` are the sides the select still listens to (the others have been set to nil); `left` is
      whether the select has taken ctx.Done. */
  datatype State<M, S> = State(channels: Both<Channel<M>>, open: Both<bool>, metrics: S,
                               cancelled: bool, left: bool, returned: bool)

  datatype Action =
    | Send(side: Side)       // the tailer's send goes through
    | Close(side: Side)      // the tailer, which stops only when cancelled, closes its channel
    | Receive(side: Side)    // the select takes a match and classifies it
    | SeeClosed(side: Side)  // the select notices a closed channel
    | Cancel                 // the context is cancelled
    | Leave                  // the select takes ctx.Done

  type Classifier<!M, !S> = (Side, S, M) -> S

  ghost predicate Enabled<M, S>(s: State<M, S>, a: Action)
  {
    match a
    case Send(side) =>
      var c := s.channels.Of(side);
      !c.closed && c.pending != [] && |c.buffer| < CAPACITY
    case Close(side) => !s.channels.Of(side).closed && s.cancelled
    case Receive(side) =>
      !s.returned && s.open.Of(side) && s.channels.Of(side).buffer != []
    case SeeClosed(side) =>
      !s.returned && s.open.Of(side) && s.channels.Of(side).closed && s.channels.Of(side).buffer == []
    case Cancel => !s.cancelled
    case Leave => !s.returned && s.cancelled
  }

  ghost function Do<M, S>(classify: Classifier<M, S>, s: State<M, S>, a: Action): State<M, S>
    requires Enabled(s, a)
  {
    match a
    case Send(side) =>
      var c := s.channels.Of(side);
      s.(channels := Put(s.channels, side, c.(pending := c.pending[1..], buffer := c.buffer + [c.pending[0]])))
    case Close(side) =>
      s.(channels := Put(s.channels, side, s.channels.Of(side).(closed := true)))
    case Receive(side) =>
      var c := s.channels.Of(side);
      var m := c.buffer[0];
      s.(channels := Put(s.channels, side, c.(buffer := c.buffer[1..], received := c.received + [m])),
         metrics := classify(side, s.metrics, m))
    case SeeClosed(side) =>
      s.(open := Put(s.open, side, false), returned := !s.open.Of(Other(side)))
    case Cancel => s.(cancelled := true)
    case Leave => s.(left := true, returned := true)
  }

  ghost predicate Legal<M, S>(classify: Classifier<M, S>, s: State<M, S>, run: seq<Action>)
    decreases |run|
  {
    run != [] ==> Enabled(s, run[0]) && Legal(classify, Do(classify, s, run[0]), run[1..])
  }

  ghost function After<M, S>(classify: Classifier<M, S>, s: State<M, S>, run: seq<Action>): State<M, S>
    requires Legal(classify, s, run)
    decreases |run|
  {
    if run == [] then s else After(classify, Do(classify, s, run[0]), run[1..])
  }

  ghost function Start<M, S>(emitted: Both<seq<M>>, metrics: S): State<M, S> {
    State(Both(Channel(emitted.bridge, [], [], false), Channel(emitted.oracle, [], [], false)),
          Both(true, true), metrics, false, false, false)
  }

  function Fold<M, S>(classify: Classifier<M, S>, side: Side, metrics: S, matches: seq<M>): S {
    if matches == [] then metrics
    else classify(side, Fold(classify, side, metrics, matches[..|matches| - 1]), matches[|matches| - 1])
  }

  /** What the two sides do to the metrics does not interfere. */
  ghost predicate Independent<M(!new), S(!new)>(classify: Classifier<M, S>) {
    forall s: S, m: M, n: M :: classify(Oracle, classify(Bridge, s, m), n)
        == classify(Bridge, classify(Oracle, s, n), m)
  }

  function Combined<M, S>(classify: Classifier<M, S>, metrics: S, bridge: seq<M>, oracle: seq<M>): S {
    Fold(classify, Oracle, Fold(classify, Bridge, metrics, bridge), oracle)
  }

  // ---------------------------------------------------------------- safety

  /** Received, then buffered, then pending is what the tailer emits; the select stops listening
      only to a channel that is closed and empty, and a channel is closed only on cancellation. */
  ghost predicate ChannelInv<M>(c: Channel<M>, emitted: seq<M>, open: bool, cancelled: bool) {
    && c.received + (c.buffer + c.pending) == emitted
    && |c.buffer| <= 64
    && (c.closed ==> cancelled)
    && (!open ==> c.closed && c.buffer == [])
  }

  /** Conservation: both channels, and metrics that are the fold of what was received. */
  ghost predicate Inv<M, S>(classify: Classifier<M, S>, emitted: Both<seq<M>>, start: S, s: State<M, S>) {
    && ChannelInv(s.channels.bridge, emitted.bridge, s.open.bridge, s.cancelled)
    && ChannelInv(s.channels.oracle, emitted.oracle, s.open.oracle, s.cancelled)
    && s.metrics == Combined(classify, start, s.channels.bridge.received, s.channels.oracle.received)
    && (s.returned ==> s.cancelled)
    && (s.left ==> s.returned)
    && (s.returned && !s.left ==> s.open == Both(false, false))
    && (s.open == Both(false, false) ==> s.returned)
  }

  /** Nothing is in flight. */
  predicate Settled<M(==), S>(s: State<M, S>) {
    && s.channels.bridge.pending == s.channels.bridge.buffer == []
    && s.channels.oracle.pending == s.channels.oracle.buffer == []
  }

  /** A tailer waits exactly when 64 matches are waiting to be received. */
  lemma SendWaitsIff<M, S>(s: State<M, S>, side: Side)
    requires !s.channels.Of(side).closed && s.channels.Of(side).pending != []
    ensures Enabled(s, Send(side)) <==> |s.channels.Of(side).buffer| < 64
  {
  }

  lemma FoldSnoc<M, S>(classify: Classifier<M, S>, side: Side, metrics: S, matches: seq<M>, m: M)
    ensures Fold(classify, side, metrics, matches + [m]) == classify(side, Fold(classify, side, metrics, matches), m)
  {
    assert (matches + [m])[..|matches|] == matches;
  }

  /** One more bridge match can be classified before or after all the oracle's. */
  lemma {:induction false} BridgeFirst<M(!new), S(!new)>(classify: Classifier<M, S>, metrics: S, m: M, oracle: seq<M>)
    requires Independent(classify)
    ensures Fold(classify, Oracle, classify(Bridge, metrics, m), oracle)
         == classify(Bridge, Fold(classify, Oracle, metrics, oracle), m)
  {
    if oracle != [] {
      BridgeFirst(classify, metrics, m, oracle[..|oracle| - 1]);
    }
  }

  /** Classifying a received match is folding one more match of its side. */
  lemma ReceiveFolds<M(!new), S(!new)>(classify: Classifier<M, S>, start: S, bridge: seq<M>, oracle: seq<M>, m: M)
    requires Independent(classify)
    ensures Combined(classify, start, bridge + [m], oracle)
        == classify(Bridge, Combined(classify, start, bridge, oracle), m)
    ensures Combined(classify, start, bridge, oracle + [m])
        == classify(Oracle, Combined(classify, start, bridge, oracle), m)
  {
    FoldSnoc(classify, Bridge, start, bridge, m);
    BridgeFirst(classify, Fold(classify, Bridge, start, bridge), m, oracle);
    FoldSnoc(classify, Oracle, Fold(classify, Bridge, start, bridge), oracle, m);
  }

  lemma StepKeepsInv<M(!new), S(!new)>(classify: Classifier<M, S>, emitted: Both<seq<M>>, start: S,
                                       s: State<M, S>, a: Action)
    requires Independent(classify)
    requires Inv(classify, emitted, start, s) && Enabled(s, a)
    ensures Inv(classify, emitted, start, Do(classify, s, a))
  {
    hide Combined, Independent;
    match a
    case Send(side) =>
      var c := s.channels.Of(side);
      assert c.buffer + c.pending == (c.buffer + [c.pending[0]]) + c.pending[1..];
    case Receive(side) =>
      var c := s.channels.Of(side);
      assert c.received + (c.buffer + c.pending) == (c.received + [c.buffer[0]]) + (c.buffer[1..] + c.pending);
      ReceiveFolds(classify, start, s.channels.bridge.received, s.channels.oracle.received, c.buffer[0]);
    case _ =>
  }

  lemma {:induction false} RunKeepsInv<M(!new), S(!new)>(classify: Classifier<M, S>, emitted: Both<seq<M>>, start: S,
                                                         s: State<M, S>, run: seq<Action>)
    requires Independent(classify)
    requires Inv(classify, emitted, start, s) && Legal(classify, s, run)
    ensures Inv(classify, emitted, start, After(classify, s, run))
    decreases |run|
  {
    if run != [] {
      StepKeepsInv(classify, emitted, start, s, run[0]);
      RunKeepsInv(classify, emitted, start, Do(classify, s, run[0]), run[1..]);
    }
  }

  /** In every interleaving: nothing is lost, duplicated or reordered on the way, at most 64
      matches wait in a channel, and the metrics are those of the matches received so far. */
  lemma Conservation<M(!new), S(!new)>(classify: Classifier<M, S>, emitted: Both<seq<M>>, start: S, run: seq<Action>)
    requires Independent(classify)
    requires Legal(classify, Start(emitted, start), run)
    ensures Inv(classify, emitted, start, After(classify, Start(emitted, start), run))
  {
    RunKeepsInv(classify, emitted, start, Start(emitted, start), run);
  }

  /** A collector that returns without taking ctx.Done has seen both channels closed, and has received
      every match that was sent. */
  lemma ReturnsDrained<M(!new), S(!new)>(classify: Classifier<M, S>, emitted: Both<seq<M>>, start: S, run: seq<Action>)
    requires Independent(classify)
    requires Legal(classify, Start(emitted, start), run)
    requires var s := After(classify, Start(emitted, start), run); s.returned && !s.left
    ensures var s := After(classify, Start(emitted, start), run);
            && s.cancelled
            && s.channels.bridge.closed && s.channels.bridge.received + s.channels.bridge.pending == emitted.bridge
            && s.channels.oracle.closed && s.channels.oracle.received + s.channels.oracle.pending == emitted.oracle
  {
    Conservation(classify, emitted, start, run);
    var s := After(classify, Start(emitted, start), run);
    assert [] + s.channels.bridge.pending == s.channels.bridge.pending;
    assert [] + s.channels.oracle.pending == s.channels.oracle.pending;
  }

  /** Confluence: in every reachable state in which nothing is in flight, however it was reached, the
      metrics are the same; they depend on each channel's own sequence only. */
  lemma Confluence<M(!new), S(!new)>(classify: Classifier<M, S>, emitted: Both<seq<M>>, start: S, run: seq<Action>)
    requires Independent(classify)
    requires Legal(classify, Start(emitted, start), run)
    requires Settled(After(classify, Start(emitted, start), run))
    ensures After(classify, Start(emitted, start), run).metrics
         == Combined(classify, start, emitted.bridge, emitted.oracle)
  {
    Conservation(classify, emitted, start, run);
    var s := After(classify, Start(emitted, start), run);
    var b, o := s.channels.bridge, s.channels.oracle;
    assert b.received + ([] + []) == b.received && o.received + ([] + []) == o.received;
  }

  // ---------------------------------------------------------------- progress

  function ChannelMeasure<M>(c: Channel<M>): nat {
    2 * |c.pending| + |c.buffer| + if c.closed then 0 else 1
  }

  ghost function Measure<M, S>(s: State<M, S>): nat
  {
    ChannelMeasure(s.channels.bridge) + ChannelMeasure(s.channels.oracle)
    + (if s.open.bridge then 1 else 0) + (if s.open.oracle then 1 else 0)
    + (if s.cancelled then 0 else 1) + (if s.returned then 0 else 1)
  }

  /** Until the collector has returned, it is idle with nothing in flight and no cancellation asked
      for, or some step of tailers or collector is possible: it is never stuck. */
  lemma Progress<M, S>(classify: Classifier<M, S>, emitted: Both<seq<M>>, start: S, s: State<M, S>)
    returns (a: Option<Action>)
    requires Inv(classify, emitted, start, s) && !s.returned
    ensures a.Some? ==> Enabled(s, a.value) && a.value != Cancel
    ensures a.None? ==> Settled(s) && !s.cancelled
  {
    var b, o := s.channels.bridge, s.channels.oracle;
    a := if s.cancelled then Some(Leave)
         else if b.buffer != [] then Some(Receive(Bridge))
         else if o.buffer != [] then Some(Receive(Oracle))
         else if b.pending != [] then Some(Send(Bridge))
         else if o.pending != [] then Some(Send(Oracle))
         else None;
  }

  /** Every step uses up some of a bounded amount of work, so what has been emitted is in flight for
      boundedly many steps only. */
  lemma {:induction false} Termination<M, S>(classify: Classifier<M, S>, s: State<M, S>, run: seq<Action>)
    requires Legal(classify, s, run)
    ensures |run| + Measure(After(classify, s, run)) <= Measure(s)
    decreases |run|
  {
    if run != [] {
      StepShrinks(classify, s, run[0]);
      Termination(classify, Do(classify, s, run[0]), run[1..]);
    }
  }

  lemma StepShrinks<M, S>(classify: Classifier<M, S>, s: State<M, S>, a: Action)
    requires Enabled(s, a)
    ensures Measure(Do(classify, s, a)) < Measure(s)
  {
  }

  lemma {:induction false} Extend<M, S>(classify: Classifier<M, S>, s: State<M, S>, run: seq<Action>, a: Action)
    requires Legal(classify, s, run) && Enabled(After(classify, s, run), a)
    ensures Legal(classify, s, run + [a]) && After(classify, s, run + [a]) == Do(classify, After(classify, s, run), a)
    decreases |run|
  {
    hide Enabled, Do;
    if run == [] {
      assert [a][1..] == [] && run + [a] == [a];
    } else {
      assert (run + [a])[1..] == run[1..] + [a];
      Extend(classify, Do(classify, s, run[0]), run[1..], a);
    }
  }

  /** Delivery: as long as nobody cancels, every run can be continued until all that was emitted has
      arrived, and then the metrics are those of all of it. */
  lemma {:induction false} Delivers<M(!new), S(!new)>(classify: Classifier<M, S>, emitted: Both<seq<M>>, start: S,
                                                      run: seq<Action>)
    returns (full: seq<Action>)
    requires Independent(classify)
    requires Legal(classify, Start(emitted, start), run) && !After(classify, Start(emitted, start), run).cancelled
    ensures run <= full && Legal(classify, Start(emitted, start), full)
    ensures var s := After(classify, Start(emitted, start), full);
            Settled(s) && !s.cancelled && s.metrics == Combined(classify, start, emitted.bridge, emitted.oracle)
    decreases Measure(After(classify, Start(emitted, start), run))
  {
    hide Legal, After, Enabled, Do, Inv, Combined, Independent, Measure;
    var s := After(classify, Start(emitted, start), run);
    Conservation(classify, emitted, start, run);
    NotReturned(classify, emitted, start, s);
    var a := Progress(classify, emitted, start, s);
    if a.None? {
      full := run;
      Confluence(classify, emitted, start, run);
    } else {
      Extend(classify, Start(emitted, start), run, a.value);
      StepShrinks(classify, s, a.value);
      NobodyCancels(classify, s, a.value);
      full := Delivers(classify, emitted, start, run + [a.value]);
    }
  }

  lemma NotReturned<M, S>(classify: Classifier<M, S>, emitted: Both<seq<M>>, start: S, s: State<M, S>)
    requires Inv(classify, emitted, start, s) && !s.cancelled
    ensures !s.returned
  {
  }

  lemma NobodyCancels<M, S>(classify: Classifier<M, S>, s: State<M, S>, a: Action)
    requires Enabled(s, a) && a != Cancel
    ensures Do(classify, s, a).cancelled == s.cancelled
  {
  }
}
