/** The polling loop against an adversarial file system: rotation, replacement, truncation and
    failing system calls cut its output into sessions, each the batch output of one file. */
module Tailing {
  import opened Text
  import opened Logtail

  /** The identity of a file, whatever its name; 0 is the key the loop starts with. */
  type Inode = nat

  /** The file system at one moment: which names can be opened, and what each file holds. A file
      without a name is one that was unlinked while open. */
  datatype World = World(names: map<string, Inode>, files: map<Inode, string>) {
    function Content(inode: Inode): string {
      if inode in files then files[inode] else ""
    }
  }

  /** What one round of the loop meets: the lookup's answer, the file system as it is at the stat and
      at the open, whether the stat of the opened handle succeeds, and what each file is at every read
      of the drain. */
  datatype Poll = Poll(latest: Option<string>, atStat: World, atOpen: World, fstat: bool,
                       reading: map<Inode, seq<Read>>, clock: Time)
  {
    function Calls(inode: Inode): (calls: seq<Read>)
      ensures calls != []
    {
      if inode in reading && reading[inode] != [] then reading[inode] else [Read("", 0)]
    }

    /** The file as a drain from `off` sees it. */
    function View(inode: Inode, off: nat): string {
      Seen(Calls(inode), off)
    }

    /** The file when its drain begins. */
    function Before(inode: Inode): string { Calls(inode)[0].file }

    /** The file at the last read there is. */
    function After(inode: Inode): string { Calls(inode)[|Calls(inode)| - 1].file }
  }

  // ---------------------------------------------------------------- sessions

  /** One uninterrupted reading of one file from its first byte: the text read so far (with the
      partial line last seen) and the clock each complete line was read at. */
  datatype Session = Session(path: string, inode: Inode, text: string, clocks: seq<Time>) {
    function Off(): nat { Consumed(text) }

    ghost predicate Valid() { |clocks| == |Lines(text)| }

    /** Keeps the complete lines and replaces everything after them by what the file now has
        there. */
    function Reread(seen: string, clock: Time): Session {
      if |seen| < Off() then this
      else
        Session(path, inode, text[..Off()] + seen[Off()..], clocks + Repeat(clock, |Lines(seen[Off()..])|))
    }
  }

  /** Sessions so far: the finished ones, the one being read, and the inode remembered for it. */
  datatype Track = Track(closed: seq<Session>, cur: Option<Session>, known: Inode) {
    function Sessions(): seq<Session> {
      if cur.Some? then closed + [cur.value] else closed
    }

    ghost predicate Valid() {
      forall i :: 0 <= i < |Sessions()| ==> Sessions()[i].Valid()
    }

    /** What the lookup, the stat and the open of a round do. */
    function Attach(p: Poll): Track {
      if p.latest.None? || p.latest.value == "" then this
      else
        var path := p.latest.value;
        var named := path in p.atStat.names;
        if cur.None? || path != cur.value.path || (named && p.atStat.names[path] != known) then
          if path in p.atOpen.names then
            var inode := p.atOpen.names[path];
            Track(Sessions(), Some(Session(path, inode, "", [])), if p.fstat then inode else known)
          else Track(Sessions(), None, known)
        else if named && |p.atStat.Content(known)| < cur.value.Off() then
          Track(Sessions(), Some(Session(path, cur.value.inode, "", [])), known)
        else this
    }

    function Drained(p: Poll): Track {
      if cur.None? then this
      else
        this.(cur := Some(cur.value.Reread(p.View(cur.value.inode, cur.value.Off()), p.clock)))
    }

    function Next(p: Poll): Track { Attach(p).Drained(p) }
  }

  function Run(script: seq<Poll>): Track {
    if script == [] then Track([], None, 0)
    else Run(script[..|script| - 1]).Next(script[|script| - 1])
  }

  function SessionOutput(t: Tailer, patterns: seq<Regex>, s: Session): seq<Match> {
    Output(t, s.path, patterns, Lines(s.text), s.clocks)
  }

  function Render(t: Tailer, patterns: seq<Regex>, sessions: seq<Session>): seq<Match> {
    if sessions == [] then []
    else Render(t, patterns, sessions[..|sessions| - 1]) + SessionOutput(t, patterns, sessions[|sessions| - 1])
  }

  /** What a session emits, from its text alone. */
  lemma SessionEmits(t: Tailer, patterns: seq<Regex>, s: Session)
    requires s.Valid()
    ensures exists lines, rest ::
              && CutInto(s.text, lines, rest)
              && IsEmission(t, s.path, patterns, lines, s.clocks, SessionOutput(t, patterns, s))
  {
    hide Lines, Tail, Output, IsEmission;
    var lines, rest := Lines(s.text), Tail(s.text);
    LinesHaveNoNewline(s.text);
    SplitIsLinesAndTail(s.text);
    JoinSplit(s.text, '\n');
    TailIsLast(s.text);
    OutputIsEmission(t, s.path, patterns, lines, s.clocks);
    assert CutInto(s.text, lines, rest);
  }

  lemma RenderSnoc(t: Tailer, patterns: seq<Regex>, sessions: seq<Session>, s: Session)
    ensures Render(t, patterns, sessions + [s]) == Render(t, patterns, sessions) + SessionOutput(t, patterns, s)
  {
    assert (sessions + [s])[..|sessions|] == sessions;
  }

  /** Draining from the offset is rereading the file: the session's output grows by exactly what
      is pending, and the offset moves just past the last complete line. */
  lemma RereadOutput(t: Tailer, patterns: seq<Regex>, s: Session, seen: string, clock: Time)
    requires s.Valid()
    ensures var s' := s.Reread(seen, clock);
            && s'.Valid() && s'.path == s.path && s'.inode == s.inode && s'.Off() == End(seen, s.Off())
            && SessionOutput(t, patterns, s') == SessionOutput(t, patterns, s)
                                               + Pending(t, s.path, patterns, seen, s.Off(), clock)
  {
    var off := s.Off();
    var unread := Drop(seen, off);
    if |seen| < off {
      NoLines("");
    } else {
      var whole := s.text[..off];
      CompletePart(s.text);
      LinesAppend(whole, unread);
      assert "" + unread == unread;
      OutputConcat(t, s.path, patterns, Lines(s.text), s.clocks, Lines(unread), Repeat(clock, |Lines(unread)|));
    }
  }

  /** Opening, replacing or rewinding a file emits nothing by itself. */
  lemma AttachOutput(t: Tailer, patterns: seq<Regex>, k: Track, p: Poll)
    requires k.Valid()
    ensures k.Attach(p).Valid()
    ensures Render(t, patterns, k.Attach(p).Sessions()) == Render(t, patterns, k.Sessions())
  {
    var k' := k.Attach(p);
    if k' != k && k'.cur.Some? {
      NoLines("");
      RenderSnoc(t, patterns, k.Sessions(), k'.cur.value);
    }
  }

  lemma DrainedOutput(t: Tailer, patterns: seq<Regex>, k: Track, p: Poll)
    requires k.Valid()
    ensures k.Drained(p).Valid()
    ensures k.cur.Some? ==>
              var s := k.cur.value;
              Render(t, patterns, k.Drained(p).Sessions())
              == Render(t, patterns, k.Sessions())
                 + Pending(t, s.path, patterns, p.View(s.inode, s.Off()), s.Off(), p.clock)
  {
    hide Seen, Pending, SessionOutput, Render, Session.Reread, Lines, Consumed;
    if k.cur.Some? {
      var s := k.cur.value;
      assert k.Sessions()[|k.closed|] == s;
      assert forall i :: 0 <= i < |k.closed| ==> k.Sessions()[i] == k.closed[i];
      RereadOutput(t, patterns, s, p.View(s.inode, s.Off()), p.clock);
      RenderSnoc(t, patterns, k.closed, s);
      RenderSnoc(t, patterns, k.closed, k.Drained(p).cur.value);
    }
  }

  /** What is pending in the file of the session a round ends up reading. */
  function RoundPending(t: Tailer, patterns: seq<Regex>, k: Track, p: Poll): seq<Match> {
    if k.cur.None? then []
    else
      var s := k.cur.value;
      Pending(t, s.path, patterns, p.View(s.inode, s.Off()), s.Off(), p.clock)
  }

  /** One round adds to the output exactly what is pending once the handle is settled. */
  lemma RoundOutput(t: Tailer, patterns: seq<Regex>, k: Track, p: Poll)
    requires k.Valid()
    ensures k.Next(p).Valid()
    ensures Render(t, patterns, k.Next(p).Sessions())
         == Render(t, patterns, k.Sessions()) + RoundPending(t, patterns, k.Attach(p), p)
    ensures k.Next(p).known == k.Attach(p).known && (k.Next(p).cur.Some? <==> k.Attach(p).cur.Some?)
    ensures k.Attach(p).cur.Some? ==>
              var s, s' := k.Attach(p).cur.value, k.Next(p).cur.value;
              s'.path == s.path && s'.inode == s.inode && s'.Off() == End(p.View(s.inode, s.Off()), s.Off())
  {
    hide Seen, Pending, SessionOutput, Session.Reread, Lines, Consumed, Track.Attach;
    AttachOutput(t, patterns, k, p);
    DrainedOutput(t, patterns, k.Attach(p), p);
    var k' := k.Attach(p);
    if k'.cur.Some? {
      assert k'.Sessions()[|k'.closed|] == k'.cur.value;
      RereadOutput(t, patterns, k'.cur.value, p.View(k'.cur.value.inode, k'.cur.value.Off()), p.clock);
    }
  }

  // ---------------------------------------------------------------- the loop

  /** The loop's variables agree with the sessions: an open handle is the current session's file,
      and the offset counts bytes of that very file. */
  ghost predicate Holds(k: Track, f: Option<Inode>, curPath: string, curInode: Inode, off: nat) {
    && curInode == k.known
    && (f.Some? <==> k.cur.Some?)
    && (f.Some? ==> f.value == k.cur.value.inode && curPath == k.cur.value.path && off == k.cur.value.Off())
  }

  /** One round up to the drain: look up, compare inodes, notice truncation, reopen. */
  method Reattach(p: Poll, f: Option<Inode>, curPath: string, curInode: Inode, off: nat, ghost k: Track)
    returns (f': Option<Inode>, curPath': string, curInode': Inode, off': nat)
    requires Holds(k, f, curPath, curInode, off)
    ensures Holds(k.Attach(p), f', curPath', curInode', off')
  {
    f', curPath', curInode', off' := f, curPath, curInode, off;
    NoLines("");
    if p.latest.Some? && p.latest.value != "" {
      var path := p.latest.value;
      var needReopen := false;
      if f.None? || path != curPath {
        needReopen := true;
      } else if path in p.atStat.names {
        var ik := p.atStat.names[path];
        if ik != curInode {
          needReopen := true;
        } else if |p.atStat.Content(ik)| < off {
          off' := 0;
        }
      }
      if needReopen {
        f' := None;
        if path in p.atOpen.names {
          f', curPath', off' := Some(p.atOpen.names[path]), path, 0;
          if p.fstat {
            curInode' := p.atOpen.names[path];
          }
        }
      }
    }
  }

  /** The whole loop, for every sequence of rounds: what it emits is the batch output of its
      sessions, cut short only by cancellation. */
  method Loop(t: Tailer, patterns: seq<Regex>, script: seq<Poll>, budget: Option<nat>)
    returns (out: seq<Match>, stopped: bool, f: Option<Inode>, curPath: string, curInode: Inode, off: nat)
    ensures var batch := Render(t, patterns, Run(script).Sessions());
            && out == Take(batch, budget)
            && (stopped <==> Exceeds(batch, budget))
    ensures !stopped ==> Holds(Run(script), f, curPath, curInode, off)
  {
    hide Delivers, Stream, Seen, Pending, Render, Consumed, End, Track.Attach, Track.Next, Track.Valid, Track.Sessions;
    NothingRead(t, patterns);
    f, curPath, curInode, off := None, "", 0, 0;
    out, stopped := [], false;
    for i := 0 to |script|
      invariant Run(script[..i]).Valid() && Holds(Run(script[..i]), f, curPath, curInode, off)
      invariant out == Render(t, patterns, Run(script[..i]).Sessions())
      invariant !stopped && !Exceeds(out, budget)
    {
      var p := script[i];
      ghost var k := Run(script[..i]);
      assert script[..i + 1][..i] == script[..i];
      f, curPath, curInode, off := Reattach(p, f, curPath, curInode, off, k);
      RoundOutput(t, patterns, k, p);
      if f.Some? {
        TakeInTurn(out, RoundPending(t, patterns, k.Attach(p), p), [], budget);
        var emitted;
        off, emitted, stopped := Drain(t, curPath, patterns, p.Calls(f.value), off, p.clock, Spend(budget, |out|));
        if stopped {
          OutputGrows(t, patterns, script, i + 1);
          out := out + emitted;
          return;
        }
        out := out + emitted;
      }
    }
    assert script[..|script|] == script;
  }

  lemma NothingRead(t: Tailer, patterns: seq<Regex>)
    ensures Run([]).Valid() && Run([]).cur.None? && Run([]).known == 0
    ensures Render(t, patterns, Run([]).Sessions()) == []
  {
  }

  /** Later rounds never take back what was emitted. */
  lemma {:induction false} OutputGrows(t: Tailer, patterns: seq<Regex>, script: seq<Poll>, i: nat)
    requires i <= |script|
    ensures Run(script).Valid()
    ensures Render(t, patterns, Run(script[..i]).Sessions()) <= Render(t, patterns, Run(script).Sessions())
    decreases |script|
  {
    hide Track.Next, Track.Valid, Render, RoundPending, Session.Valid;
    if script == [] {
      NothingRead(t, patterns);
    } else {
      var before := script[..|script| - 1];
      OutputGrows(t, patterns, before, if i == |script| then 0 else i);
      RoundOutput(t, patterns, Run(before), script[|script| - 1]);
      assert i == |script| ==> script[..i] == script;
      assert i < |script| ==> before[..i] == script[..i];
    }
  }
}
