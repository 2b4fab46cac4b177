/** What the sessions of the polling loop are worth: exactly when each is its file as last seen, and
    which file a handle is. */
module TailingLaws {
  import opened Text
  import opened Logtail
  import opened Tailing

  // ---------------------------------------------------------------- which round reads what

  /** The track round j drains: after its lookup, stat and open. */
  function Attached(script: seq<Poll>, j: nat): Track
    requires j < |script|
  {
    Run(script[..j]).Attach(script[j])
  }

  /** The file round j drains, as it sees it. */
  function ViewAt(script: seq<Poll>, j: nat): string {
    if j < |script| && Attached(script, j).cur.Some? then
      var s := Attached(script, j).cur.value;
      script[j].View(s.inode, s.Off())
    else ""
  }

  /** Round j reads on in session n; a file that is shorter than the offset gives nothing to read. */
  predicate Reads(script: seq<Poll>, j: nat, n: nat) {
    j < |script| &&
    var k := Attached(script, j);
    k.cur.Some? && |k.closed| == n && |ViewAt(script, j)| >= k.cur.value.Off()
  }

  ghost predicate LastReads(script: seq<Poll>, j: nat, n: nat) {
    Reads(script, j, n) && forall i :: j < i < |script| ==> !Reads(script, i, n)
  }

  /** Rounds j and i read session n, and none in between does. */
  ghost predicate NextReads(script: seq<Poll>, n: nat, j: nat, i: nat) {
    j < i && Reads(script, j, n) && Reads(script, i, n) && forall l :: j < l < i ==> !Reads(script, l, n)
  }

  /** The path and the file of a session are those of round j. */
  predicate SameFile(script: seq<Poll>, j: nat, s: Session) {
    j < |script| &&
    var cur := Attached(script, j).cur;
    cur.Some? && s.path == cur.value.path && s.inode == cur.value.inode
  }

  /** Session n is its file from byte 0 as the last round that read it saw it. */
  ghost predicate IsLastView(script: seq<Poll>, n: nat)
    requires n < |Run(script).Sessions()|
  {
    var s := Run(script).Sessions()[n];
    exists j: nat :: LastReads(script, j, n) && SameFile(script, j, s) && s.text == ViewAt(script, j)
  }

  ghost predicate Real(script: seq<Poll>) {
    forall n :: 0 <= n < |Run(script).Sessions()| ==> IsLastView(script, n)
  }

  /** The complete part of a file never changes between two reads of a session. */
  ghost predicate Unaltered(script: seq<Poll>) {
    forall n: nat, j: nat, i: nat :: NextReads(script, n, j, i) ==> KeepsLines(script, j, i)
  }

  predicate KeepsLines(script: seq<Poll>, j: nat, i: nat) {
    ViewAt(script, j)[..Consumed(ViewAt(script, j))] <= ViewAt(script, i)
  }

  /** What round i reads of session n still has the lines the read before it saw. */
  ghost predicate StepKeeps(script: seq<Poll>, n: nat, i: nat) {
    forall j: nat :: NextReads(script, n, j, i) ==> KeepsLines(script, j, i)
  }

  lemma Earlier(script: seq<Poll>, m: nat, j: nat)
    requires j < m <= |script|
    ensures Attached(script[..m], j) == Attached(script, j) && ViewAt(script[..m], j) == ViewAt(script, j)
    ensures forall n: nat :: Reads(script[..m], j, n) <==> Reads(script, j, n)
  {
    assert script[..m][..j] == script[..j];
  }

  /** What a round's lookup, stat and open come to: nothing, a new session, or no handle. */
  lemma AttachShape(k: Track, p: Poll)
    ensures var k' := k.Attach(p);
            || k' == k
            || (k'.closed == k.Sessions() && k'.cur.None?)
            || (k'.closed == k.Sessions() && k'.cur.Some? && k'.cur.value.text == "" && k'.cur.value.Off() == 0)
  {
    NothingConsumed();
  }

  lemma NothingConsumed()
    ensures Consumed("") == 0
  {
    NoLines("");
  }

  /** A round changes the session it reads and no other. */
  lemma RoundSessions(k: Track, p: Poll, n: nat)
    requires n < |k.Next(p).Sessions()|
    ensures var k', s := k.Attach(p), k.Next(p).Sessions()[n];
            if k'.cur.Some? && n == |k'.closed|
               && |p.View(k'.cur.value.inode, k'.cur.value.Off())| >= k'.cur.value.Off()
            then s == k'.cur.value.Reread(p.View(k'.cur.value.inode, k'.cur.value.Off()), p.clock)
            else n < |k.Sessions()| && s == k.Sessions()[n]
    ensures |k.Next(p).Sessions()| >= |k.Sessions()|
  {
    hide Poll.View, Consumed, Lines, Track.Attach;
    AttachShape(k, p);
  }

  lemma RunStep(script: seq<Poll>)
    requires script != []
    ensures var m := |script| - 1;
            Run(script) == Run(script[..m]).Next(script[m]) && Attached(script, m) == Run(script[..m]).Attach(script[m])
  {
  }

  /** A session some round has read is there, with that round's path and file. */
  lemma {:induction false} Belongs(script: seq<Poll>, j: nat, n: nat)
    requires Reads(script, j, n)
    ensures n < |Run(script).Sessions()| && SameFile(script, j, Run(script).Sessions()[n])
  {
    hide Poll.View, Consumed, Lines, Track.Attach, Run;
    var m := |script| - 1;
    var before, p := script[..m], script[m];
    RunStep(script);
    AttachShape(Run(before), p);
    if j < m {
      hide Attached, ViewAt;
      Earlier(script, m, j);
      Belongs(before, j, n);
      RoundSessions(Run(before), p, n);
    } else {
      RoundSessions(Run(before), p, n);
    }
  }

  lemma RereadIsFile(s: Session, seen: string, clock: Time)
    requires |seen| >= s.Off()
    ensures s.text[..s.Off()] <= seen <==> s.Reread(seen, clock).text == seen
  {
    hide Consumed, Lines;
    var whole, rest := s.text[..s.Off()], seen[s.Off()..];
    assert seen == seen[..s.Off()] + rest;
    assert (whole + rest)[..s.Off()] == whole;
  }

  // ---------------------------------------------------------------- sessions are files

  /** A session that the last round does not read stays as it was. */
  lemma StaysLastView(script: seq<Poll>, n: nat)
    requires script != [] && var before := script[..|script| - 1];
                             n < |Run(before).Sessions()| && IsLastView(before, n)
    requires !Reads(script, |script| - 1, n) && n < |Run(script).Sessions()|
    ensures IsLastView(script, n)
  {
    hide Poll.View, Consumed, Lines, Track.Attach, Track.Next, Reads;
    var m := |script| - 1;
    var before, s := script[..m], Run(script[..m]).Sessions()[n];
    var j: nat :| LastReads(before, j, n) && SameFile(before, j, s) && s.text == ViewAt(before, j);
    assert j < m by { ReadsInRange(before, j, n); }
    forall i: nat | j <= i < m ensures Reads(script, i, n) <==> Reads(before, i, n) {
      Earlier(script, m, i);
    }
    Earlier(script, m, j);
    assert Run(script).Sessions()[n] == s by { Unread(script, n); }
    assert LastReads(script, j, n);
  }

  lemma ReadsInRange(script: seq<Poll>, j: nat, n: nat)
    requires Reads(script, j, n)
    ensures j < |script|
  {
  }

  lemma Unread(script: seq<Poll>, n: nat)
    requires script != [] && !Reads(script, |script| - 1, n) && n < |Run(script).Sessions()|
    ensures n < |Run(script[..|script| - 1]).Sessions()|
    ensures Run(script).Sessions()[n] == Run(script[..|script| - 1]).Sessions()[n]
  {
    RoundSessions(Run(script[..|script| - 1]), script[|script| - 1], n);
  }

  /** A session read for the first time is all of the file. */
  lemma FirstRead(script: seq<Poll>, n: nat)
    requires script != [] && Reads(script, |script| - 1, n) && n >= |Run(script[..|script| - 1]).Sessions()|
    ensures n < |Run(script).Sessions()| && IsLastView(script, n) && StepKeeps(script, n, |script| - 1)
  {
    hide Poll.View, Consumed, Lines, Track.Attach;
    var m := |script| - 1;
    var k, p := Run(script[..m]), script[m];
    Belongs(script, m, n);
    AttachShape(k, p);
    RoundSessions(k, p, n);
    assert LastReads(script, m, n);
    forall j: nat | j < m ensures !Reads(script, j, n) {
      Earlier(script, m, j);
      if Reads(script[..m], j, n) {
        Belongs(script[..m], j, n);
      }
    }
  }

  /** A session read again goes on from its offset. */
  lemma ReadOn(script: seq<Poll>, n: nat, s: Session, seen: string)
    requires script != [] && Reads(script, |script| - 1, n) && seen == ViewAt(script, |script| - 1)
    requires n < |Run(script[..|script| - 1]).Sessions()| && Run(script[..|script| - 1]).Sessions()[n] == s
    ensures |seen| >= s.Off() && Attached(script, |script| - 1).cur == Some(s)
    ensures n < |Run(script).Sessions()|
    ensures Run(script).Sessions()[n] == s.Reread(seen, script[|script| - 1].clock)
  {
    hide Poll.View, Consumed, Lines, Track.Attach, Run;
    var m := |script| - 1;
    RunStep(script);
    AttachShape(Run(script[..m]), script[m]);
    RoundSessions(Run(script[..m]), script[m], n);
  }

  /** A session read again is the file as it is now exactly when its complete part has not changed. */
  lemma ReadAgain(script: seq<Poll>, n: nat)
    requires script != [] && Reads(script, |script| - 1, n)
    requires n < |Run(script[..|script| - 1]).Sessions()| && IsLastView(script[..|script| - 1], n)
    ensures n < |Run(script).Sessions()|
    ensures IsLastView(script, n) <==> StepKeeps(script, n, |script| - 1)
  {
    hide Attached, Consumed, Lines, Run, Track.Sessions, Reads, Session.Reread, ViewAt;
    var m := |script| - 1;
    var before := script[..m];
    var s := Run(before).Sessions()[n];
    ReadOn(script, n, s, ViewAt(script, m));
    RereadIsFile(s, ViewAt(script, m), script[m].clock);
    var j: nat :| LastReads(before, j, n) && SameFile(before, j, s) && s.text == ViewAt(before, j);
    ReadsInRange(before, j, n);
    forall i: nat | i < m ensures Reads(script, i, n) <==> Reads(before, i, n) {
      Earlier(script, m, i);
    }
    Earlier(script, m, j);
    assert NextReads(script, n, j, m);
    assert LastReads(script, m, n);
    assert KeepsLines(script, j, m) <==> s.text[..s.Off()] <= ViewAt(script, m);
    RereadKeepsFile(s, ViewAt(script, m), script[m].clock);
  }

  lemma RereadKeepsFile(s: Session, seen: string, clock: Time)
    ensures s.Reread(seen, clock).path == s.path && s.Reread(seen, clock).inode == s.inode
  {
    hide Consumed, Lines;
  }

  /** One more round keeps the sessions real exactly when it finds the complete part it has read
      before. */
  lemma RoundReal(script: seq<Poll>)
    requires script != [] && Real(script[..|script| - 1])
    ensures Real(script)
        <==> forall n: nat {:trigger StepKeeps(script, n, |script| - 1)} :: StepKeeps(script, n, |script| - 1)
  {
    hide IsLastView, NextReads, KeepsLines, Reads, Run, Track.Sessions, StepKeeps;
    var m := |script| - 1;
    var before := script[..m];
    forall n: nat
      ensures n < |Run(script).Sessions()| ==> (IsLastView(script, n) <==> StepKeeps(script, n, m))
      ensures n >= |Run(script).Sessions()| ==> StepKeeps(script, n, m)
    {
      if !Reads(script, m, n) {
        NotRead(script, n);
        if n < |Run(script).Sessions()| {
          Unread(script, n);
          assert IsLastView(before, n);
          StaysLastView(script, n);
        }
      } else if n < |Run(before).Sessions()| {
        assert IsLastView(before, n);
        ReadAgain(script, n);
      } else {
        FirstRead(script, n);
      }
    }
  }

  /** In other words: when the session it reads, if any, is what it sees. */
  lemma RealNow(script: seq<Poll>)
    requires script != [] && Real(script[..|script| - 1])
    ensures var m := |script| - 1;
            (Real(script)
             <==> forall n: nat :: Reads(script, m, n) ==> n < |Run(script).Sessions()| && ReadsWell(script, n))
  {
    hide IsLastView, Reads, Run, Track.Sessions, ReadsWell;
    var m := |script| - 1;
    forall n: nat
      ensures Reads(script, m, n) ==> n < |Run(script).Sessions()| && (IsLastView(script, n) <==> ReadsWell(script, n))
      ensures !Reads(script, m, n) && n < |Run(script).Sessions()| ==> IsLastView(script, n)
    {
      if Reads(script, m, n) {
        Belongs(script, m, n);
        ReadNow(script, n);
      } else if n < |Run(script).Sessions()| {
        Unread(script, n);
        assert IsLastView(script[..m], n);
        StaysLastView(script, n);
      }
    }
  }

  /** Session n is what the last round sees. */
  predicate ReadsWell(script: seq<Poll>, n: nat)
    requires script != [] && n < |Run(script).Sessions()|
  {
    Run(script).Sessions()[n].text == ViewAt(script, |script| - 1)
  }

  lemma ReadNow(script: seq<Poll>, n: nat)
    requires script != [] && Reads(script, |script| - 1, n) && n < |Run(script).Sessions()|
    requires SameFile(script, |script| - 1, Run(script).Sessions()[n])
    ensures IsLastView(script, n) <==> ReadsWell(script, n)
  {
    hide Reads, Run, SameFile, ViewAt;
    var m, s := |script| - 1, Run(script).Sessions()[n];
    if IsLastView(script, n) {
      var j: nat :| LastReads(script, j, n) && SameFile(script, j, s) && s.text == ViewAt(script, j);
      ReadsInRange(script, j, n);
      assert j == m;
    }
    if ReadsWell(script, n) {
      assert LastReads(script, m, n);
    }
  }

  lemma NotRead(script: seq<Poll>, n: nat)
    requires script != [] && !Reads(script, |script| - 1, n)
    ensures StepKeeps(script, n, |script| - 1)
  {
  }

  /** The exact condition: all through a run every session is its file from byte 0 as last seen, if
      and only if no read of a session finds the complete part of what the read before it saw
      changed. */
  lemma {:induction false} RealIffUnaltered(script: seq<Poll>)
    ensures (forall m :: 0 <= m <= |script| ==> Real(script[..m])) <==> Unaltered(script)
  {
    hide Real, KeepsLines, NextReads;
    if script == [] {
      Nothing();
    } else {
      var m := |script| - 1;
      var before := script[..m];
      RealIffUnaltered(before);
      assert before[..m] == before && script[..|script|] == script;
      assert forall l :: 0 <= l <= m ==> before[..l] == script[..l];
      UnalteredStep(script);
      if Real(before) {
        RoundReal(script);
      }
    }
  }

  lemma Nothing()
    ensures Real([]) && Unaltered([])
  {
  }

  lemma UnalteredStep(script: seq<Poll>)
    requires script != []
    ensures var m := |script| - 1;
            (Unaltered(script)
             <==> Unaltered(script[..m])
                  && forall n: nat {:trigger StepKeeps(script, n, m)} :: StepKeeps(script, n, m))
  {
    hide NextReads, KeepsLines;
    var m := |script| - 1;
    var before := script[..m];
    if Unaltered(script) {
      forall n: nat, j: nat, i: nat | NextReads(before, n, j, i) ensures KeepsLines(before, j, i) {
        SameNext(script, n, j, i);
      }
    }
    if Unaltered(before) && forall n: nat {:trigger StepKeeps(script, n, m)} :: StepKeeps(script, n, m) {
      forall n: nat, j: nat, i: nat | NextReads(script, n, j, i) ensures KeepsLines(script, j, i) {
        SameNext(script, n, j, i);
        assert StepKeeps(script, n, m);
      }
    }
  }

  lemma SameNext(script: seq<Poll>, n: nat, j: nat, i: nat)
    requires script != []
    ensures var m := |script| - 1;
            && (NextReads(script, n, j, i) ==> j < i <= m)
            && (NextReads(script[..m], n, j, i) ==> j < i < m)
            && (i < m ==> (NextReads(script, n, j, i) <==> NextReads(script[..m], n, j, i)))
            && (j < i < m ==> (KeepsLines(script, j, i) <==> KeepsLines(script[..m], j, i)))
  {
    hide Attached, ViewAt;
    var m := |script| - 1;
    forall l: nat | l < m ensures Reads(script, l, n) <==> Reads(script[..m], l, n) {
      Earlier(script, m, l);
    }
    if j < i < m {
      Earlier(script, m, j);
      Earlier(script, m, i);
    }
  }

  /** The whole-run law: through every rotation, replacement, truncation and failing call, every
      session is its file from byte 0 as the last round that read it saw it. (Loop ties its output to
      the sessions, so the only complete lines missing are those that lie behind a read of that round that
      failed, and those completed after it.) */
  lemma SessionsAreFiles(script: seq<Poll>)
    requires Unaltered(script)
    ensures Real(script)
  {
    RealIffUnaltered(script);
    assert script[..|script|] == script;
  }

  // ---------------------------------------------------------------- append-only files

  /** No file loses anything from one read to the next, in one drain or the next. */
  ghost predicate AppendOnly(script: seq<Poll>) {
    && (forall i, inode {:trigger script[i].Calls(inode)} :: 0 <= i < |script| ==> Growing(script[i].Calls(inode)))
    && (forall i, inode {:trigger script[i].After(inode)} ::
          0 <= i < |script| - 1 ==> script[i].After(inode) <= script[i + 1].Before(inode))
  }

  /** What a drain sees lies between what was there and what will be. */
  lemma ViewBetween(p: Poll, inode: Inode, off: nat)
    requires Growing(p.Calls(inode))
    ensures var file, view := p.Before(inode), p.View(inode, off);
            && view <= p.After(inode)
            && (off <= |file| ==> file[..off] <= view)
            && (EndsAtEOF(p.Calls(inode), off) ==> file <= view)
    ensures p.Before(inode) <= p.After(inode)
  {
    SeenBetween(p.Calls(inode), off, p.After(inode));
  }

  lemma {:induction false} FilesGrow(script: seq<Poll>, j: nat, i: nat, inode: Inode)
    requires AppendOnly(script) && j <= i < |script|
    ensures script[j].After(inode) <= script[i].After(inode)
  {
    hide Poll.After;
    if j < i {
      FilesGrow(script, j, i - 1, inode);
      assert script[i - 1].After(inode) <= script[i].Before(inode);
      assert Growing(script[i].Calls(inode));
      ViewBetween(script[i], inode, 0);
    }
  }

  /** What a session has read is still there for the last round. */
  lemma StillThere(script: seq<Poll>, j: nat, s: Session)
    requires AppendOnly(script) && j < |script| - 1 && SameFile(script, j, s) && s.text == ViewAt(script, j)
    ensures s.text <= script[|script| - 2].After(s.inode)
    ensures var view := script[|script| - 1].View(s.inode, s.Off());
            s.Off() <= |view| && s.text[..s.Off()] <= view
  {
    hide Poll.View, Poll.After, Consumed, Lines, Attached, AppendOnly;
    var m := |script| - 1;
    ViewOf(script, j);
    GrowsDuring(script, j, s.inode);
    GrowsDuring(script, m, s.inode);
    ViewBetween(script[j], s.inode, Attached(script, j).cur.value.Off());
    FilesGrow(script, j, m - 1, s.inode);
    GrowsInto(script, s.inode);
    ViewBetween(script[m], s.inode, s.Off());
  }

  lemma GrowsDuring(script: seq<Poll>, j: nat, inode: Inode)
    requires AppendOnly(script) && j < |script|
    ensures Growing(script[j].Calls(inode))
  {
  }

  lemma GrowsInto(script: seq<Poll>, inode: Inode)
    requires AppendOnly(script) && |script| > 1
    ensures script[|script| - 2].After(inode) <= script[|script| - 1].Before(inode)
  {
    hide Poll.After;
    assert script[|script| - 2].After(inode) <= script[|script| - 2 + 1].Before(inode);
  }

  /** Publishers that only append, to whatever files and under whatever names, keep every session its
      file. */
  lemma {:induction false} AppendOnlyIsUnaltered(script: seq<Poll>)
    requires AppendOnly(script)
    ensures Unaltered(script) && Real(script)
  {
    hide NextReads, KeepsLines, Real, Unaltered, Poll.After;
    if script == [] {
      Nothing();
    } else {
      var m := |script| - 1;
      assert AppendOnly(script[..m]);
      AppendOnlyIsUnaltered(script[..m]);
      UnalteredStep(script);
      forall n: nat ensures StepKeeps(script, n, m) {
        AppendKeeps(script, n);
      }
      SessionsAreFiles(script);
    }
  }

  lemma AppendKeeps(script: seq<Poll>, n: nat)
    requires script != [] && AppendOnly(script) && Real(script[..|script| - 1])
    ensures StepKeeps(script, n, |script| - 1)
  {
    hide Attached, Consumed, Lines, Run, Track.Sessions, ViewAt, Poll.View, Poll.After, AppendOnly;
    var m := |script| - 1;
    var before := script[..m];
    forall j: nat | NextReads(script, n, j, m) ensures KeepsLines(script, j, m) {
      Earlier(script, m, j);
      Belongs(before, j, n);
      var s := Run(before).Sessions()[n];
      assert IsLastView(before, n);
      var last: nat :| LastReads(before, last, n) && SameFile(before, last, s) && s.text == ViewAt(before, last);
      ReadsInRange(before, last, n);
      Earlier(script, m, last);
      assert last == j;
      ReadOn(script, n, s, ViewAt(script, m));
      assert SameFile(script, j, s) by { assert Attached(before, j) == Attached(script, j); }
      StillThere(script, j, s);
      assert ViewAt(script, m) == script[m].View(s.inode, s.Off()) by { ViewOf(script, m); }
    }
  }

  lemma ViewOf(script: seq<Poll>, j: nat)
    requires j < |script| && Attached(script, j).cur.Some?
    ensures var s := Attached(script, j).cur.value; ViewAt(script, j) == script[j].View(s.inode, s.Off())
  {
  }

  /** The open file still has all that was read of it. */
  lemma CurrentInFile(script: seq<Poll>)
    requires script != [] && AppendOnly(script) && Run(script[..|script| - 1]).cur.Some?
    ensures var s := Run(script[..|script| - 1]).cur.value;
            && |script| > 1 && s.text <= script[|script| - 2].After(s.inode)
            && s.Off() <= |script[|script| - 1].View(s.inode, s.Off())|
  {
    hide Consumed, Lines, Poll.View, Poll.After, AppendOnly, Attached, Real, Run;
    var m := |script| - 1;
    var before, k := script[..m], Run(script[..m]);
    var n, s := |k.closed|, k.cur.value;
    Shorter(script);
    AppendOnlyIsUnaltered(before);
    assert k.Sessions()[n] == s;
    RealAt(before, n);
    var j: nat :| LastReads(before, j, n) && SameFile(before, j, s) && s.text == ViewAt(before, j);
    ReadsInRange(before, j, n);
    Earlier(script, m, j);
    StillThere(script, j, s);
  }

  /** With an open file every round reads. */
  lemma AppendOnlyReads(script: seq<Poll>)
    requires script != [] && AppendOnly(script) && Attached(script, |script| - 1).cur.Some?
    ensures var k := Attached(script, |script| - 1); Reads(script, |script| - 1, |k.closed|)
  {
    hide Consumed, Lines, Poll.View, Poll.After, AppendOnly, Track.Attach, Run;
    var m := |script| - 1;
    RunStep(script);
    AttachShape(Run(script[..m]), script[m]);
    ViewOf(script, m);
    if Run(script[..m]).cur.Some? {
      CurrentInFile(script);
    }
  }

  lemma Shorter(script: seq<Poll>)
    requires script != [] && AppendOnly(script)
    ensures AppendOnly(script[..|script| - 1])
  {
    hide Poll.After;
  }

  lemma RealAt(script: seq<Poll>, n: nat)
    requires Real(script) && n < |Run(script).Sessions()|
    ensures IsLastView(script, n)
  {
  }

  // ---------------------------------------------------------------- truncation and identity

  /** Exactly when a poll of an unrotated file gets the file's own text: the stat finds it shorter than
      what was read, so that it is read again from byte 0, or what was read is still its beginning when
      it is drained. */
  lemma TruncationSeenIff(k: Track, p: Poll)
    requires k.cur.Some? && k.known == k.cur.value.inode && p.latest == Some(k.cur.value.path) && k.cur.value.path != ""
    requires k.cur.value.path in p.atStat.names ==> p.atStat.names[k.cur.value.path] == k.known
    ensures k.Attach(p).cur.Some? && k.Next(p).cur.Some?
    ensures var s := k.cur.value;
            var shrunk := s.path in p.atStat.names && |p.atStat.Content(k.known)| < s.Off();
            (k.Next(p).cur.value.text == p.View(k.known, k.Attach(p).cur.value.Off())
             <==> shrunk || s.text[..s.Off()] <= p.View(k.known, s.Off()))
  {
    hide Poll.View, Consumed, Lines, Session.Reread;
    NothingConsumed();
    var s', view := k.Attach(p).cur.value, p.View(k.known, k.Attach(p).cur.value.Off());
    if |view| >= s'.Off() {
      RereadIsFile(s', view, p.clock);
    } else {
      NothingReread(s', view, p.clock);
    }
  }

  lemma NothingReread(s: Session, seen: string, clock: Time)
    requires |seen| < s.Off()
    ensures s.Reread(seen, clock) == s && s.Off() <= |s.text|
  {
  }

  /** A round opens the current name if it has no handle, another name's, or another file's. */
  predicate Opens(k: Track, p: Poll) {
    p.latest.Some? && p.latest.value != "" &&
    var path := p.latest.value;
    path in p.atOpen.names
    && (k.cur.None? || path != k.cur.value.path || (path in p.atStat.names && p.atStat.names[path] != k.known))
  }

  ghost predicate LastOpens(script: seq<Poll>, i: nat) {
    && i < |script| && Opens(Run(script[..i]), script[i])
    && forall l :: i < l < |script| ==> !Opens(Run(script[..l]), script[l])
  }

  /** The remembered inode is the open file's exactly when the round that opened it could stat the
      handle, or remembered that very file already; this holds even when the name was moved to another
      file between the lookup and the open. */
  lemma {:induction false} HandleIdentity(script: seq<Poll>)
    requires Run(script).cur.Some?
    ensures exists i: nat :: LastOpens(script, i)
              && (Run(script).known == Run(script).cur.value.inode
                  <==> script[i].fstat || Run(script[..i]).known == Run(script).cur.value.inode)
  {
    hide Poll.View, Consumed, Run, Opens, Track.Next;
    var m := |script| - 1;
    if script == [] {
      NothingOpen();
    } else {
      var before, p := script[..m], script[m];
      RunStep(script);
      OpensOrKeeps(Run(before), p);
      if Opens(Run(before), p) {
        assert LastOpens(script, m);
      } else {
        HandleIdentity(before);
        var i: nat :| LastOpens(before, i)
          && (Run(before).known == Run(before).cur.value.inode
              <==> before[i].fstat || Run(before[..i]).known == Run(before).cur.value.inode);
        assert forall l :: 0 <= l < m ==> before[..l] == script[..l] && before[l] == script[l];
        assert LastOpens(script, i);
      }
    }
  }

  lemma NothingOpen()
    ensures Run([]).cur.None?
  {
  }

  lemma OpensOrKeeps(k: Track, p: Poll)
    requires k.Next(p).cur.Some?
    ensures var k' := k.Next(p);
            if Opens(k, p) then k'.known == if p.fstat then k'.cur.value.inode else k.known
            else k.cur.Some? && k'.known == k.known && k'.cur.value.inode == k.cur.value.inode
  {
    hide Poll.View, Consumed, Lines;
  }

  /** What a round decides in any reachable state, in terms of the open file itself and of the round
      that opened it. If that round could stat the handle (or remembered the file already), the next one
      stays on the file exactly when the name is its own, is not found with another file, and is not
      found shorter than what was read. If it could not, being found unchanged is enough to end the
      session. Whenever it does not stay, the finished session is kept as it was, and the next one, if
      the file can be opened, starts at byte 0. */
  lemma HandleDecision(script: seq<Poll>, p: Poll)
    requires Run(script).cur.Some? && p.latest.Some? && p.latest.value != ""
    ensures exists i: nat :: LastOpens(script, i) &&
              var k, s, path := Run(script), Run(script).cur.value, p.latest.value;
              var identified := script[i].fstat || Run(script[..i]).known == s.inode;
              var found := path in p.atStat.names;
              var replaced := found && p.atStat.names[path] != s.inode;
              var shrunk := found && |p.atStat.Content(s.inode)| < s.Off();
              var k' := k.Attach(p);
              && (identified ==> (k' == k <==> path == s.path && !replaced && !shrunk))
              && (!identified && path == s.path && found && !replaced ==> k' != k)
              && (k' != k ==> k'.closed == k.Sessions() && (k'.cur.Some? ==> k'.cur.value.text == "")
                              && (path in p.atOpen.names ==> k'.cur.Some?))
  {
    HandleIdentity(script);
    var k := Run(script);
    AttachShape(k, p);
    hide Run, Consumed;
  }

  /** A poll that finds the open file in its place, no shorter than what was read, stays on it exactly
      when it is identified; otherwise it opens it once more and emits all its lines again. */
  lemma UnidentifiedIsReread(t: Tailer, patterns: seq<Regex>, k: Track, p: Poll)
    requires k.Valid() && k.cur.Some? && p.latest == Some(k.cur.value.path) && k.cur.value.path != ""
    requires var s := k.cur.value;
             && s.path in p.atStat.names && p.atStat.names[s.path] == s.inode
             && s.path in p.atOpen.names && p.atOpen.names[s.path] == s.inode
             && |p.atStat.Content(s.inode)| >= s.Off()
    ensures k.Attach(p) == k <==> k.known == k.cur.value.inode
    ensures k.known != k.cur.value.inode ==>
              var s := k.cur.value;
              Render(t, patterns, k.Next(p).Sessions())
              == Render(t, patterns, k.Sessions()) + Pending(t, s.path, patterns, p.View(s.inode, 0), 0, p.clock)
  {
    hide Poll.View, Consumed, Lines, Render, Pending, Track.Next, Track.Valid;
    NothingConsumed();
    RoundOutput(t, patterns, k, p);
    assert k.known != k.cur.value.inode ==> |k.Attach(p).closed| == |k.Sessions()| > |k.closed|;
  }
}
