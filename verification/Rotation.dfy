/** Daily rotation, one growing file, and a truncation nobody saw. */
module Rotation {
  import opened Text
  import opened Logtail
  import opened Tailing
  import opened TailingLaws

  // ---------------------------------------------------------------- names of growing files

  predicate Names(p: Poll, path: string) {
    p.latest == Some(path) && path != ""
  }

  /** The lookup gives `path`, and it can be opened. */
  predicate Opened(p: Poll, path: string) {
    Names(p, path) && path in p.atOpen.names
  }

  /** The lookup gives `path`, and its stat succeeds. */
  predicate Found(p: Poll, path: string) {
    Names(p, path) && path in p.atStat.names
  }

  /** The lookup gives another name than `path`. */
  predicate Moves(p: Poll, path: string) {
    p.latest.Some? && p.latest.value != "" && p.latest.value != path
  }

  /** Lookups, stats and opens may fail; where they succeed, a name stands for its usual file. */
  predicate Plain(p: Poll, files: map<string, Inode>) {
    p.latest.Some? && p.latest.value != "" ==>
      var path := p.latest.value;
      && path in files
      && (path in p.atStat.names ==> p.atStat.names[path] == files[path])
      && (path in p.atOpen.names ==> p.atOpen.names[path] == files[path])
  }

  /** Names of different files that are only appended to, in any order, and with any failing calls. No
      file has the key the loop starts with. */
  ghost predicate Rotates(script: seq<Poll>, files: map<string, Inode>) {
    && (forall a, b :: a in files && b in files && a != b ==> files[a] != files[b])
    && (forall a :: a in files ==> files[a] != 0)
    && (forall i :: 0 <= i < |script| ==> Plain(script[i], files))
    && AppendOnly(script)
    && (forall i, inode {:trigger script[i].After(inode)} ::
          0 <= i < |script| - 1 ==> script[i].After(inode) <= script[i + 1].atStat.Content(inode))
  }

  predicate Filed(files: map<string, Inode>, s: Session) {
    s.path != "" && s.path in files && s.inode == files[s.path]
  }

  predicate HasSession(ss: seq<Session>, path: string) {
    exists n :: 0 <= n < |ss| && ss[n].path == path
  }

  /** Round l gives the session's handle up: it finds another name, or the name with a file that is not
      the remembered one. */
  predicate GivesUp(script: seq<Poll>, l: nat, s: Session) {
    l < |script|
    && (Moves(script[l], s.path) || (Found(script[l], s.path) && Run(script[..l]).known != s.inode))
  }

  /** Session n is read up to the very round before it is given up, or up to the last. */
  ghost predicate ReadUntilLeft(script: seq<Poll>, n: nat, s: Session) {
    exists j: nat :: LastReads(script, j, n) && (j == |script| - 1 || GivesUp(script, j + 1, s))
  }

  /** Every session is a known file's and read as long as it is not given up. */
  ghost predicate AllRead(script: seq<Poll>, files: map<string, Inode>, ss: seq<Session>) {
    forall n :: 0 <= n < |ss| ==> Filed(files, ss[n]) && ReadUntilLeft(script, n, ss[n])
  }

  /** Every current name that could be opened has a session. */
  ghost predicate AllOpened(script: seq<Poll>, ss: seq<Session>) {
    forall i, path :: 0 <= i < |script| && Opened(script[i], path) ==> HasSession(ss, path)
  }

  ghost predicate DistinctPaths(ss: seq<Session>) {
    forall n, l :: 0 <= n < l < |ss| ==> ss[n].path != ss[l].path
  }

  // ---------------------------------------------------------------- what makes a file be read again

  /** Round i is the first that can open `path`. */
  ghost predicate FirstOpens(script: seq<Poll>, i: nat, path: string) {
    i < |script| && Opened(script[i], path) && forall l: nat :: l < i ==> !Opened(script[l], path)
  }

  /** Since round i, up to round l, the lookup gave another name; or the name was found again although
      the handle opened in round i could not be stat'ed. */
  ghost predicate LeftBy(script: seq<Poll>, i: nat, l: nat, path: string) {
    exists j :: i < j <= l < |script| && Leaves(script[i], script[j], path)
  }

  predicate Leaves(opening: Poll, p: Poll, path: string) {
    Moves(p, path) || (!opening.fstat && Found(p, path))
  }

  /** Some name is opened once more after it was left. */
  ghost predicate Reopens(script: seq<Poll>) {
    exists l: nat :: ReopensIn(script, l)
  }

  ghost predicate ReopensIn(script: seq<Poll>, l: nat) {
    exists path: string, i: nat :: ReopensAt(script, path, i, l)
  }

  ghost predicate ReopensAt(script: seq<Poll>, path: string, i: nat, l: nat) {
    FirstOpens(script, i, path) && LeftBy(script, i, l, path) && Opened(script[l], path)
  }

  /** Where session n stands: its file was first opened in round i, it is finished if and only if it was
      left since, and its handle is identified if and only if round i could stat it. */
  ghost predicate Placed(script: seq<Poll>, k: Track, n: nat, i: nat)
    requires n < |k.Sessions()|
  {
    var s := k.Sessions()[n];
    && FirstOpens(script, i, s.path)
    && (n < |k.closed| <==> LeftBy(script, i, |script| - 1, s.path))
    && (n == |k.closed| ==> (k.known == s.inode <==> script[i].fstat))
  }

  ghost predicate IsPlaced(script: seq<Poll>, k: Track, n: nat)
    requires n < |k.Sessions()|
  {
    exists i: nat :: Placed(script, k, n, i)
  }

  ghost predicate AllPlaced(script: seq<Poll>, k: Track) {
    forall n: nat :: n < |k.Sessions()| ==> IsPlaced(script, k, n)
  }

  ghost predicate Settled(script: seq<Poll>, files: map<string, Inode>, k: Track) {
    && (k.cur.Some? ==> script != [] && Reads(script, |script| - 1, |k.closed|) && Filed(files, k.cur.value))
    && (k.known == 0 || exists n :: 0 <= n < |k.Sessions()| && k.Sessions()[n].inode == k.known)
  }

  /** Rotation, whatever names become current in whatever order and whatever calls fail: every name that
      could be opened has a session; each session is read until the poll that gives it up, and is its
      file from byte 0 as seen then. And exactly when no name is opened once more after it was left, each
      file is read in one session only. */
  lemma {:induction false} RotationLaw(script: seq<Poll>, files: map<string, Inode>)
    requires Rotates(script, files)
    ensures Real(script)
    ensures AllRead(script, files, Run(script).Sessions()) && AllOpened(script, Run(script).Sessions())
    ensures DistinctPaths(Run(script).Sessions()) <==> !Reopens(script)
    ensures Settled(script, files, Run(script))
    ensures DistinctPaths(Run(script).Sessions()) ==> AllPlaced(script, Run(script))
  {
    hide Rotates, Settled, Real, Poll.After, Run, AppendOnly, AllRead, AllOpened, AllPlaced, Reopens, DistinctPaths;
    RotatesBefore(script, files);
    AppendOnlyIsUnaltered(script);
    if script == [] {
      NothingOpened(files);
    } else {
      var m := |script| - 1;
      var k, p := Run(script[..m]), script[m];
      RotationLaw(script[..m], files);
      RunStep(script);
      RoundShape(script, files, k);
      assert LastRound(script, files, k) by {
        assert k.Next(p) == k.Attach(p).Drained(p);
      }
      RoundSettles(script, files, k);
      RoundReadsAll(script, files, k);
      RoundOpensAll(script, files, k);
      RoundDistinct(script, files, k);
    }
  }

  lemma NothingOpened(files: map<string, Inode>)
    ensures AllRead([], files, Run([]).Sessions()) && AllOpened([], Run([]).Sessions()) && Settled([], files, Run([]))
    ensures DistinctPaths(Run([]).Sessions()) && !Reopens([]) && AllPlaced([], Run([]))
  {
  }

  lemma RotatesBefore(script: seq<Poll>, files: map<string, Inode>)
    requires Rotates(script, files)
    ensures AppendOnly(script)
    ensures script != [] ==> Rotates(script[..|script| - 1], files) && Plain(script[|script| - 1], files)
  {
    hide Poll.After;
    if script != [] {
      Shorter(script);
    }
  }

  /** What a round comes to: it stays, opens the current name, or cannot. */
  predicate RoundMoves(k: Track, k': Track, p: Poll, files: map<string, Inode>) {
    if p.latest.Some? && p.latest.value != ""
       && (k.cur.None? || p.latest.value != k.cur.value.path
           || (p.latest.value in p.atStat.names && k.known != k.cur.value.inode))
    then
      && k'.closed == k.Sessions()
      && (k'.cur.Some? <==> p.latest.value in p.atOpen.names)
      && (k'.cur.Some? ==> k'.cur.value.path == p.latest.value && Filed(files, k'.cur.value))
      && k'.known == if k'.cur.Some? && p.fstat then k'.cur.value.inode else k.known
    else k' == k
  }

  lemma RoundShape(script: seq<Poll>, files: map<string, Inode>, k: Track)
    requires script != [] && Rotates(script, files) && k == Run(script[..|script| - 1])
    requires Settled(script[..|script| - 1], files, k)
    ensures Attached(script, |script| - 1) == k.Attach(script[|script| - 1])
    ensures RoundMoves(k, k.Attach(script[|script| - 1]), script[|script| - 1], files)
  {
    hide Poll.View, Poll.After, Consumed, Lines, Run, AppendOnly, Reads;
    var p := script[|script| - 1];
    RotatesBefore(script, files);
    RunStep(script);
    if k.cur.Some? {
      CurrentLongEnough(script, files, k);
    }
  }

  lemma CurrentLongEnough(script: seq<Poll>, files: map<string, Inode>, k: Track)
    requires script != [] && Rotates(script, files) && k == Run(script[..|script| - 1]) && k.cur.Some?
    ensures |script[|script| - 1].atStat.Content(k.cur.value.inode)| >= k.cur.value.Off()
  {
    hide Poll.View, Poll.After, Run, AppendOnly;
    RotatesBefore(script, files);
    var m, inode := |script| - 1, k.cur.value.inode;
    CurrentInFile(script);
    assert script[m - 1].After(inode) <= script[m - 1 + 1].atStat.Content(inode);
    assert k.cur.value.Off() <= |k.cur.value.text|;
  }

  lemma DrainKeeps(k: Track, p: Poll)
    ensures var k' := k.Drained(p);
            && k'.closed == k.closed && k'.known == k.known && (k'.cur.Some? <==> k.cur.Some?)
            && |k'.Sessions()| == |k.Sessions()|
            && (k.cur.Some? ==> k'.cur.value.path == k.cur.value.path && k'.cur.value.inode == k.cur.value.inode)
            && forall n :: 0 <= n < |k.Sessions()| ==>
                 k'.Sessions()[n].path == k.Sessions()[n].path && k'.Sessions()[n].inode == k.Sessions()[n].inode
  {
    hide Poll.View, Consumed, Lines;
  }

  /** The last round of a rotation and what went before. */
  ghost predicate LastRound(script: seq<Poll>, files: map<string, Inode>, k: Track) {
    script != [] && Rotates(script, files) &&
    var before, p := script[..|script| - 1], script[|script| - 1];
    && k == Run(before) && AllRead(before, files, k.Sessions()) && AllOpened(before, k.Sessions())
    && Settled(before, files, k)
    && Attached(script, |script| - 1) == k.Attach(p) && Run(script) == k.Attach(p).Drained(p)
    && RoundMoves(k, k.Attach(p), p, files)
  }

  /** Sessions keep their places and files. */
  lemma RoundKeepsFiles(script: seq<Poll>, files: map<string, Inode>, k: Track)
    requires LastRound(script, files, k)
    ensures var k', k'' := k.Attach(script[|script| - 1]), Run(script);
            var ss := k''.Sessions();
            && k''.closed == k'.closed && k''.known == k'.known && (k''.cur.Some? <==> k'.cur.Some?)
            && |k.Sessions()| <= |ss| == |k'.Sessions()|
            && (forall n :: 0 <= n < |k.Sessions()| ==>
                ss[n].path == k.Sessions()[n].path && ss[n].inode == k.Sessions()[n].inode)
            && (k'.cur.Some? ==> |ss| == |k'.closed| + 1 && ss[|k'.closed|].path == k'.cur.value.path
                                 && ss[|k'.closed|].inode == k'.cur.value.inode
                                 && k''.cur.value == ss[|k'.closed|])
            && (k'.cur.None? ==> |ss| == |k'.closed|)
            && (k' == k || k'.closed == k.Sessions())
  {
    hide Rotates, AllRead, AllOpened, Settled, Attached, Run, Track.Attach, Track.Drained, Filed;
    DrainKeeps(k.Attach(script[|script| - 1]), script[|script| - 1]);
  }

  lemma RoundSettles(script: seq<Poll>, files: map<string, Inode>, k: Track)
    requires LastRound(script, files, k)
    ensures Settled(script, files, Run(script))
  {
    hide Rotates, AllRead, AllOpened, Attached, Run, Reads, Track.Attach, Track.Drained;
    RoundKeepsFiles(script, files, k);
    RotatesBefore(script, files);
    var k', k'' := k.Attach(script[|script| - 1]), Run(script);
    if k'.cur.Some? {
      AppendOnlyReads(script);
    }
    if k'.known == k.known && k.known != 0 {
      var n :| 0 <= n < |k.Sessions()| && k.Sessions()[n].inode == k.known;
      assert k''.Sessions()[n].inode == k''.known;
    } else if k'.known != 0 {
      assert k''.Sessions()[|k'.closed|].inode == k''.known;
    }
  }

  // ---------------------------------------------------------------- reading on, and giving up

  lemma RoundReadsAll(script: seq<Poll>, files: map<string, Inode>, k: Track)
    requires LastRound(script, files, k)
    ensures AllRead(script, files, Run(script).Sessions())
  {
    hide Rotates, Run, Attached, Reads, Track.Attach, Track.Drained, ReadUntilLeft, AllOpened, Settled, Track.Sessions;
    RoundKeepsFiles(script, files, k);
    var before, ss := script[..|script| - 1], Run(script).Sessions();
    forall n | 0 <= n < |ss| ensures Filed(files, ss[n]) && ReadUntilLeft(script, n, ss[n]) {
      assert n < |k.Sessions()| ==> Filed(files, k.Sessions()[n]) && ReadUntilLeft(before, n, k.Sessions()[n]);
      RoundFiled(script, files, k, n);
      RoundReads(script, files, k, n);
    }
  }

  lemma RoundFiled(script: seq<Poll>, files: map<string, Inode>, k: Track, n: nat)
    requires LastRound(script, files, k) && n < |Run(script).Sessions()|
    ensures Filed(files, Run(script).Sessions()[n])
  {
    hide Rotates, Run, Attached, Reads, Track.Attach, Track.Drained, ReadUntilLeft, AllOpened;
    RoundKeepsFiles(script, files, k);
    assert n < |k.Sessions()| ==> Filed(files, k.Sessions()[n]);
    assert k.cur.Some? ==> k.Sessions()[|k.closed|] == k.cur.value;
  }

  /** A session goes on, was finished before, or is given up now. */
  lemma RoundPlaces(script: seq<Poll>, files: map<string, Inode>, k: Track, n: nat)
    requires LastRound(script, files, k) && n < |Run(script).Sessions()|
    ensures AppendOnly(script)
    ensures var k' := Attached(script, |script| - 1);
            (n == |k'.closed| && k'.cur.Some?) || (n < |k'.closed| && n < |k.Sessions()|)
    ensures n >= |k.closed| && n < |Attached(script, |script| - 1).closed| ==>
              FinishedNow(script, n, Run(script).Sessions()[n])
  {
    hide Rotates, Run, Reads, AllRead, AllOpened, Attached, Track.Attach, Track.Drained, RoundMoves, Settled;
    RoundKeepsFiles(script, files, k);
    RotatesBefore(script, files);
    if n >= |k.closed| && n < |Attached(script, |script| - 1).closed| {
      CurrentIsFinished(script, files, k, n);
      SameGivesUp(script, k.Sessions()[n], Run(script).Sessions()[n]);
    }
  }

  ghost predicate FinishedNow(script: seq<Poll>, n: nat, s: Session) {
    |script| > 1 && Reads(script[..|script| - 1], |script| - 2, n) && GivesUp(script, |script| - 1, s)
  }

  lemma SameGivesUp(script: seq<Poll>, s: Session, s': Session)
    requires s.path == s'.path && s.inode == s'.inode
    ensures forall l: nat :: GivesUp(script, l, s) <==> GivesUp(script, l, s')
  {
  }

  lemma CurrentIsFinished(script: seq<Poll>, files: map<string, Inode>, k: Track, n: nat)
    requires script != [] && Settled(script[..|script| - 1], files, k) && k == Run(script[..|script| - 1])
    requires Attached(script, |script| - 1) == k.Attach(script[|script| - 1])
    requires RoundMoves(k, k.Attach(script[|script| - 1]), script[|script| - 1], files)
    requires |k.closed| <= n < |Attached(script, |script| - 1).closed|
    ensures n < |k.Sessions()| && FinishedNow(script, n, k.Sessions()[n])
  {
    hide Run, Reads, Attached, Track.Attach, Filed;
  }

  lemma RoundReads(script: seq<Poll>, files: map<string, Inode>, k: Track, n: nat)
    requires LastRound(script, files, k) && n < |Run(script).Sessions()|
    requires n < |k.Sessions()| ==> ReadUntilLeft(script[..|script| - 1], n, k.Sessions()[n])
    ensures ReadUntilLeft(script, n, Run(script).Sessions()[n])
  {
    RoundPlaces(script, files, k, n);
    var s := Run(script).Sessions()[n];
    RoundKeepsFiles(script, files, k);
    assert |k.closed| <= |k.Sessions()| && k == Run(script[..|script| - 1]);
    hide LastRound, Run, Attached, Reads, ReadUntilLeft, AppendOnly, Track.Sessions, GivesUp;
    var k' := Attached(script, |script| - 1);
    if n == |k'.closed| {
      AppendOnlyReads(script);
      ReadToTheLast(script, n, s);
    } else if n < |k.closed| {
      StillReadUntilLeft(script, n, k.Sessions()[n], s);
    } else {
      NowLeft(script, n, s);
    }
  }

  lemma ReadToTheLast(script: seq<Poll>, n: nat, s: Session)
    requires script != [] && Reads(script, |script| - 1, n)
    ensures ReadUntilLeft(script, n, s)
  {
    hide Reads;
    assert LastReads(script, |script| - 1, n);
  }

  /** A round reads the session that is current after it. */
  lemma LastRoundReads(script: seq<Poll>, n: nat)
    requires script != [] && Reads(script, |script| - 1, n)
    ensures |Run(script).closed| == n
  {
    hide Poll.View, Consumed, ViewAt, Track.Attach;
    RunStep(script);
    DrainKeeps(Attached(script, |script| - 1), script[|script| - 1]);
  }

  lemma FinishedIsNotRead(script: seq<Poll>, j: nat, n: nat)
    requires j < |script| && n < |Attached(script, j).closed|
    ensures !Reads(script, j, n)
  {
  }

  lemma StillReadUntilLeft(script: seq<Poll>, n: nat, was: Session, s: Session)
    requires script != [] && ReadUntilLeft(script[..|script| - 1], n, was)
    requires s.path == was.path && s.inode == was.inode
    requires n < |Run(script[..|script| - 1]).closed| && n < |Attached(script, |script| - 1).closed|
    ensures ReadUntilLeft(script, n, s)
  {
    hide Run, Attached, Reads;
    var m := |script| - 1;
    var before := script[..m];
    var j: nat :| LastReads(before, j, n) && (j == m - 1 || GivesUp(before, j + 1, was));
    if j == m - 1 {
      LastRoundReads(before, n);
    } else {
      FinishedIsNotRead(script, m, n);
      forall i: nat | i < m ensures Reads(script, i, n) <==> Reads(before, i, n) {
        Earlier(script, m, i);
      }
      assert before[..j + 1] == script[..j + 1] && before[j + 1] == script[j + 1];
      assert LastReads(script, j, n) && GivesUp(script, j + 1, s);
    }
  }

  lemma NowLeft(script: seq<Poll>, n: nat, s: Session)
    requires FinishedNow(script, n, s) && n < |Attached(script, |script| - 1).closed|
    ensures ReadUntilLeft(script, n, s)
  {
    hide Run, ViewAt, Track.Attach, GivesUp;
    var m := |script| - 1;
    Earlier(script, m, m - 1);
    assert LastReads(script, m - 1, n) && GivesUp(script, m - 1 + 1, s);
  }

  // ---------------------------------------------------------------- one session per file

  lemma RoundOpensAll(script: seq<Poll>, files: map<string, Inode>, k: Track)
    requires LastRound(script, files, k)
    ensures AllOpened(script, Run(script).Sessions())
  {
    hide Rotates, Run, Attached, Reads, Track.Attach, Track.Drained, AllRead, Settled, HasSession, RoundMoves;
    hide Track.Sessions;
    RoundKeepsFiles(script, files, k);
    var before, m := script[..|script| - 1], |script| - 1;
    forall i, path | 0 <= i < |script| && Opened(script[i], path) ensures HasSession(Run(script).Sessions(), path) {
      if i < m {
        assert before[i] == script[i];
        StillOpened(k.Sessions(), Run(script).Sessions(), path);
      } else {
        NowOpened(script, files, k, path);
      }
    }
  }

  lemma NowOpened(script: seq<Poll>, files: map<string, Inode>, k: Track, path: string)
    requires LastRound(script, files, k) && Opened(script[|script| - 1], path)
    ensures HasSession(Run(script).Sessions(), path)
  {
    hide Rotates, AllRead, AllOpened, Run, Attached, Reads, Track.Attach, Track.Drained, Settled, HasSession, Filed;
    RoundKeepsFiles(script, files, k);
    OneOf(Run(script).Sessions(), |k.Attach(script[|script| - 1]).closed|);
  }

  lemma OneOf(ss: seq<Session>, n: nat)
    requires n < |ss|
    ensures HasSession(ss, ss[n].path)
  {
  }

  lemma StillOpened(was: seq<Session>, ss: seq<Session>, path: string)
    requires HasSession(was, path) && |was| <= |ss| && forall n :: 0 <= n < |was| ==> ss[n].path == was[n].path
    ensures HasSession(ss, path)
  {
    var n :| 0 <= n < |was| && was[n].path == path;
    assert ss[n].path == path;
  }

  lemma FirstOpensStays(script: seq<Poll>, i: nat, path: string)
    requires script != []
    ensures FirstOpens(script[..|script| - 1], i, path) <==> i < |script| - 1 && FirstOpens(script, i, path)
  {
    var before := script[..|script| - 1];
    assert forall l :: 0 <= l < |before| ==> before[l] == script[l];
  }

  /** One round later, what was left stays left; else it is left if this round leaves it. */
  lemma LeftStep(script: seq<Poll>, i: nat, path: string)
    requires script != []
    ensures forall l: nat :: l < |script| - 1 ==>
              (LeftBy(script[..|script| - 1], i, l, path) <==> LeftBy(script, i, l, path))
    ensures var m := |script| - 1;
            (LeftBy(script, i, m, path)
             <==> (m > 0 && LeftBy(script[..m], i, m - 1, path)) || (i < m && Leaves(script[i], script[m], path)))
  {
    hide Leaves;
    var m := |script| - 1;
    var before := script[..m];
    assert forall l :: 0 <= l < m ==> before[l] == script[l];
    if LeftBy(script, i, m, path) {
      var j :| i < j <= m && Leaves(script[i], script[j], path);
      assert j < m ==> Leaves(before[i], before[j], path);
    }
    if m > 0 && LeftBy(before, i, m - 1, path) {
      var j :| i < j <= m - 1 && Leaves(before[i], before[j], path);
      assert Leaves(script[i], script[j], path);
    }
    forall l: nat | l < m ensures LeftBy(before, i, l, path) <==> LeftBy(script, i, l, path) {
      assert forall j :: i < j <= l ==> (Leaves(before[i], before[j], path) <==> Leaves(script[i], script[j], path));
    }
  }

  /** Some name is opened once more if it was before or is now. */
  lemma ReopensStep(script: seq<Poll>)
    requires script != []
    ensures Reopens(script)
       <==> Reopens(script[..|script| - 1]) || ReopensIn(script, |script| - 1)
  {
    hide ReopensIn;
    var m := |script| - 1;
    var before := script[..m];
    forall l: nat
      ensures ReopensIn(before, l) <==> l < m && ReopensIn(script, l)
      ensures ReopensIn(script, l) ==> l <= m
    {
      ReopensInBefore(script, l);
    }
  }

  lemma ReopensInBefore(script: seq<Poll>, l: nat)
    requires script != []
    ensures ReopensIn(script[..|script| - 1], l) <==> l < |script| - 1 && ReopensIn(script, l)
    ensures ReopensIn(script, l) ==> l < |script|
  {
    hide ReopensAt;
    var m := |script| - 1;
    var before := script[..m];
    forall path: string, i: nat
      ensures ReopensAt(before, path, i, l) <==> l < m && ReopensAt(script, path, i, l)
      ensures ReopensAt(script, path, i, l) ==> l < |script|
    {
      ReopensBefore(script, path, i, l);
    }
  }

  lemma ReopensBefore(script: seq<Poll>, path: string, i: nat, l: nat)
    requires script != []
    ensures ReopensAt(script[..|script| - 1], path, i, l) <==> l < |script| - 1 && ReopensAt(script, path, i, l)
    ensures ReopensAt(script, path, i, l) ==> i < l < |script|
  {
    FirstOpensStays(script, i, path);
    LeftStep(script, i, path);
    hide FirstOpens, Opened, Leaves;
  }

  lemma RoundDistinct(script: seq<Poll>, files: map<string, Inode>, k: Track)
    requires LastRound(script, files, k)
    requires DistinctPaths(k.Sessions()) <==> !Reopens(script[..|script| - 1])
    requires DistinctPaths(k.Sessions()) ==> AllPlaced(script[..|script| - 1], k)
    ensures DistinctPaths(Run(script).Sessions()) <==> !Reopens(script)
    ensures DistinctPaths(Run(script).Sessions()) ==> AllPlaced(script, Run(script))
  {
    hide Rotates, AllRead, AllOpened, Settled, RoundMoves, Run, Reopens, ReopensAt, AllPlaced, Track.Attach;
    hide DistinctPaths;
    var m := |script| - 1;
    ReopensStep(script);
    RoundStaysDistinct(script, files, k);
    if DistinctPaths(k.Sessions()) {
      if ReopensIn(script, m) {
        var path: string, i: nat :| ReopensAt(script, path, i, m);
        ReopenedTwice(script, files, k, path, i);
      } else {
        OpenedOnce(script, files, k);
        RoundPlacesAll(script, files, k);
      }
    }
  }

  lemma RoundStaysDistinct(script: seq<Poll>, files: map<string, Inode>, k: Track)
    requires LastRound(script, files, k)
    ensures DistinctPaths(Run(script).Sessions()) ==> DistinctPaths(k.Sessions())
  {
    hide Run, Rotates, AllRead, AllOpened, Settled, Attached, Track.Attach, Track.Drained, RoundMoves;
    RoundKeepsFiles(script, files, k);
  }

  /** A name opened once more after it was left has two sessions. */
  lemma ReopenedTwice(script: seq<Poll>, files: map<string, Inode>, k: Track, path: string, i: nat)
    requires LastRound(script, files, k) && AllPlaced(script[..|script| - 1], k)
    requires ReopensAt(script, path, i, |script| - 1)
    ensures !DistinctPaths(Run(script).Sessions())
  {
    hide Run, Rotates, AllRead, Settled, Attached, Reads, Track.Attach, Track.Drained, LeftBy, Filed;
    var m := |script| - 1;
    var p := script[m];
    ReopensBefore(script, path, i, m);
    FirstOpensStays(script, i, path);
    LeftStep(script, i, path);
    RoundKeepsFiles(script, files, k);
    assert Opened(script[..m][i], path);
    assert HasSession(k.Sessions(), path);
    var n :| 0 <= n < |k.Sessions()| && k.Sessions()[n].path == path;
    assert IsPlaced(script[..m], k, n);
    var i': nat :| Placed(script[..m], k, n, i');
    FirstOpensOnce(script[..m], i, i', path);
    var k', ss := k.Attach(p), Run(script).Sessions();
    assert n == |k.closed| ==> Leaves(script[i], p, path) && k' != k;
    assert n < |k'.closed|;
    assert ss[n].path == ss[|k'.closed|].path;
  }

  lemma FirstOpensOnce(script: seq<Poll>, i: nat, j: nat, path: string)
    requires FirstOpens(script, i, path) && FirstOpens(script, j, path)
    ensures i == j
  {
  }

  /** Otherwise a round that opens a file opens one that has no session yet. */
  lemma OpenedOnce(script: seq<Poll>, files: map<string, Inode>, k: Track)
    requires LastRound(script, files, k) && AllPlaced(script[..|script| - 1], k) && DistinctPaths(k.Sessions())
    requires !ReopensIn(script, |script| - 1)
    ensures DistinctPaths(Run(script).Sessions())
    ensures var k' := k.Attach(script[|script| - 1]);
            k' != k && k'.cur.Some? ==> !HasSession(k.Sessions(), k'.cur.value.path)
  {
    hide Run, Rotates, AllRead, AllOpened, Settled, Attached, Reads, Track.Attach, Track.Drained, Filed;
    var k' := k.Attach(script[|script| - 1]);
    RoundKeepsFiles(script, files, k);
    if k' != k && k'.cur.Some? {
      forall n | 0 <= n < |k.Sessions()| ensures k.Sessions()[n].path != k'.cur.value.path {
        NotOpenedAgain(script, files, k, n);
      }
    }
  }

  lemma NotOpenedAgain(script: seq<Poll>, files: map<string, Inode>, k: Track, n: nat)
    requires LastRound(script, files, k) && AllPlaced(script[..|script| - 1], k) && n < |k.Sessions()|
    requires !ReopensIn(script, |script| - 1)
    requires var k' := k.Attach(script[|script| - 1]); k' != k && k'.cur.Some?
    ensures k.Sessions()[n].path != k.Attach(script[|script| - 1]).cur.value.path
  {
    hide Run, Rotates, AllRead, AllOpened, Settled, Attached, Reads, Track.Attach, Track.Drained, LeftBy, Filed;
    var m, path := |script| - 1, k.Sessions()[n].path;
    assert IsPlaced(script[..m], k, n);
    var i: nat :| Placed(script[..m], k, n, i);
    FirstOpensStays(script, i, path);
    LeftStep(script, i, path);
    assert !ReopensAt(script, path, i, m);
  }

  lemma RoundPlacesAll(script: seq<Poll>, files: map<string, Inode>, k: Track)
    requires LastRound(script, files, k) && AllPlaced(script[..|script| - 1], k)
    requires !ReopensIn(script, |script| - 1)
    requires var k' := k.Attach(script[|script| - 1]);
             k' != k && k'.cur.Some? ==> !HasSession(k.Sessions(), k'.cur.value.path)
    ensures AllPlaced(script, Run(script))
  {
    assert script != [];
    hide LastRound, Run, Attached, Reads, Track.Attach, Track.Drained, Placed, HasSession, ReopensIn;
    forall n: nat | n < |Run(script).Sessions()| ensures IsPlaced(script, Run(script), n) {
      if n < |k.Sessions()| {
        assert IsPlaced(script[..|script| - 1], k, n);
        var i: nat :| Placed(script[..|script| - 1], k, n, i);
        StillPlaced(script, files, k, n, i);
      } else {
        NowPlaced(script, files, k, n);
      }
    }
  }

  lemma StillPlaced(script: seq<Poll>, files: map<string, Inode>, k: Track, n: nat, i: nat)
    requires LastRound(script, files, k) && n < |k.Sessions()| && Placed(script[..|script| - 1], k, n, i)
    requires !ReopensIn(script, |script| - 1)
    ensures n < |Run(script).Sessions()| && Placed(script, Run(script), n, i)
  {
    hide Run, Rotates, AllRead, AllOpened, Settled, Attached, Reads, Track.Attach, Track.Drained, LeftBy, Filed;
    var m, path := |script| - 1, k.Sessions()[n].path;
    RoundKeepsFiles(script, files, k);
    FirstOpensStays(script, i, path);
    LeftStep(script, i, path);
  }

  lemma NowPlaced(script: seq<Poll>, files: map<string, Inode>, k: Track, n: nat)
    requires LastRound(script, files, k) && |k.Sessions()| <= n < |Run(script).Sessions()|
    requires var k' := k.Attach(script[|script| - 1]);
             k' != k && k'.cur.Some? ==> !HasSession(k.Sessions(), k'.cur.value.path)
    ensures Placed(script, Run(script), n, |script| - 1)
  {
    hide Run, Attached, Reads, Track.Attach, Track.Drained, ReadUntilLeft, AppendOnly;
    RoundKeepsFiles(script, files, k);
    var m := |script| - 1;
    var p, k' := script[m], k.Attach(script[m]);
    var path := k'.cur.value.path;
    assert FirstOpens(script, m, path) by {
      forall l: nat | l < m ensures !Opened(script[l], path) {
        assert script[..m][l] == script[l];
      }
    }
    assert !LeftBy(script, m, m, path);
    NewIsUnknown(script, files, k, path);
  }

  lemma NewIsUnknown(script: seq<Poll>, files: map<string, Inode>, k: Track, path: string)
    requires LastRound(script, files, k) && path in files && !HasSession(k.Sessions(), path)
    ensures k.known != files[path]
  {
    hide Run, Attached, Reads, Track.Attach, Track.Drained, ReadUntilLeft, AppendOnly, AllOpened, RoundMoves;
    if k.known != 0 {
      var n :| 0 <= n < |k.Sessions()| && k.Sessions()[n].inode == k.known;
      assert Filed(files, k.Sessions()[n]);
    }
  }

  // ---------------------------------------------------------------- one growing file

  /** A single growing file, whatever calls fail: there is a session as soon as the file could be opened;
      it is the only one exactly when no poll found the name again after an open whose handle could not
      be stat'ed; and while there is a handle the last round reads it. */
  lemma OneSession(script: seq<Poll>, path: string, inode: Inode)
    requires inode != 0 && Rotates(script, map[path := inode])
    ensures var ss := Run(script).Sessions();
            && (forall n :: 0 <= n < |ss| ==> ss[n].path == path && ss[n].inode == inode)
            && (ss != [] <==> exists i :: 0 <= i < |script| && Opened(script[i], path))
            && (|ss| <= 1 <==> !Reopens(script))
    ensures Run(script).cur.Some? ==>
              && Run(script).cur.value.path == path && Run(script).cur.value.inode == inode
              && script != [] && Run(script).cur.value.text == ViewAt(script, |script| - 1)
              && SameFile(script, |script| - 1, Run(script).cur.value)
              && (!Reopens(script) ==> Run(script).closed == [])
  {
    hide Run, Rotates, ReadUntilLeft, Real, Attached, ViewAt, Reads, Poll.View, Reopens, SameFile, Opened;
    var files, k, ss := map[path := inode], Run(script), Run(script).Sessions();
    RotationLaw(script, files);
    assert forall n :: 0 <= n < |ss| ==> ss[n].path == path && ss[n].inode == inode;
    assert |ss| > 1 ==> ss[0].path == ss[1].path;
    if ss != [] {
      OpenedBefore(script, 0);
    }
    if i :| 0 <= i < |script| && Opened(script[i], path) {
      assert HasSession(ss, path);
    }
    if k.cur.Some? {
      assert ss[|k.closed|] == k.cur.value;
      RealAt(script, |k.closed|);
      ReadLast(script, |k.closed|);
    }
  }

  lemma ReadLast(script: seq<Poll>, n: nat)
    requires script != [] && Reads(script, |script| - 1, n) && n < |Run(script).Sessions()| && IsLastView(script, n)
    ensures var s := Run(script).Sessions()[n];
            s.text == ViewAt(script, |script| - 1) && SameFile(script, |script| - 1, s)
  {
    hide Reads, ViewAt, SameFile, Run;
    var s := Run(script).Sessions()[n];
    var j: nat :| LastReads(script, j, n) && SameFile(script, j, s) && s.text == ViewAt(script, j);
    ReadsInRange(script, j, n);
    assert j == |script| - 1;
  }

  /** A session's file could be opened in some round. */
  lemma {:induction false} OpenedBefore(script: seq<Poll>, n: nat)
    requires n < |Run(script).Sessions()|
    ensures exists i :: 0 <= i < |script| && Opened(script[i], Run(script).Sessions()[n].path)
  {
    hide Poll.View, Consumed, Lines, Run, Track.Attach, Track.Drained;
    if script == [] {
      NothingOpened(map[]);
    } else {
      var m := |script| - 1;
      var before, p, path := script[..m], script[m], Run(script).Sessions()[n].path;
      RunStep(script);
      DrainKeeps(Run(before).Attach(p), p);
      AttachOpens(Run(before), p);
      if n < |Run(before).Sessions()| {
        OpenedBefore(before, n);
        var i :| 0 <= i < m && Opened(before[i], path);
        assert Opened(script[i], path);
      } else if !Opened(p, path) {
        OpenedBefore(before, n - 1);
        var i :| 0 <= i < m && Opened(before[i], path);
        assert Opened(script[i], path);
      }
    }
  }

  lemma AttachOpens(k: Track, p: Poll)
    ensures var ss, ss' := k.Sessions(), k.Attach(p).Sessions();
            && |ss| <= |ss'| <= |ss| + 1 && (forall n :: 0 <= n < |ss| ==> ss'[n] == ss[n])
            && (|ss'| > |ss| ==> Opened(p, ss'[|ss|].path) || (|ss| > 0 && ss'[|ss|].path == ss[|ss| - 1].path))
  {
    hide Consumed;
  }

  /** Incremental tailing is batch processing: however the appends of one file are split over the
      rounds and over the reads within a round, and whatever calls fail in between, the output is the
      batch output of the file as the last round saw it; and where lines carry their own timestamps, of
      the file alone. Only a file that is read again is emitted again before. A last round that comes to
      the end of the file has seen all that was there when it began. */
  lemma IncrementalIsBatch(t: Tailer, patterns: seq<Regex>, script: seq<Poll>, path: string, inode: Inode)
    requires inode != 0 && Rotates(script, map[path := inode]) && Run(script).cur.Some?
    ensures script != [] && Attached(script, |script| - 1).cur.Some?
    ensures var content, last := ViewAt(script, |script| - 1), script[|script| - 1];
            && content <= last.After(inode)
            && (EndsAtEOF(last.Calls(inode), Attached(script, |script| - 1).cur.value.Off()) ==>
                  last.Before(inode) <= content)
    ensures var content := ViewAt(script, |script| - 1);
            var again, out := Render(t, patterns, Run(script).closed), Render(t, patterns, Run(script).Sessions());
            && (!Reopens(script) ==> again == [])
            && (exists clocks :: |clocks| == |Lines(content)|
                                 && out == again + Output(t, path, patterns, Lines(content), clocks))
            && ((forall i :: 0 <= i < |Lines(content)| ==> SelfStamped(t, patterns, Lines(content)[i])) ==>
                  forall clock ::
                    out == again + Output(t, path, patterns, Lines(content), Repeat(clock, |Lines(content)|)))
  {
    hide Lines, Output, SelfStamped, Run, Poll.View, Poll.After, Attached, ViewAt, AppendOnly, Reopens, EndsAtEOF;
    hide Rotates, Render, Track.Valid, Growing;
    OneSession(script, path, inode);
    RotatesBefore(script, map[path := inode]);
    var m := |script| - 1;
    ViewOf(script, m);
    GrowsDuring(script, m, inode);
    ViewBetween(script[m], inode, Attached(script, m).cur.value.Off());
    NothingRead(t, patterns);
    assert Render(t, patterns, []) == [] by { assert Run([]).Sessions() == [] by { NothingEver(); } }
    OutputGrows(t, patterns, script, 0);
    LastSessionIsBatch(t, patterns, Run(script));
  }

  lemma NothingEver()
    ensures Run([]).Sessions() == []
  {
  }

  lemma LastSessionIsBatch(t: Tailer, patterns: seq<Regex>, k: Track)
    requires k.Valid() && k.cur.Some?
    ensures var s, content := k.cur.value, k.cur.value.text;
            var again, out := Render(t, patterns, k.closed), Render(t, patterns, k.Sessions());
            && (exists clocks :: |clocks| == |Lines(content)|
                                 && out == again + Output(t, s.path, patterns, Lines(content), clocks))
            && ((forall i :: 0 <= i < |Lines(content)| ==> SelfStamped(t, patterns, Lines(content)[i])) ==>
                  forall clock ::
                    out == again + Output(t, s.path, patterns, Lines(content), Repeat(clock, |Lines(content)|)))
  {
    hide Lines, Output, SelfStamped;
    var s, lines := k.cur.value, Lines(k.cur.value.text);
    assert k.Sessions()[|k.closed|] == s;
    RenderSnoc(t, patterns, k.closed, s);
    if forall i :: 0 <= i < |lines| ==> SelfStamped(t, patterns, lines[i]) {
      forall clock
        ensures Output(t, s.path, patterns, lines, s.clocks)
             == Output(t, s.path, patterns, lines, Repeat(clock, |lines|))
      {
        OutputIgnoresClock(t, s.path, patterns, lines, s.clocks, Repeat(clock, |lines|));
      }
    }
  }

  // ---------------------------------------------------------------- one file, whatever is done to it

  /** One name for one file; lookups, stats and opens may fail, and the file may hold anything. */
  predicate OneFile(p: Poll, path: string, inode: Inode) {
    && p.fstat
    && (p.latest.Some? && p.latest.value != "" ==> p.latest.value == path)
    && (path in p.atStat.names ==> p.atStat.names[path] == inode)
    && (path in p.atOpen.names ==> p.atOpen.names[path] == inode)
  }

  /** The poll finds less than the complete part of the last view. */
  predicate Shrunk(view: string, p: Poll, path: string, inode: Inode) {
    Found(p, path) && |p.atStat.Content(inode)| < Consumed(view)
  }

  /** What the next read starts from. */
  function From(view: string, p: Poll, path: string, inode: Inode): nat {
    if Shrunk(view, p, path, inode) then 0 else Consumed(view)
  }

  function NextView(view: Option<string>, p: Poll, path: string, inode: Inode): Option<string> {
    if view.None? then
      if Opened(p, path) then Some(p.View(inode, 0)) else None
    else
      var off := From(view.value, p, path, inode);
      if |p.View(inode, off)| >= off then Some(p.View(inode, off)) else view
  }

  /** What the polls have last seen of the file, told by what it held at their stats and reads alone. */
  function LastView(script: seq<Poll>, path: string, inode: Inode): Option<string> {
    if script == [] then None
    else NextView(LastView(script[..|script| - 1], path, inode), script[|script| - 1], path, inode)
  }

  /** The poll finds less than the complete part of the last view, or is given nothing beyond it, or
      still reads a file that begins with it. */
  predicate Begins(view: Option<string>, p: Poll, path: string, inode: Inode) {
    view.Some? ==>
      var lines := view.value[..Consumed(view.value)];
      var now := p.View(inode, |lines|);
      Shrunk(view.value, p, path, inode) || |now| < |lines| || lines <= now
  }

  ghost predicate AlwaysReal(script: seq<Poll>) {
    forall m :: 0 <= m <= |script| ==> Real(script[..m])
  }

  ghost predicate AlwaysBegins(script: seq<Poll>, path: string, inode: Inode) {
    forall m :: 0 <= m < |script| ==> Begins(LastView(script[..m], path, inode), script[m], path, inode)
  }

  /** The loop's session is the last view. */
  predicate Same(k: Track, view: Option<string>, path: string, inode: Inode) {
    && (k.cur.Some? <==> view.Some?)
    && (k.cur.Some? ==> k.known == inode && k.cur.value.inode == inode && k.cur.value.path == path
                        && k.cur.value.text == view.value)
  }

  /** For a file under one name the exact condition is about the file alone: through a whole run every
      session is the file as last seen, if and only if every poll either finds less than the complete part
      of the last view at its stat, or still reads a file that begins with it. */
  lemma {:induction false} UnrotatedIff(script: seq<Poll>, path: string, inode: Inode)
    requires path != "" && forall i :: 0 <= i < |script| ==> OneFile(script[i], path, inode)
    ensures AlwaysReal(script) <==> AlwaysBegins(script, path, inode)
    ensures AlwaysReal(script) ==> Same(Run(script), LastView(script, path, inode), path, inode)
  {
    hide Real, Begins, Same, NextView, OneFile;
    if script == [] {
      NothingUnrotated(path, inode);
    } else {
      var m := |script| - 1;
      var before, p := script[..m], script[m];
      UnrotatedIff(before, path, inode);
      assert before[..m] == before && script[..m + 1] == script;
      assert forall l :: 0 <= l <= m ==> before[..l] == script[..l];
      assert forall l :: 0 <= l < m ==> before[l] == script[l];
      assert AlwaysReal(script) <==> AlwaysReal(before) && Real(script);
      assert AlwaysBegins(script, path, inode)
        <==> AlwaysBegins(before, path, inode) && Begins(LastView(before, path, inode), p, path, inode);
      if AlwaysReal(before) {
        assert OneFile(p, path, inode) && Real(before);
        UnrotatedStep(script, LastView(before, path, inode), path, inode);
      }
    }
  }

  lemma NothingUnrotated(path: string, inode: Inode)
    ensures Real([]) && Same(Run([]), LastView([], path, inode), path, inode)
  {
  }

  lemma UnrotatedStep(script: seq<Poll>, view: Option<string>, path: string, inode: Inode)
    requires script != [] && path != "" && OneFile(script[|script| - 1], path, inode)
    requires Real(script[..|script| - 1]) && Same(Run(script[..|script| - 1]), view, path, inode)
    ensures Real(script) <==> Begins(view, script[|script| - 1], path, inode)
    ensures Real(script) ==> Same(Run(script), NextView(view, script[|script| - 1], path, inode), path, inode)
  {
    hide Real, Run, Begins, Same, NextView, OneFile, Reads, ReadsWell, Attached, ViewAt, Track.Sessions;
    var m := |script| - 1;
    var k, p := Run(script[..m]), script[m];
    RunStep(script);
    RealNow(script);
    RoundSees(k, p, view, path, inode);
    forall n: nat
      ensures Reads(script, m, n)
         <==> k.Attach(p).cur.Some? && n == |k.Attach(p).closed|
              && |p.View(inode, k.Attach(p).cur.value.Off())| >= k.Attach(p).cur.value.Off()
      ensures Reads(script, m, n) ==>
                n < |Run(script).Sessions()|
                && (ReadsWell(script, n)
                    <==> k.Next(p).cur.value.text == p.View(inode, k.Attach(p).cur.value.Off()))
    {
      WhatIsRead(script, k, p, inode, n);
    }
    assert k.Attach(p).cur.Some? ==>
      (Reads(script, m, |k.Attach(p).closed|) <==>
        |p.View(inode, k.Attach(p).cur.value.Off())| >= k.Attach(p).cur.value.Off());
  }

  lemma WhatIsRead(script: seq<Poll>, k: Track, p: Poll, inode: Inode, n: nat)
    requires script != [] && k == Run(script[..|script| - 1]) && p == script[|script| - 1]
    requires k.Attach(p).cur.Some? ==> k.Attach(p).cur.value.inode == inode
    ensures Reads(script, |script| - 1, n)
       <==> k.Attach(p).cur.Some? && n == |k.Attach(p).closed|
            && |p.View(inode, k.Attach(p).cur.value.Off())| >= k.Attach(p).cur.value.Off()
    ensures Reads(script, |script| - 1, n) ==>
              && n < |Run(script).Sessions()|
              && k.Next(p).cur.Some?
              && (ReadsWell(script, n) <==> k.Next(p).cur.value.text == p.View(inode, k.Attach(p).cur.value.Off()))
  {
    hide Run, Consumed, Poll.View, Track.Attach, Session.Reread;
    RunStep(script);
    DrainKeeps(k.Attach(p), p);
    var k'' := k.Next(p);
    assert k''.cur.Some? ==> k''.Sessions()[|k''.closed|] == k''.cur.value;
  }

  /** What a poll of the one file comes to. */
  lemma RoundSees(k: Track, p: Poll, view: Option<string>, path: string, inode: Inode)
    requires path != "" && OneFile(p, path, inode) && Same(k, view, path, inode)
    ensures var k', k'' := k.Attach(p), k.Next(p);
            && (k'.cur.Some? <==> k''.cur.Some?)
            && (k'.cur.Some? ==>
                  var off := k'.cur.value.Off();
                  var now := p.View(inode, off);
                  && k'.cur.value.inode == inode
                  && (Begins(view, p, path, inode) <==> |now| < off || k''.cur.value.text == now))
            && (k'.cur.None? ==> Begins(view, p, path, inode))
            && (Begins(view, p, path, inode) ==> Same(k'', NextView(view, p, path, inode), path, inode))
  {
    hide Poll.View, Consumed, Lines, Session.Reread;
    NothingConsumed();
    var k' := k.Attach(p);
    DrainKeeps(k', p);
    if k'.cur.Some? {
      var s := k'.cur.value;
      var now := p.View(inode, s.Off());
      if |now| >= s.Off() {
        RereadIsFile(s, now, p.clock);
      } else {
        NothingReread(s, now, p.clock);
      }
    }
  }

  // ---------------------------------------------------------------- truncation nobody saw

  /** A log file of one name, always readable. */
  function Plainly(content: string): Poll {
    var world := World(map["log" := 1], map[1 := content]);
    Poll(Some("log"), world, world, true, map[1 := [Read(content, |content|), Read(content, 1)]], 0)
  }

  /** Without the condition the law fails: a file cut short and grown past the offset between two
      rounds makes the loop emit a piece of a line, which no version of the file held as a line. */
  lemma UnseenTruncation(t: Tailer, p: Regex, a: string, pad: string, b: string)
    requires Without(a, '\n') && Without(pad, '\n') && Without(b, '\n') && |pad| == |a| + 1
    requires t.linePrefix.None? && p.Matches(b)
    ensures var script := [Plainly(a + "\n"), Plainly(pad + b + "\n")];
            && !Unaltered(script) && !Real(script)
            && Lines(a + "\n") == [a] && Lines(pad + b + "\n") == [pad + b]
            && exists m <- Render(t, [p], Run(script).Sessions()) :: m.line == b
  {
    hide Render, Output, Lines, Consumed, Run, Attached, ViewAt, Unaltered, Real, IsLastView, Reads, Tail;
    var script, both := [Plainly(a + "\n"), Plainly(pad + b + "\n")], Session("log", 1, a + "\n" + (b + "\n"), [0, 0]);
    TwoRounds(a, pad, b);
    assert both.text != pad + b + "\n" by {
      assert both.text[|a|] == '\n' && (pad + b + "\n")[|a|] == pad[|a|];
    }
    if Real(script) {
      RealAt(script, 0);
      ReadLast(script, 0);
    }
    if Unaltered(script) {
      SessionsAreFiles(script);
    }
    OneLine(a);
    OneLine(b);
    OneLine(pad + b);
    LinesAppend(a + "\n", b + "\n");
    assert "" + (b + "\n") == b + "\n" && [a] + [b] == [a, b];
    SecondLine(t, p, both, a, b);
  }

  /** The first round reads the whole file, the second what lies behind the offset. */
  lemma TwoRounds(a: string, pad: string, b: string)
    requires Without(a, '\n') && Without(b, '\n') && |pad| == |a| + 1
    ensures var script := [Plainly(a + "\n"), Plainly(pad + b + "\n")];
            && Run(script).Sessions() == [Session("log", 1, a + "\n" + (b + "\n"), [0, 0])]
            && Reads(script, 1, 0) && ViewAt(script, 1) == pad + b + "\n"
  {
    hide Track.Attach, Track.Next, Session.Reread, Poll.View, Lines, Consumed;
    var p, q := Plainly(a + "\n"), Plainly(pad + b + "\n");
    var script := [p, q];
    var k0, k1 := Track([], None, 0), Run([p]);
    var blank, first := Session("log", 1, "", []), Session("log", 1, a + "\n", [0]);
    var both := Session("log", 1, a + "\n" + (b + "\n"), [0, 0]);
    assert "" + a + "\n" == a + "\n" == "" + (a + "\n");
    assert [] + [0] == [0] && [0] + [0] == [0, 0];
    NothingConsumed();
    OneLine(a);
    assert script[..1] == [p] && [p][..0] == [];
    assert Run([]) == k0 && k1 == k0.Next(p) && Run(script) == k1.Next(q);
    PlainRound(k0, a + "\n");
    RereadLine(blank, "", a);
    assert k1 == Track([], Some(first), 1);
    PlainRound(k1, pad + b + "\n");
    RereadLine(first, pad, b);
    assert Run(script) == Track([], Some(both), 1);
    assert Attached(script, 1) == k1;
  }

  lemma PlainRound(k: Track, content: string)
    requires k == Track([], None, 0)
          || (k.closed == [] && k.cur.Some? && k.known == k.cur.value.inode == 1 && k.cur.value.path == "log"
              && k.cur.value.Off() <= |content|)
    ensures var s := if k.cur.Some? then k.cur.value else Session("log", 1, "", []);
            && k.Attach(Plainly(content)) == Track([], Some(s), 1)
            && Plainly(content).View(1, s.Off()) == content
            && k.Next(Plainly(content)) == Track([], Some(s.Reread(content, 0)), 1)
  {
    hide Poll.View, Consumed, Session.Reread;
    var s := if k.cur.Some? then k.cur.value else Session("log", 1, "", []);
    WholeRead(content, s.Off());
    assert Plainly(content).View(1, s.Off()) == content by { PlainView(content, s.Off()); }
  }

  lemma PlainView(content: string, off: nat)
    ensures Plainly(content).View(1, off) == Seen([Read(content, |content|), Read(content, 1)], off)
  {
    hide Seen;
  }

  lemma WholeRead(content: string, off: nat)
    requires off <= |content|
    ensures Seen([Read(content, |content|), Read(content, 1)], off) == content
  {
    var last := [Read(content, 1)];
    assert [Read(content, |content|), Read(content, 1)][1..] == last;
    ShortFile(last, |content|);
    assert content[..off] + content[off..] == content && content[off..] + "" == content[off..];
  }

  lemma RereadLine(s: Session, before: string, line: string)
    requires s.Off() == |before| == |s.text| && Without(line, '\n')
    ensures s.Reread(before + line + "\n", 0) == Session(s.path, s.inode, s.text + (line + "\n"), s.clocks + [0])
  {
    hide Consumed, Lines;
    OneLine(line);
    assert (before + line + "\n")[|before|..] == line + "\n";
    assert s.text[..|before|] == s.text && Repeat(0, 1) == [0];
  }

  lemma OneLine(line: string)
    requires Without(line, '\n')
    ensures Lines(line + "\n") == [line] && Tail(line + "\n") == "" && Consumed(line + "\n") == |line| + 1
  {
    var text := line + "\n";
    IndexOfUnique(text, '\n', |line|);
    SplitStep(text);
    assert text[..|line|] == line && text[|line| + 1..] == "";
    NoLines("");
  }

  lemma SecondLine(t: Tailer, p: Regex, s: Session, a: string, b: string)
    requires t.linePrefix.None? && p.Matches(b)
    requires Lines(s.text) == [a, b] && s.clocks == [0, 0]
    ensures exists m <- Render(t, [p], [s]) :: m.line == b
  {
    var hit := Match(s.path, b, p, t.Stamp(b, 0));
    assert [p][..0] == [];
    assert LineOutput(t, s.path, [p], b, 0) == [hit] by { assert Hits(s.path, b, [], hit.at) + [hit] == [hit]; }
    hide Lines, Hits, LineOutput;
    OutputConcat(t, s.path, [p], [a], [0], [b], [0]);
    assert [a] + [b] == [a, b] && [0] + [0] == [0, 0];
    assert Output(t, s.path, [p], [b], [0]) == [hit] + Output(t, s.path, [p], [], []);
    RenderSnoc(t, [p], [], s);
    assert [] + [s] == [s];
    assert hit in Render(t, [p], [s]);
  }
}
