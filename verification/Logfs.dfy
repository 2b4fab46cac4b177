/** Choosing the log file to follow: the newest regular file of a directory. */
module Logfs {
  import opened Text
  import opened Logtail
  import opened Tailing

  /** time.Time{}: the first of January of year 1, in Unix nanoseconds. */
  const ZERO_TIME: Time := -62_135_596_800 * 1_000_000_000

  /** A directory entry; `info` is missing when the file vanished or is a dangling link. */
  datatype Entry = Entry(name: string, isDir: bool, info: Option<Info>) {
    predicate Candidate() {
      !isDir && info.Some? && info.value.regular && info.value.mtime > ZERO_TIME
    }
  }

  datatype Info = Info(regular: bool, mtime: Time)

  /** Entry i is the newest candidate, and the first of the newest in directory order. */
  predicate IsLatest(entries: seq<Entry>, i: nat) {
    && i < |entries| && entries[i].Candidate()
    && (forall j :: 0 <= j < |entries| && entries[j].Candidate() ==>
        entries[j].info.value.mtime <= entries[i].info.value.mtime)
    && (forall j :: 0 <= j < i && entries[j].Candidate() ==> entries[j].info.value.mtime < entries[i].info.value.mtime)
  }

  /** No directory, readable, a regular file, and modified after the beginning of year 1. */
  predicate IsNewFile(e: Entry) {
    !e.isDir && e.info.Some? && e.info.value.regular && e.info.value.mtime > -62_135_596_800_000_000_000
  }

  /** Entry i is such a file; none is newer, and none as new comes before it. */
  predicate IsNewest(entries: seq<Entry>, i: nat) {
    && i < |entries| && IsNewFile(entries[i])
    && forall j :: 0 <= j < |entries| && IsNewFile(entries[j]) ==>
         && entries[j].info.value.mtime <= entries[i].info.value.mtime
         && (entries[j].info.value.mtime == entries[i].info.value.mtime ==> i <= j)
  }

  datatype Latest = NoDir | Empty | File(mtime: Time, name: string)

  /** LatestMtime; `listing` is None when the directory cannot be read. */
  method LatestMtime(listing: Option<seq<Entry>>) returns (r: Latest)
    requires listing.Some? ==> forall i :: 0 <= i < |listing.value| ==> listing.value[i].name != ""
    ensures r.NoDir? <==> listing.None?
    ensures r.Empty? <==> listing.Some? && forall i :: 0 <= i < |listing.value| ==> !IsNewFile(listing.value[i])
    ensures r.File? ==> exists i :: 0 <= i < |listing.value| && IsLatest(listing.value, i)
                                    && r == File(listing.value[i].info.value.mtime, listing.value[i].name)
    ensures r.File? ==> exists i :: 0 <= i < |listing.value| && IsNewest(listing.value, i)
                                    && r == File(listing.value[i].info.value.mtime, listing.value[i].name)
  {
    if listing.None? {
      return NoDir;
    }
    var entries := listing.value;
    var bestT, bestN := ZERO_TIME, "";
    ghost var best := 0;
    for i := 0 to |entries|
      invariant bestN == "" ==> bestT == ZERO_TIME && forall j :: 0 <= j < i ==> !entries[j].Candidate()
      invariant bestN != "" ==> best < i && IsLatest(entries[..i], best)
                                && bestT == entries[best].info.value.mtime && bestN == entries[best].name
    {
      var e := entries[i];
      assert entries[..i + 1] == entries[..i] + [e];
      if e.isDir {
        continue;
      }
      if e.info.None? {
        continue;
      }
      if !e.info.value.regular {
        continue;
      }
      if e.info.value.mtime > bestT {
        bestT, bestN := e.info.value.mtime, e.name;
        best := i;
      }
    }
    assert entries[..|entries|] == entries;
    if bestN == "" {
      return Empty;
    }
    r := File(bestT, bestN);
  }

  // ---------------------------------------------------------------- from one listing to the next

  /** Entry i is newer than entry j, or as new and earlier in the directory. */
  predicate Beats(entries: seq<Entry>, i: nat, j: nat) {
    && i < |entries| && j < |entries| && entries[i].Candidate() && entries[j].Candidate()
    && (entries[i].info.value.mtime > entries[j].info.value.mtime
        || (entries[i].info.value.mtime == entries[j].info.value.mtime && i < j))
  }

  /** No entry of that name is a candidate: it is gone, unreadable, or no regular file. */
  predicate Dropped(entries: seq<Entry>, name: string) {
    forall i :: 0 <= i < |entries| && entries[i].name == name ==> !entries[i].Candidate()
  }

  /** Some entry beats the one of that name. */
  ghost predicate Overtaken(entries: seq<Entry>, name: string) {
    exists i: nat, c: nat :: Beats(entries, i, c) && entries[c].name == name
  }

  predicate DistinctEntries(entries: seq<Entry>) {
    forall i, j :: 0 <= i < j < |entries| ==> entries[i].name != entries[j].name
  }

  /** Between two listings the choice changes exactly when the old choice drops out or is overtaken; in
      the first listing nothing beat it. */
  lemma ChoiceChangesIff(was: seq<Entry>, i: nat, now: seq<Entry>, j: nat)
    requires IsLatest(was, i) && IsLatest(now, j) && DistinctEntries(was) && DistinctEntries(now)
    ensures now[j].name != was[i].name <==> Dropped(now, was[i].name) || Overtaken(now, was[i].name)
    ensures !Dropped(was, was[i].name) && !Overtaken(was, was[i].name)
  {
    var name := was[i].name;
    if now[j].name != name && !Dropped(now, name) {
      var c: nat :| c < |now| && now[c].name == name && now[c].Candidate();
      assert Beats(now, j, c);
    }
    assert forall e: nat, c: nat :: Beats(now, e, c) ==> c != j;
    assert forall e: nat, c: nat :: Beats(was, e, c) ==> c != i;
  }

  /** When the tailer changes its path from one poll to the next: exactly when its file dropped out of
      the listing's candidates or was overtaken. Its session is then finished. */
  lemma TailerSwitchesIff(dir: string, was: seq<Entry>, i: nat, now: seq<Entry>, j: nat, k: Track, p: Poll)
    requires IsLatest(was, i) && IsLatest(now, j) && DistinctEntries(was) && DistinctEntries(now)
    requires k.cur.Some? && k.cur.value.path == dir + "/" + was[i].name && p.latest == Some(dir + "/" + now[j].name)
    ensures var changes, k' := Dropped(now, was[i].name) || Overtaken(now, was[i].name), k.Attach(p);
            && (changes ==> k'.closed == k.Sessions())
            && (k'.cur.Some? ==> (k'.cur.value.path != k.cur.value.path <==> changes))
  {
    ChoiceChangesIff(was, i, now, j);
    hide Dropped, Overtaken, Consumed;
    var a, b := was[i].name, now[j].name;
    assert (dir + "/" + a)[|dir| + 1..] == a && (dir + "/" + b)[|dir| + 1..] == b;
  }

  /** A missing directory is an error to the tailer and an empty one an empty name; either way it goes on
      with the file it has. */
  lemma NoFileNoSwitch(k: Track, p: Poll)
    requires p.latest == None || p.latest == Some("")
    ensures k.Attach(p) == k
  {
  }
}
