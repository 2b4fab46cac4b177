/** The bridge state collector: a progress gauge that is the furthest explorer cursor. */
module BridgeState {
  import opened Text
  import opened Logtail

  datatype Kind = NoKind | KindIO | KindParse

  const MAX_STATE_FILE_SIZE := 16 * 1024 * 1024

  /** What a tick finds: each stage can fail, and the document can lack cursors. */
  datatype StateFile =
    | StatFails
    | OpenFails(mtime: Time, size: nat)
    | BadJSON(mtime: Time, size: nat)
    | Document(mtime: Time, size: nat, cursors: map<string, int>)
  {
    /** The document a tick gets to use. */
    predicate Usable() { Document? && size <= MAX_STATE_FILE_SIZE && cursors != map[] }
  }

  ghost predicate IsMax(cursors: map<string, int>, v: int) {
    (exists name :: name in cursors && cursors[name] == v) && forall name :: name in cursors ==> cursors[name] <= v
  }

  class BridgeStateCollector {
    const path: string
    var lastBlock: int
    var mtime: int
    var explorerCursor: map<string, int>

    constructor (path: string)
      ensures this.path == path && lastBlock == mtime == 0 && explorerCursor == map[]
    {
      this.path := path;
      lastBlock, mtime, explorerCursor := 0, 0, map[];
    }

    /** A usable document sets the gauge to its highest cursor, whatever the iteration order and
        whatever the signs; in every other case the gauge keeps its value. */
    method Tick(file: StateFile) returns (kind: Kind)
      modifies this
      ensures path != "" && file.Usable() ==>
          IsMax(file.cursors, lastBlock) && explorerCursor == old(explorerCursor) + file.cursors
      ensures !(path != "" && file.Usable()) ==> lastBlock == old(lastBlock) && explorerCursor == old(explorerCursor)
      ensures path != "" && file.Document? && file.size <= 16_777_216 && file.cursors != map[] ==>
          IsMax(file.cursors, lastBlock) && explorerCursor == old(explorerCursor) + file.cursors && kind == NoKind
      ensures !(path != "" && file.Document? && file.size <= 16_777_216 && file.cursors != map[]) ==>
          lastBlock == old(lastBlock) && explorerCursor == old(explorerCursor) && (path != "" ==> kind != NoKind)
      ensures if path == "" || file.StatFails? then mtime == old(mtime) else InSecond(mtime, file.mtime)
      ensures kind == if path == "" || file.Usable() then NoKind
                      else if file.StatFails? || file.OpenFails? || file.size > 16_777_216 then KindIO
                      else KindParse
    {
      if path == "" {
        return NoKind;
      }
      if file.StatFails? {
        return KindIO;
      }
      mtime := Unix(file.mtime);
      if file.size > MAX_STATE_FILE_SIZE {
        return KindIO;
      }
      match file
      case OpenFails(_, _) => return KindIO;
      case BadJSON(_, _) => return KindParse;
      case Document(_, _, cursors) =>
        if |cursors| == 0 {
          return KindParse;
        }
        var maxCur := ShowCursors(cursors);
        lastBlock := maxCur;
        return NoKind;
    }

    /** The ticker: any number of ticks, one after the other. */
    method Start(files: seq<StateFile>)
      modifies this
      ensures lastBlock == if path == "" then old(lastBlock) else GaugeAfter(old(lastBlock), files)
    {
      hide IsMax, Highest;
      for i := 0 to |files|
        invariant lastBlock == if path == "" then old(lastBlock) else GaugeAfter(old(lastBlock), files[..i])
      {
        assert files[..i + 1][..i] == files[..i];
        var _ := Tick(files[i]);
        if path != "" && files[i].Usable() {
          HighestUnique(files[i].cursors, lastBlock);
        }
      }
      assert files[..|files|] == files;
    }

    /** The loop over the cursor map, in any order. */
    method ShowCursors(cursors: map<string, int>) returns (maxCur: int)
      requires cursors != map[]
      modifies this`explorerCursor
      ensures explorerCursor == old(explorerCursor) + cursors
      ensures IsMax(cursors, maxCur)
    {
      hide IsMax;
      maxCur := 0;
      var first, done, todo := true, map[], cursors.Keys;
      while todo != {}
        invariant todo <= cursors.Keys && done == cursors - todo
        invariant explorerCursor == old(explorerCursor) + done
        invariant first <==> done == map[]
        invariant !first ==> IsMax(done, maxCur)
      {
        var name :| name in todo;
        var cur := cursors[name];
        MaxOfMore(done, maxCur, name, cur);
        explorerCursor := explorerCursor[name := cur];
        if first || cur > maxCur {
          maxCur, first := cur, false;
        }
        done, todo := done[name := cur], todo - {name};
      }
      assert cursors - todo == cursors;
    }
  }

  lemma MaxOfMore(done: map<string, int>, maxCur: int, name: string, cur: int)
    requires name !in done && (done != map[] ==> IsMax(done, maxCur))
    ensures done[name := cur] != map[]
    ensures IsMax(done[name := cur], if done == map[] || cur > maxCur then cur else maxCur)
  {
    var more := done[name := cur];
    assert name in more && more[name] == cur;
    if done != map[] && cur <= maxCur {
      var top :| top in done && done[top] == maxCur;
      assert top in more && more[top] == maxCur;
    }
  }

  // ---------------------------------------------------------------- over many ticks

  lemma {:induction false} HasMax(cursors: map<string, int>)
    requires cursors != map[]
    ensures exists v :: IsMax(cursors, v)
    decreases |cursors|
  {
    hide IsMax;
    var name :| name in cursors;
    var rest := cursors - {name};
    assert cursors == rest[name := cursors[name]];
    var top := 0;
    if rest != map[] {
      HasMax(rest);
      top :| IsMax(rest, top);
    }
    MaxOfMore(rest, top, name, cursors[name]);
  }

  ghost function Highest(cursors: map<string, int>): (v: int)
    requires cursors != map[]
    ensures IsMax(cursors, v)
  {
    HasMax(cursors);
    var v :| IsMax(cursors, v);
    v
  }

  lemma HighestUnique(cursors: map<string, int>, v: int)
    requires IsMax(cursors, v)
    ensures cursors != map[] && Highest(cursors) == v
  {
  }

  /** The gauge after any history of ticks. */
  ghost function GaugeAfter(start: int, files: seq<StateFile>): int {
    if files == [] then start
    else
      var file := files[|files| - 1];
      if file.Usable() then Highest(file.cursors) else GaugeAfter(start, files[..|files| - 1])
  }

  function Usables(): StateFile -> bool { (file: StateFile) => file.Usable() }

  /** It shows the highest cursor of the last usable document, whatever failed since. */
  lemma {:induction false} GaugeIs(start: int, files: seq<StateFile>)
    ensures var last := LastWhere(files, Usables());
            GaugeAfter(start, files) == if last.Some? then Highest(files[last.value].cursors) else start
  {
    if files != [] {
      GaugeIs(start, files[..|files| - 1]);
    }
  }

  /** Every explorer is still listed, and none has gone back. */
  predicate Ahead(before: map<string, int>, after: map<string, int>) {
    forall name :: name in before ==> name in after && before[name] <= after[name]
  }

  lemma HighestMonotone(before: map<string, int>, after: map<string, int>)
    requires before != map[] && after != map[] && Ahead(before, after)
    ensures Highest(before) <= Highest(after)
  {
    var name :| name in before && before[name] == Highest(before);
    assert after[name] <= Highest(after);
  }

  /** Explorers that only advance never let the gauge go back, from the first usable document on and
      whatever ticks fail. */
  lemma GaugeMonotone(start: int, files: seq<StateFile>, m: nat)
    requires m <= |files| && exists i :: 0 <= i < m && files[i].Usable()
    requires forall i, j :: 0 <= i < j < |files| && files[i].Usable() && files[j].Usable() ==>
               Ahead(files[i].cursors, files[j].cursors)
    ensures GaugeAfter(start, files[..m]) <= GaugeAfter(start, files)
  {
    hide GaugeAfter, Highest, Ahead;
    var before, after := LastWhere(files[..m], Usables()), LastWhere(files, Usables());
    GaugeIs(start, files[..m]);
    GaugeIs(start, files);
    var i :| 0 <= i < m && files[i].Usable();
    assert files[..m][i].Usable();
    assert before.Some? && files[..m][before.value] == files[before.value];
    assert after.Some? && before.value <= after.value;
    if before.value < after.value {
      HighestMonotone(files[before.value].cursors, files[after.value].cursors);
    }
  }

  function UsableCount(files: seq<StateFile>): nat {
    if files == [] then 0
    else UsableCount(files[..|files| - 1]) + if files[|files| - 1].Usable() then 1 else 0
  }

  /** The explorer is in every usable document, at least one further than in the one before. */
  ghost predicate Climbing(files: seq<StateFile>, explorer: string) {
    && (forall i :: 0 <= i < |files| && files[i].Usable() ==> explorer in files[i].cursors)
    && (forall i, j :: 0 <= i < j < |files| && files[i].Usable() && files[j].Usable()
          && (forall k :: i < k < j ==> !files[k].Usable())
          ==> files[j].cursors[explorer] >= files[i].cursors[explorer] + 1)
  }

  /** No healthy explorer is masked for long: one that advances at least 1 from one usable document to
      the next, from a gap of g behind the leader, makes the gauge strictly rise within g + 1 further
      successful ticks, whatever ticks fail in between. */
  lemma LaggardMovesGauge(start: int, files: seq<StateFile>, explorer: string, g: nat)
    requires files != [] && files[0].Usable() && Climbing(files, explorer)
    requires Highest(files[0].cursors) - files[0].cursors[explorer] <= g
    requires UsableCount(files) >= g + 2
    ensures GaugeAfter(start, files) > GaugeAfter(start, files[..1])
  {
    hide Climbing, Highest, GaugeAfter, UsableCount;
    GaugeIs(start, files);
    GaugeIs(start, files[..1]);
    assert files[..1][0].Usable();
    Climbs(files, explorer);
    assert explorer in files[0].cursors by { Listed(files, explorer, 0); }
    var last := LastWhere(files, Usables()).value;
    Listed(files, explorer, last);
    assert files[last].cursors[explorer] <= Highest(files[last].cursors);
  }

  lemma Listed(files: seq<StateFile>, explorer: string, i: nat)
    requires Climbing(files, explorer) && i < |files| && files[i].Usable()
    ensures explorer in files[i].cursors
  {
  }

  lemma OneUp(files: seq<StateFile>, explorer: string, i: nat, j: nat)
    requires Climbing(files, explorer) && i < j < |files| && files[i].Usable() && files[j].Usable()
    requires forall k :: i < k < j ==> !files[k].Usable()
    ensures explorer in files[i].cursors && explorer in files[j].cursors
    ensures files[j].cursors[explorer] >= files[i].cursors[explorer] + 1
  {
  }

  lemma ClimbingBefore(files: seq<StateFile>, explorer: string)
    requires files != [] && Climbing(files, explorer)
    ensures Climbing(files[..|files| - 1], explorer)
  {
    hide StateFile.Usable;
    assert forall i :: 0 <= i < |files| - 1 ==> files[..|files| - 1][i] == files[i];
  }

  lemma {:induction false} Climbs(files: seq<StateFile>, explorer: string)
    requires files != [] && files[0].Usable() && Climbing(files, explorer)
    ensures var last := LastWhere(files, Usables());
            && last.Some? && explorer in files[last.value].cursors && explorer in files[0].cursors
            && files[last.value].cursors[explorer] >= files[0].cursors[explorer] + UsableCount(files) - 1
  {
    hide Climbing, StateFile.Usable;
    var n := |files| - 1;
    var before := files[..n];
    Listed(files, explorer, 0);
    if n == 0 {
      assert UsableCount(before) == 0 && Usables()(files[0]);
    } else {
      ClimbingBefore(files, explorer);
      Climbs(before, explorer);
      var last := LastWhere(before, Usables()).value;
      assert before[last] == files[last] && Usables()(before[last]);
      if files[n].Usable() {
        assert forall k :: last < k < n ==> !Usables()(before[k]) && before[k] == files[k];
        OneUp(files, explorer, last, n);
      }
      assert Usables()(files[n]) <==> files[n].Usable();
    }
  }
}
