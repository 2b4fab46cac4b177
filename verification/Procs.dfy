/** Counting child processes: the parser of /proc/<pid>/stat and the scan over /proc. */
module Procs {
  import opened Text

  /** readPPID on the text of a stat file: what follows the last ')' is split into fields, the
      second of which is the parent. None is the malformed case. */
  function ReadPPID(stat: string): Option<int> {
    var idx := LastIndexOf(stat, ')');
    if idx.None? || idx.value + 2 >= |stat| then None
    else
      var fields := Fields(TrimSpace(stat[idx.value + 1..]));
      if |fields| < 2 then None else Atoi(fields[1])
  }

  /** A process as the kernel prints it: `rest` is what follows the parent pid, to the newline. */
  datatype Process = Process(pid: nat, comm: string, state: string, ppid: nat, rest: string) {
    predicate Printable() {
      && state != "" && NoSpace(state) && Without(state, ')')
      && (rest == "" || IsSpace(rest[0])) && Without(rest, ')')
      && 0 < pid <= MAX_INT && ppid <= MAX_INT
    }

    function Stat(): string {
      Itoa(pid) + " (" + comm + ") " + state + " " + Itoa(ppid) + rest
    }
  }

  lemma LastIndexOfUnique(s: string, c: char, i: nat)
    requires i < |s| && s[i] == c && forall j :: i < j < |s| ==> s[j] != c
    ensures LastIndexOf(s, c) == Some(i)
  {
  }

  /** Whatever comes before the last ')' is irrelevant. */
  lemma ReadAfterParen(before: string, after: string)
    requires Without(after, ')')
    ensures ReadPPID(before + ")" + after)
         == if |after| < 2 || |Fields(after)| < 2 then None else Atoi(Fields(after)[1])
  {
    var s := before + ")" + after;
    assert s[|before|] == ')' && forall j :: |before| < j < |s| ==> s[j] == after[j - |before| - 1];
    LastIndexOfUnique(s, ')', |before|);
    assert s[|before| + 1..] == after;
    FieldsTrimmed(after);
  }

  /** What the kernel prints after the command name. */
  function AfterComm(p: Process): string {
    " " + (p.state + (" " + (Itoa(p.ppid) + p.rest)))
  }

  lemma FieldsAfterComm(p: Process)
    requires p.Printable()
    ensures Fields(AfterComm(p)) == [p.state] + ([Itoa(p.ppid)] + Fields(p.rest))
  {
    hide Fields, Itoa;
    AtoiOfItoa(p.ppid);
    FieldsWord(Itoa(p.ppid), p.rest);
    FieldsSkipPad(" ", Itoa(p.ppid) + p.rest);
    FieldsWord(p.state, " " + (Itoa(p.ppid) + p.rest));
    FieldsSkipPad(" ", p.state + (" " + (Itoa(p.ppid) + p.rest)));
  }

  lemma StatSplits(p: Process)
    requires p.Printable()
    ensures p.Stat() == Itoa(p.pid) + " (" + p.comm + ")" + AfterComm(p)
    ensures Without(AfterComm(p), ')') && |AfterComm(p)| >= 2
  {
    hide Itoa;
    AtoiOfItoa(p.ppid);
    assert ") " == ")" + " ";
  }

  /** The parser inverts the printer for every command name, with any spaces and parentheses. */
  lemma ParserInvertsPrinter(p: Process)
    requires p.Printable()
    ensures ReadPPID(p.Stat()) == Some(p.ppid)
  {
    hide Fields, Itoa, ReadPPID, AfterComm, Process.Stat;
    StatSplits(p);
    FieldsAfterComm(p);
    ReadAfterParen(Itoa(p.pid) + " (" + p.comm, AfterComm(p));
    AtoiOfItoa(p.ppid);
  }

  /** The second word after the last ')' is the number of the parent. */
  ghost predicate StatSays(stat: string, parent: int) {
    exists before, after, word ::
      stat == before + ")" + after && Without(after, ')') && SecondWord(after, word) && IsDecimal(word, parent)
  }

  /** What the parser accepts, and with what result, by the grammar of the text. */
  lemma ReadPPIDIff(stat: string, parent: int)
    ensures ReadPPID(stat) == Some(parent) <==> StatSays(stat, parent)
  {
    hide Fields, SecondWord, ReadPPID, IsDecimal, Atoi;
    if StatSays(stat, parent) {
      var before, after, word :|
        stat == before + ")" + after && Without(after, ')') && SecondWord(after, word) && IsDecimal(word, parent);
      ReadAfterParen(before, after);
      SecondFieldIff(after, word);
      AtoiIff(word, parent);
      SecondWordIsLong(after, word);
    }
    if ReadPPID(stat) == Some(parent) {
      var idx := LastParen(stat, parent);
      var before, after := stat[..idx], stat[idx + 1..];
      assert stat == before + ")" + after;
      ReadAfterParen(before, after);
      var word := Fields(after)[1];
      SecondFieldIff(after, word);
      AtoiIff(word, parent);
    }
  }

  lemma LastParen(stat: string, parent: int) returns (idx: nat)
    requires ReadPPID(stat) == Some(parent)
    ensures idx < |stat| && stat[idx] == ')' && Without(stat[idx + 1..], ')')
  {
    idx := LastIndexOf(stat, ')').value;
  }

  lemma SecondWordIsLong(s: string, word: string)
    requires SecondWord(s, word)
    ensures |s| >= 2
  {
  }

  // ---------------------------------------------------------------- the scan

  /** A directory entry of /proc; `stat` is the text of its stat file if that can be read. */
  datatype Entry = Entry(name: string, isDir: bool, stat: Option<string>)

  predicate IsChild(e: Entry, parent: int) {
    && e.isDir && Atoi(e.name).Some? && Atoi(e.name).value > 0
    && e.stat.Some? && ReadPPID(e.stat.value) == Some(parent)
  }

  function Children(entries: seq<Entry>, parent: int): nat {
    if entries == [] then 0
    else Children(entries[..|entries| - 1], parent) + if IsChild(entries[|entries| - 1], parent) then 1 else 0
  }

  /** A directory named by a positive number, with a stat text that says so. */
  ghost predicate NamesParent(e: Entry, parent: int) {
    e.isDir && (exists pid :: pid > 0 && IsDecimal(e.name, pid)) && e.stat.Some? && StatSays(e.stat.value, parent)
  }

  lemma IsChildIff(e: Entry, parent: int)
    ensures IsChild(e, parent) <==> NamesParent(e, parent)
  {
    hide Atoi, ReadPPID, IsDecimal, StatSays;
    if Atoi(e.name).Some? {
      AtoiIff(e.name, Atoi(e.name).value);
    }
    forall pid ensures IsDecimal(e.name, pid) <==> Atoi(e.name) == Some(pid) {
      AtoiIff(e.name, pid);
    }
    if e.stat.Some? {
      ReadPPIDIff(e.stat.value, parent);
    }
  }

  lemma {:induction false} ChildrenAre(entries: seq<Entry>, parent: int)
    ensures Children(entries, parent) == |set i: nat | i < |entries| && NamesParent(entries[i], parent)|
  {
    hide IsChild, NamesParent;
    var all := set i: nat | i < |entries| && NamesParent(entries[i], parent);
    if entries == [] {
      assert all == {};
    } else {
      var n := |entries| - 1;
      ChildrenAre(entries[..n], parent);
      IsChildIff(entries[n], parent);
      var before := set i: nat | i < n && NamesParent(entries[..n][i], parent);
      assert all == if NamesParent(entries[n], parent) then before + {n} else before;
    }
  }

  /** CountChildren; `entries` is None when /proc cannot be listed. */
  method CountChildren(entries: Option<seq<Entry>>, parent: int) returns (r: Option<nat>)
    ensures parent <= 0 ==> r == Some(0)
    ensures parent > 0 ==> r == if entries.Some? then Some(Children(entries.value, parent)) else None
    ensures parent > 0 && entries.Some? ==>
              r == Some(|set i: nat | i < |entries.value| && NamesParent(entries.value[i], parent)|)
  {
    if parent <= 0 {
      return Some(0);
    }
    if entries.None? {
      return None;
    }
    var n, es := 0, entries.value;
    for i := 0 to |es|
      invariant n == Children(es[..i], parent)
    {
      assert es[..i + 1][..i] == es[..i];
      var e := es[i];
      if !e.isDir {
        continue;
      }
      var pid := Atoi(e.name);
      if pid.None? || pid.value <= 0 {
        continue;
      }
      var ppid := if e.stat.Some? then ReadPPID(e.stat.value) else None;
      if ppid == Some(parent) {
        n := n + 1;
      }
    }
    assert es[..|es|] == es;
    ChildrenAre(es, parent);
    r := Some(n);
  }

  // ---------------------------------------------------------------- against a process table

  /** What can show up in /proc: a process, one that vanished before it was read, or anything that
      is no process directory or cannot be parsed. */
  datatype Item = Alive(p: Process) | Gone(pid: nat) | Other(e: Entry)

  predicate Plausible(x: Item) {
    match x
    case Alive(p) => p.Printable()
    case Gone(_) => true
    case Other(e) =>
      !e.isDir || Atoi(e.name).None? || Atoi(e.name).value <= 0 || e.stat.None? || ReadPPID(e.stat.value).None?
  }

  function Listed(x: Item): Entry {
    match x
    case Alive(p) => Entry(Itoa(p.pid), true, Some(p.Stat()))
    case Gone(pid) => Entry(Itoa(pid), true, None)
    case Other(e) => e
  }

  function Listing(items: seq<Item>): seq<Entry> {
    if items == [] then [] else Listing(items[..|items| - 1]) + [Listed(items[|items| - 1])]
  }

  function AliveChildren(items: seq<Item>, parent: int): nat {
    if items == [] then 0
    else
      var x := items[|items| - 1];
      AliveChildren(items[..|items| - 1], parent) + if x.Alive? && x.p.ppid == parent then 1 else 0
  }

  /** On any listing of a process table the scan counts exactly the living children, whatever
      their names are and whatever else lies about. */
  lemma {:induction false} CountsChildren(items: seq<Item>, parent: int)
    requires forall i :: 0 <= i < |items| ==> Plausible(items[i])
    ensures Children(Listing(items), parent) == AliveChildren(items, parent)
  {
    if items != [] {
      var before, x := items[..|items| - 1], items[|items| - 1];
      CountsChildren(before, parent);
      assert Listing(items)[..|Listing(items)| - 1] == Listing(before);
      if x.Alive? {
        ParserInvertsPrinter(x.p);
        AtoiOfItoa(x.p.pid);
      }
    }
  }
}
