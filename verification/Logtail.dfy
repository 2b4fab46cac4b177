/** The lines of a log file, the matches they produce, and the drain loop that emits them. */
module Logtail {
  import opened Text

  /** A compiled regular expression, known only through FindStringSubmatch: the whole match
      followed by the capture groups, or nothing at all. */
  datatype Regex = Regex(find: string -> seq<string>) {
    predicate Matches(line: string) { find(line) != [] }
  }

  /** Nanoseconds since the Unix epoch. */
  type Time = int

  function Unix(t: Time): (seconds: int)
    ensures seconds * 1_000_000_000 <= t < seconds * 1_000_000_000 + 1_000_000_000
    ensures InSecond(seconds, t)
  {
    t / 1_000_000_000
  }

  /** `at` lies in that second of Unix time. */
  predicate InSecond(seconds: int, at: Time) {
    seconds * 1_000_000_000 <= at < (seconds + 1) * 1_000_000_000
  }

  datatype Match = Match(file: string, line: string, pattern: Regex, at: Time)

  /** A PollingTailer: the optional line filter and the two time layouts its parser tries. */
  datatype Tailer = Tailer(linePrefix: Option<Regex>,
                           parseMicros: string -> Option<Time>,
                           parseSeconds: string -> Option<Time>)
  {
    predicate Admits(line: string) {
      linePrefix.Some? ==> linePrefix.value.Matches(line)
    }

    /** ParseLineTimestamp: the text before the first space, if it is short enough and parses. */
    function ParseLineTimestamp(line: string): Option<Time> {
      if |line| < 19 then None
      else
        var space := IndexOf(line, ' ');
        if space == |line| || space == 0 || space > 32 then None
        else
          var head := line[..space];
          if parseMicros(head).Some? then parseMicros(head) else parseSeconds(head)
    }

    function Stamp(line: string, clock: Time): Time {
      var parsed := ParseLineTimestamp(line);
      if parsed.Some? then parsed.value else clock
    }
  }

  // ---------------------------------------------------------------- batch specification

  /** The complete lines of a text, without their newlines. */
  function Lines(text: string): seq<string> {
    var parts := Split(text, '\n');
    parts[..|parts| - 1]
  }

  /** What follows the last newline. */
  function Tail(text: string): string {
    var parts := Split(text, '\n');
    parts[|parts| - 1]
  }

  /** The number of characters up to and including the last newline. */
  function Consumed(text: string): (n: nat)
    ensures n <= |text|
    ensures n == 0 || text[n - 1] == '\n'
    ensures text[n..] == Tail(text)
  {
    TailIsLast(text);
    |text| - |Tail(text)|
  }

  /** One emission per pattern that matches, in pattern order. */
  function Hits(file: string, line: string, patterns: seq<Regex>, at: Time): seq<Match> {
    if patterns == [] then []
    else
      var last := patterns[|patterns| - 1];
      Hits(file, line, patterns[..|patterns| - 1], at)
      + if last.Matches(line) then [Match(file, line, last, at)] else []
  }

  function LineOutput(t: Tailer, file: string, patterns: seq<Regex>, line: string, clock: Time): seq<Match> {
    if t.Admits(line) then Hits(file, line, patterns, t.Stamp(line, clock)) else []
  }

  /** The batch function: filter the lines, flat-map them over the patterns. `clocks` gives the
      wall clock each line was read at, which only lines without a timestamp show. */
  function Output(t: Tailer, file: string, patterns: seq<Regex>, lines: seq<string>, clocks: seq<Time>): seq<Match> {
    if lines == [] || clocks == [] then []
    else LineOutput(t, file, patterns, lines[0], clocks[0]) + Output(t, file, patterns, lines[1..], clocks[1..])
  }

  function Repeat<X>(x: X, n: nat): (r: seq<X>)
    ensures |r| == n && forall i :: 0 <= i < n ==> r[i] == x
  {
    seq(n, _ => x)
  }

  /** What a channel has taken when the context is cancelled after `budget` sends. */
  function Take<X>(xs: seq<X>, budget: Option<nat>): seq<X> {
    if budget.Some? && budget.value < |xs| then xs[..budget.value] else xs
  }

  predicate Exceeds<X>(xs: seq<X>, budget: Option<nat>) {
    budget.Some? && budget.value < |xs|
  }

  function Spend(budget: Option<nat>, n: nat): Option<nat>
    requires budget.Some? ==> n <= budget.value
  {
    if budget.Some? then Some(budget.value - n) else None
  }

  // ---------------------------------------------------------------- lines and tails

  lemma {:induction false} TailIsLast(text: string)
    ensures |Tail(text)| <= |text| && Without(Tail(text), '\n')
    ensures text[|text| - |Tail(text)|..] == Tail(text)
    ensures |Tail(text)| == |text| || text[|text| - |Tail(text)| - 1] == '\n'
  {
    var i := IndexOf(text, '\n');
    if i < |text| {
      SplitStep(text);
      TailIsLast(text[i + 1..]);
    }
  }

  /** Splitting peels off the first line. */
  lemma SplitStep(text: string)
    requires IndexOf(text, '\n') < |text|
    ensures var i := IndexOf(text, '\n');
            Lines(text) == [text[..i]] + Lines(text[i + 1..]) && Tail(text) == Tail(text[i + 1..])
  {
    var i := IndexOf(text, '\n');
    var head, tail := [text[..i]], Split(text[i + 1..], '\n');
    assert Split(text, '\n') == head + tail;
    assert (head + tail)[..|tail|] == head + tail[..|tail| - 1];
  }

  lemma NoLines(text: string)
    requires IndexOf(text, '\n') == |text|
    ensures Lines(text) == [] && Tail(text) == text && Consumed(text) == 0
  {
  }

  /** More text only adds lines: the held-over partial line is completed first. */
  lemma {:induction false} LinesAppend(a: string, b: string)
    ensures Lines(a + b) == Lines(a) + Lines(Tail(a) + b)
    ensures Tail(a + b) == Tail(Tail(a) + b)
    ensures Consumed(a + b) == Consumed(a) + Consumed(Tail(a) + b)
  {
    var i := IndexOf(a, '\n');
    if i == |a| {
      NoLines(a);
    } else {
      assert (a + b)[..i] == a[..i];
      IndexOfUnique(a + b, '\n', i);
      assert (a + b)[i + 1..] == a[i + 1..] + b;
      SplitStep(a);
      SplitStep(a + b);
      LinesAppend(a[i + 1..], b);
    }
  }

  /** The complete part of a text has the same lines and nothing left over. */
  lemma CompletePart(text: string)
    ensures Lines(text[..Consumed(text)]) == Lines(text)
    ensures Tail(text[..Consumed(text)]) == "" && Consumed(text[..Consumed(text)]) == Consumed(text)
  {
    var whole, tail := text[..Consumed(text)], Tail(text);
    assert text == whole + tail;
    LinesAppend(whole, tail);
    LinesAppend(Tail(whole), tail);
    TailIsLast(whole);
    TailIsLast(text);
    IndexOfUnique(Tail(whole) + tail, '\n', |Tail(whole) + tail|);
    NoLines(Tail(whole) + tail);
    assert Tail(text) == Tail(whole) + tail;
  }

  /** The specification of Lines on its own terms: it is the only way to write a text as
      newline-free lines, each ended by a newline, and a newline-free rest. */
  lemma LinesUnique(text: string, lines: seq<string>, rest: string)
    requires forall i :: 0 <= i < |lines| ==> Without(lines[i], '\n')
    requires Without(rest, '\n')
    ensures Join(lines + [rest], '\n') == text <==> Lines(text) == lines && Tail(text) == rest
  {
    hide Lines, Tail, Split, Join;
    var parts := lines + [rest];
    SplitIsLinesAndTail(text);
    if Join(parts, '\n') == text {
      SplitJoin(parts, '\n');
      LastApart(Lines(text), Tail(text), lines, rest);
    }
    if Lines(text) == lines && Tail(text) == rest {
      JoinSplit(text, '\n');
    }
  }

  lemma LastApart<X>(xs: seq<X>, x: X, ys: seq<X>, y: X)
    requires xs + [x] == ys + [y]
    ensures xs == ys && x == y
  {
    assert (xs + [x])[..|xs|] == xs && (ys + [y])[..|ys|] == ys;
    assert |xs + [x]| == |ys + [y]|;
    assert (xs + [x])[|xs|] == x && (ys + [y])[|ys|] == y;
  }

  lemma SplitIsLinesAndTail(text: string)
    ensures Split(text, '\n') == Lines(text) + [Tail(text)]
  {
  }

  // ---------------------------------------------------------------- output

  lemma {:induction false} OutputConcat(t: Tailer, file: string, patterns: seq<Regex>,
                                        a: seq<string>, ca: seq<Time>, b: seq<string>, cb: seq<Time>)
    requires |a| == |ca|
    ensures Output(t, file, patterns, a + b, ca + cb)
         == Output(t, file, patterns, a, ca) + Output(t, file, patterns, b, cb)
  {
    if a == [] {
      assert a + b == b && ca + cb == cb;
    } else {
      assert (a + b)[1..] == a[1..] + b && (ca + cb)[1..] == ca[1..] + cb;
      OutputConcat(t, file, patterns, a[1..], ca[1..], b, cb);
    }
  }

  // ---------------------------------------------------------------- what is emitted, from the text alone

  /** Line i is subscribed to by pattern j, and not filtered out. */
  ghost predicate Emits(t: Tailer, patterns: seq<Regex>, lines: seq<string>, i: nat, j: nat) {
    && i < |lines| && j < |patterns|
    && (t.linePrefix.None? || t.linePrefix.value.find(lines[i]) != [])
    && patterns[j].find(lines[i]) != []
  }

  /** The text before the first space, of a line that is long enough. */
  ghost predicate IsHead(line: string, n: nat) {
    19 <= |line| && 1 <= n <= 32 && n < |line| && line[n] == ' ' && forall k :: 0 <= k < n ==> line[k] != ' '
  }

  /** The time a line is emitted under: its own by the layout with fractions, else by the one without,
      else the clock. */
  ghost predicate IsStamp(t: Tailer, line: string, clock: Time, at: Time) {
    && (forall n: nat :: IsHead(line, n) ==>
          var micros, seconds := t.parseMicros(line[..n]), t.parseSeconds(line[..n]);
          at == if micros.Some? then micros.value else if seconds.Some? then seconds.value else clock)
    && ((forall n: nat :: !IsHead(line, n)) ==> at == clock)
  }

  predicate ComesBefore(a: (nat, nat), b: (nat, nat)) {
    a.0 < b.0 || (a.0 == b.0 && a.1 < b.1)
  }

  /** `out` has one match for every line and pattern that emit, in the order of the lines and, for one
      line, of the patterns; `at` are their places. */
  ghost predicate EmittedAt(t: Tailer, file: string, patterns: seq<Regex>, lines: seq<string>, clocks: seq<Time>,
                            out: seq<Match>, at: seq<(nat, nat)>)
    requires |clocks| == |lines|
  {
    && |at| == |out|
    && (forall k, l :: 0 <= k < l < |at| ==> ComesBefore(at[k], at[l]))
    && (forall k :: 0 <= k < |at| ==>
          && Emits(t, patterns, lines, at[k].0, at[k].1)
          && IsStamp(t, lines[at[k].0], clocks[at[k].0], out[k].at)
          && out[k] == Match(file, lines[at[k].0], patterns[at[k].1], out[k].at))
    && (forall i: nat, j: nat :: Emits(t, patterns, lines, i, j) ==> (i, j) in at)
  }

  ghost predicate IsEmission(t: Tailer, file: string, patterns: seq<Regex>, lines: seq<string>, clocks: seq<Time>,
                             out: seq<Match>)
  {
    |clocks| == |lines| && exists at :: EmittedAt(t, file, patterns, lines, clocks, out, at)
  }

  lemma StampIs(t: Tailer, line: string, clock: Time)
    ensures IsStamp(t, line, clock, t.Stamp(line, clock))
  {
    forall n: nat | IsHead(line, n) ensures IndexOf(line, ' ') == n {
      IndexOfUnique(line, ' ', n);
    }
    var space := IndexOf(line, ' ');
    if |line| >= 19 && space != |line| && space != 0 && space <= 32 {
      assert IsHead(line, space);
    }
  }

  /** `js` are the places among the patterns of the matches of one line. */
  ghost predicate HitsAt(file: string, line: string, patterns: seq<Regex>, at: Time, hits: seq<Match>, js: seq<nat>) {
    && |js| == |hits|
    && (forall k, l :: 0 <= k < l < |js| ==> js[k] < js[l])
    && (forall k :: 0 <= k < |js| ==> js[k] < |patterns| && patterns[js[k]].find(line) != []
                                      && hits[k] == Match(file, line, patterns[js[k]], at))
    && (forall j: nat :: j < |patterns| && patterns[j].find(line) != [] ==> j in js)
  }

  lemma {:induction false} HitPlaces(file: string, line: string, patterns: seq<Regex>, at: Time) returns (js: seq<nat>)
    ensures HitsAt(file, line, patterns, at, Hits(file, line, patterns, at), js)
  {
    hide HitsAt;
    if patterns == [] {
      js := [];
      NothingHit(file, line, at);
    } else {
      var n := |patterns| - 1;
      js := HitPlaces(file, line, patterns[..n], at);
      NextHit(file, line, patterns, at, Hits(file, line, patterns[..n], at), js);
      js := if patterns[n].Matches(line) then js + [n] else js;
    }
  }

  lemma NothingHit(file: string, line: string, at: Time)
    ensures HitsAt(file, line, [], at, [], [])
  {
  }

  lemma NextHit(file: string, line: string, patterns: seq<Regex>, at: Time, hits: seq<Match>, js: seq<nat>)
    requires patterns != [] && HitsAt(file, line, patterns[..|patterns| - 1], at, hits, js)
    ensures var n := |patterns| - 1;
            if patterns[n].find(line) != []
            then HitsAt(file, line, patterns, at, hits + [Match(file, line, patterns[n], at)], js + [n])
            else HitsAt(file, line, patterns, at, hits + [], js)
  {
    var n := |patterns| - 1;
    assert forall j :: 0 <= j < n ==> patterns[..n][j] == patterns[j];
    assert hits + [] == hits;
    if patterns[n].find(line) != [] {
      var more := js + [n];
      assert more[|js|] == n;
      forall j: nat | j < |patterns| && patterns[j].find(line) != [] ensures j in more {
        if j < n {
          assert j in js;
        }
      }
    }
  }

  /** The batch function, from the lines, the filter and the patterns alone. */
  lemma {:induction false} OutputIsEmission(t: Tailer, file: string, patterns: seq<Regex>, lines: seq<string>,
                                            clocks: seq<Time>)
    requires |clocks| == |lines|
    ensures IsEmission(t, file, patterns, lines, clocks, Output(t, file, patterns, lines, clocks))
  {
    hide EmittedAt, Hits, HitsAt, IsStamp;
    if lines == [] {
      NothingEmitted(t, file, patterns);
    } else {
      var n := |lines| - 1;
      var line, clock := lines[n], clocks[n];
      OutputIsEmission(t, file, patterns, lines[..n], clocks[..n]);
      var before := Output(t, file, patterns, lines[..n], clocks[..n]);
      var at :| EmittedAt(t, file, patterns, lines[..n], clocks[..n], before, at);
      assert lines == lines[..n] + [line] && clocks == clocks[..n] + [clock];
      OutputConcat(t, file, patterns, lines[..n], clocks[..n], [line], [clock]);
      OneLineOutput(t, file, patterns, line, clock);
      StampIs(t, line, clock);
      var js := HitPlaces(file, line, patterns, t.Stamp(line, clock));
      if t.Admits(line) {
        var stamp := t.Stamp(line, clock);
        EmitNext(t, file, patterns, lines, clocks, before, at, stamp, Hits(file, line, patterns, stamp), js);
      } else {
        SkipNext(t, file, patterns, lines, clocks, before, at);
        assert before + [] == before;
      }
    }
  }

  lemma NothingEmitted(t: Tailer, file: string, patterns: seq<Regex>)
    ensures EmittedAt(t, file, patterns, [], [], [], [])
  {
  }

  lemma OneLineOutput(t: Tailer, file: string, patterns: seq<Regex>, line: string, clock: Time)
    ensures Output(t, file, patterns, [line], [clock]) == LineOutput(t, file, patterns, line, clock)
  {
    assert Output(t, file, patterns, [line][1..], [clock][1..]) == [];
  }

  function Places(n: nat, js: seq<nat>): seq<(nat, nat)> {
    seq(|js|, k requires 0 <= k < |js| => (n, js[k]))
  }

  lemma EmitNext(t: Tailer, file: string, patterns: seq<Regex>, lines: seq<string>, clocks: seq<Time>,
                 before: seq<Match>, at: seq<(nat, nat)>, stamp: Time, hits: seq<Match>, js: seq<nat>)
    requires lines != [] && |clocks| == |lines|
    requires var n := |lines| - 1; EmittedAt(t, file, patterns, lines[..n], clocks[..n], before, at)
    requires t.linePrefix.None? || t.linePrefix.value.find(lines[|lines| - 1]) != []
    requires IsStamp(t, lines[|lines| - 1], clocks[|lines| - 1], stamp)
    requires HitsAt(file, lines[|lines| - 1], patterns, stamp, hits, js)
    ensures EmittedAt(t, file, patterns, lines, clocks, before + hits, at + Places(|lines| - 1, js))
  {
    hide IsStamp;
    var n := |lines| - 1;
    var all, out := at + Places(n, js), before + hits;
    forall i: nat, j: nat | Emits(t, patterns, lines, i, j) ensures (i, j) in all {
      if i < n {
        assert Emits(t, patterns, lines[..n], i, j);
      } else {
        assert j in js;
        var k :| 0 <= k < |js| && js[k] == j;
        assert all[|at| + k] == (i, j);
      }
    }
    forall k | 0 <= k < |all|
      ensures Emits(t, patterns, lines, all[k].0, all[k].1)
      ensures IsStamp(t, lines[all[k].0], clocks[all[k].0], out[k].at)
      ensures out[k] == Match(file, lines[all[k].0], patterns[all[k].1], out[k].at)
    {
      if k < |at| {
        assert all[k] == at[k] && out[k] == before[k];
        assert Emits(t, patterns, lines[..n], at[k].0, at[k].1);
      } else {
        assert all[k] == (n, js[k - |at|]) && out[k] == hits[k - |at|];
      }
    }
    forall k, l | 0 <= k < l < |all| ensures ComesBefore(all[k], all[l]) {
      if k < |at| {
        assert Emits(t, patterns, lines[..n], at[k].0, at[k].1);
      }
    }
  }

  lemma SkipNext(t: Tailer, file: string, patterns: seq<Regex>, lines: seq<string>, clocks: seq<Time>,
                 before: seq<Match>, at: seq<(nat, nat)>)
    requires lines != [] && |clocks| == |lines|
    requires var n := |lines| - 1; EmittedAt(t, file, patterns, lines[..n], clocks[..n], before, at)
    requires t.linePrefix.Some? && t.linePrefix.value.find(lines[|lines| - 1]) == []
    ensures EmittedAt(t, file, patterns, lines, clocks, before, at)
  {
    hide IsStamp;
    var n := |lines| - 1;
    forall i: nat, j: nat | Emits(t, patterns, lines, i, j) ensures (i, j) in at {
      assert Emits(t, patterns, lines[..n], i, j);
    }
    forall k | 0 <= k < |at|
      ensures Emits(t, patterns, lines, at[k].0, at[k].1)
      ensures lines[at[k].0] == lines[..n][at[k].0] && clocks[at[k].0] == clocks[..n][at[k].0]
    {
      assert Emits(t, patterns, lines[..n], at[k].0, at[k].1);
    }
  }

  /** Where every line of interest carries its own timestamp, the time of reading is invisible. */
  lemma {:induction false} OutputIgnoresClock(t: Tailer, file: string, patterns: seq<Regex>,
                                              lines: seq<string>, c: seq<Time>, d: seq<Time>)
    requires |c| == |d| == |lines|
    requires forall i :: 0 <= i < |lines| ==> SelfStamped(t, patterns, lines[i])
    ensures Output(t, file, patterns, lines, c) == Output(t, file, patterns, lines, d)
  {
    if lines != [] {
      assert SelfStamped(t, patterns, lines[0]);
      HitsNone(file, lines[0], patterns, t.Stamp(lines[0], c[0]));
      HitsNone(file, lines[0], patterns, t.Stamp(lines[0], d[0]));
      OutputIgnoresClock(t, file, patterns, lines[1..], c[1..], d[1..]);
    }
  }

  /** A line that, if it is emitted at all, is emitted under the timestamp it carries. */
  ghost predicate SelfStamped(t: Tailer, patterns: seq<Regex>, line: string) {
    t.Admits(line) && (exists p <- patterns :: p.Matches(line)) ==> t.ParseLineTimestamp(line).Some?
  }

  lemma HitsNone(file: string, line: string, patterns: seq<Regex>, at: Time)
    ensures (forall p <- patterns :: !p.Matches(line)) ==> Hits(file, line, patterns, at) == []
  {
  }

  // ---------------------------------------------------------------- one drain

  /** One read(2) of a drain: the file as it is at that moment, and how many bytes the call returns at
      most; none if it fails. Nothing relates one moment's file to the next. */
  datatype Read = Read(file: string, size: nat) {
    function Chunk(pos: nat): string {
      var end := if pos + size < |file| then pos + size else |file|;
      if pos < end then file[pos..end] else ""
    }
  }

  function Drop(file: string, off: nat): string {
    if off <= |file| then file[off..] else ""
  }

  /** All the bytes a drain gets from `pos` on: until a read returns none, at the end of the file or
      because it fails. */
  function Stream(calls: seq<Read>, pos: nat): string {
    if calls == [] || calls[0].Chunk(pos) == "" then ""
    else calls[0].Chunk(pos) + Stream(calls[1..], pos + |calls[0].Chunk(pos)|)
  }

  /** The file as a drain from `off` sees it: what the first read has before `off`, and all the bytes
      the drain gets from there. */
  function Seen(calls: seq<Read>, off: nat): string {
    if calls == [] then ""
    else
      var first := calls[0].file;
      (if off <= |first| then first[..off] else first) + Stream(calls, off)
  }

  /** The drain ends because a read finds the end of the file. */
  predicate EndsAtEOF(calls: seq<Read>, pos: nat) {
    calls != []
    && (pos >= |calls[0].file|
        || (calls[0].Chunk(pos) != "" && EndsAtEOF(calls[1..], pos + |calls[0].Chunk(pos)|)))
  }

  /** Each read that is made gets what text `file` has in that place. */
  predicate InPlace(calls: seq<Read>, pos: nat, file: string) {
    calls != [] && calls[0].Chunk(pos) != "" ==>
      var chunk := calls[0].Chunk(pos);
      pos + |chunk| <= |file| && file[pos..pos + |chunk|] == chunk && InPlace(calls[1..], pos + |chunk|, file)
  }

  lemma ShortFile(calls: seq<Read>, off: nat)
    requires calls != [] && |calls[0].file| <= off
    ensures Stream(calls, off) == "" && Seen(calls, off) == calls[0].file
  {
  }

  lemma SeenUnread(calls: seq<Read>, off: nat)
    ensures Drop(Seen(calls, off), off) == Stream(calls, off)
  {
    if calls != [] && |calls[0].file| <= off {
      ShortFile(calls, off);
    }
  }

  lemma PrefixParts(a: string, b: string, whole: string)
    ensures a + b <= whole <==> a <= whole && b <= whole[|a|..]
  {
    if a <= whole {
      assert whole == a + whole[|a|..];
      if b <= whole[|a|..] {
        assert whole == (a + b) + whole[|a|..][|b|..];
      }
    }
    if a + b <= whole {
      assert (a + b)[..|a|] == a && (a + b)[|a|..] == b;
      assert whole[..|a + b|] == a + b;
    }
  }

  lemma {:induction false} StreamInPlace(calls: seq<Read>, pos: nat, file: string)
    requires pos <= |file|
    ensures InPlace(calls, pos, file) <==> Stream(calls, pos) <= file[pos..]
  {
    hide Read.Chunk;
    if calls != [] && calls[0].Chunk(pos) != "" {
      var chunk := calls[0].Chunk(pos);
      var next := pos + |chunk|;
      PrefixParts(chunk, Stream(calls[1..], next), file[pos..]);
      if next <= |file| {
        assert file[pos..][..|chunk|] == file[pos..next] && file[pos..][|chunk|..] == file[next..];
        StreamInPlace(calls[1..], next, file);
      }
    }
  }

  /** What a drain sees is the beginning of one text, the file at any one time say, exactly when the part
      before the offset and every chunk it reads are that text's in their places. */
  lemma SeenIsFileIff(calls: seq<Read>, off: nat, file: string)
    requires calls != [] && off <= |calls[0].file|
    ensures Seen(calls, off) <= file
       <==> off <= |file| && calls[0].file[..off] == file[..off] && InPlace(calls, off, file)
  {
    var before := calls[0].file[..off];
    PrefixParts(before, Stream(calls, off), file);
    if off <= |file| {
      StreamInPlace(calls, off, file);
    }
  }

  /** The file is only appended to from one read to the next. */
  ghost predicate Growing(calls: seq<Read>) {
    forall a, b :: 0 <= a < b < |calls| ==> calls[a].file <= calls[b].file
  }

  lemma {:induction false} GrowingInPlace(calls: seq<Read>, pos: nat, file: string)
    requires forall i :: 0 <= i < |calls| ==> calls[i].file <= file
    ensures InPlace(calls, pos, file)
  {
    if calls != [] && calls[0].Chunk(pos) != "" {
      assert file[..|calls[0].file|] == calls[0].file;
      GrowingInPlace(calls[1..], pos + |calls[0].Chunk(pos)|, file);
    }
  }

  /** What a drain sees of a file that is only appended to is a beginning of what the file comes to, and
      has all that was there before `off`; if the drain ends at the end of the file, it has all that was
      there when it began. */
  lemma SeenBetween(calls: seq<Read>, off: nat, file: string)
    requires calls != [] && Growing(calls) && calls[|calls| - 1].file <= file
    ensures var seen, first := Seen(calls, off), calls[0].file;
            && seen <= file && first <= file
            && (off <= |first| ==> first[..off] <= seen)
            && (EndsAtEOF(calls, off) ==> first <= seen)
  {
    var first := calls[0].file;
    assert forall i :: 0 <= i < |calls| ==> calls[i].file <= calls[|calls| - 1].file <= file;
    if off <= |first| {
      GrowingInPlace(calls, off, file);
      SeenIsFileIff(calls, off, file);
    } else {
      ShortFile(calls, off);
    }
    if EndsAtEOF(calls, off) {
      ReadToTheEnd(calls, off, first);
    }
  }

  lemma {:induction false} ReadToTheEnd(calls: seq<Read>, pos: nat, first: string)
    requires EndsAtEOF(calls, pos) && forall i :: 0 <= i < |calls| ==> first <= calls[i].file
    ensures pos + |Stream(calls, pos)| >= |first|
  {
    hide Read.Chunk;
    assert first <= calls[0].file;
    if pos < |calls[0].file| {
      ReadToTheEnd(calls[1..], pos + |calls[0].Chunk(pos)|, first);
    }
  }

  /** Emits the hits of one line; `stopped` when the context is cancelled on the way. */
  method EmitLine(file: string, line: string, patterns: seq<Regex>, at: Time, budget: Option<nat>)
    returns (out: seq<Match>, stopped: bool)
    ensures out == Take(Hits(file, line, patterns, at), budget)
    ensures stopped <==> Exceeds(Hits(file, line, patterns, at), budget)
  {
    out := [];
    for i := 0 to |patterns|
      invariant out == Hits(file, line, patterns[..i], at)
      invariant !Exceeds(out, budget)
    {
      assert patterns[..i + 1][..i] == patterns[..i];
      var p := patterns[i];
      if p.Matches(line) {
        if budget.Some? && budget.value == |out| {
          HitsGrow(file, line, patterns, i + 1, at);
          return out, true;
        }
        out := out + [Match(file, line, p, at)];
      }
    }
    assert patterns[..|patterns|] == patterns;
    stopped := false;
  }

  lemma {:induction false} HitsGrow(file: string, line: string, patterns: seq<Regex>, i: nat, at: Time)
    requires i <= |patterns|
    ensures Hits(file, line, patterns[..i], at) <= Hits(file, line, patterns, at)
    decreases |patterns|
  {
    if i < |patterns| {
      HitsGrow(file, line, patterns[..|patterns| - 1], i, at);
      assert patterns[..|patterns| - 1][..i] == patterns[..i];
    } else {
      assert patterns[..i] == patterns;
    }
  }

  /** What is still to be emitted for the complete lines of `text`. */
  function Hitting(t: Tailer, path: string, patterns: seq<Regex>, text: string, clock: Time): seq<Match> {
    var lines := Lines(text);
    Output(t, path, patterns, lines, Repeat(clock, |lines|))
  }

  /** The same for the part of `file` from `off` on. */
  function Pending(t: Tailer, path: string, patterns: seq<Regex>, file: string, off: nat, clock: Time): seq<Match> {
    Hitting(t, path, patterns, Drop(file, off), clock)
  }

  /** Just past the last newline at or after `off`. */
  function End(file: string, off: nat): nat {
    off + Consumed(Drop(file, off))
  }

  /** bufio's ReadString('\n') with `buf` left over from before: reads on until there is a newline, or
      until a read returns nothing. `i` is the number of reads made, `pos` how far they have come. */
  method ReadString(calls: seq<Read>, i: nat, pos: nat, buf: string)
    returns (line: string, ok: bool, i': nat, pos': nat, buf': string)
    requires i <= |calls|
    ensures i <= i' <= |calls| && pos' == pos + |line| + |buf'| - |buf|
    ensures ok ==> line != "" && line == line[..|line| - 1] + ['\n'] && Without(line[..|line| - 1], '\n')
                   && buf + Stream(calls[i..], pos) == line + (buf' + Stream(calls[i'..], pos'))
    ensures ok ==> i < i' || |buf'| < |buf|
    ensures !ok ==> Without(buf + Stream(calls[i..], pos), '\n')
  {
    hide Stream, Read.Chunk;
    i', pos', buf' := i, pos, buf;
    var eol := IndexOf(buf', '\n');
    while eol == |buf'|
      invariant i <= i' <= |calls| && pos' == pos + |buf'| - |buf|
      invariant buf + Stream(calls[i..], pos) == buf' + Stream(calls[i'..], pos')
      invariant eol == IndexOf(buf', '\n')
      invariant i == i' ==> buf' == buf
      decreases |calls| - i'
    {
      StreamStep(calls, i', pos');
      if i' == |calls| || calls[i'].Chunk(pos') == "" {
        assert buf' + "" == buf';
        return buf', false, i', pos', "";
      }
      var chunk := calls[i'].Chunk(pos');
      Regroup(buf', chunk, Stream(calls[i' + 1..], pos' + |chunk|));
      i', pos', buf' := i' + 1, pos' + |chunk|, buf' + chunk;
      eol := IndexOf(buf', '\n');
    }
    ok := true;
    CutAt(buf', eol + 1, Stream(calls[i'..], pos'));
    line, buf' := buf'[..eol + 1], buf'[eol + 1..];
  }

  lemma Regroup(a: string, b: string, c: string)
    ensures a + (b + c) == (a + b) + c
  {
  }

  lemma CutAt(a: string, n: nat, b: string)
    requires n <= |a|
    ensures a + b == a[..n] + (a[n..] + b)
  {
  }

  lemma StreamStep(calls: seq<Read>, i: nat, pos: nat)
    requires i <= |calls|
    ensures Stream(calls[i..], pos) == if i == |calls| || calls[i].Chunk(pos) == "" then ""
                                       else calls[i].Chunk(pos) + Stream(calls[i + 1..], pos + |calls[i].Chunk(pos)|)
  {
    hide Read.Chunk;
    assert i < |calls| ==> calls[i..][0] == calls[i] && calls[i..][1..] == calls[i + 1..];
  }

  /** What a drain of the bytes `text` gives the channel, from the text alone: it is cut into newline-free
      lines and a rest, and the matches of the lines are emitted, up to the budget. Unless it is stopped,
      it takes all but the rest. */
  ghost predicate Delivers(t: Tailer, path: string, patterns: seq<Regex>, text: string, clock: Time,
                           budget: Option<nat>, out: seq<Match>, stopped: bool, taken: int)
  {
    exists lines, rest, full ::
      CutInto(text, lines, rest) && IsEmission(t, path, patterns, lines, Repeat(clock, |lines|), full)
      && IsCut(full, budget, out, stopped) && (!stopped ==> taken + |rest| == |text|)
  }

  ghost predicate CutInto(text: string, lines: seq<string>, rest: string) {
    && (forall i :: 0 <= i < |lines| ==> Without(lines[i], '\n')) && Without(rest, '\n')
    && Join(lines + [rest], '\n') == text
  }

  predicate IsCut<X(==)>(full: seq<X>, budget: Option<nat>, out: seq<X>, stopped: bool) {
    && (stopped <==> budget.Some? && budget.value < |full|)
    && out == (if stopped then full[..budget.value] else full)
  }

  lemma HittingDelivers(t: Tailer, path: string, patterns: seq<Regex>, text: string, clock: Time, budget: Option<nat>,
                        out: seq<Match>, stopped: bool, taken: int)
    requires var batch := Hitting(t, path, patterns, text, clock);
             out == Take(batch, budget) && (stopped <==> Exceeds(batch, budget))
    requires !stopped ==> taken == Consumed(text)
    ensures Delivers(t, path, patterns, text, clock, budget, out, stopped, taken)
  {
    hide Lines, Tail, Output, IsEmission;
    var lines, rest := Lines(text), Tail(text);
    LinesHaveNoNewline(text);
    SplitIsLinesAndTail(text);
    JoinSplit(text, '\n');
    OutputIsEmission(t, path, patterns, lines, Repeat(clock, |lines|));
    TailIsLast(text);
    assert CutInto(text, lines, rest);
    hide CutInto;
    assert IsCut(Hitting(t, path, patterns, text, clock), budget, out, stopped);
  }

  lemma LinesHaveNoNewline(text: string)
    ensures forall i :: 0 <= i < |Lines(text)| ==> Without(Lines(text)[i], '\n')
  {
    hide Split;
    forall i | 0 <= i < |Lines(text)| ensures Without(Lines(text)[i], '\n') {
      SplitParts(text, '\n', i);
    }
  }

  /** Reads every complete line from `off` on and emits its matches, whatever happens to the file in
      between. A partial last line stays unread; a read that fails ends the drain after the lines read so
      far. */
  method Drain(t: Tailer, path: string, patterns: seq<Regex>, calls: seq<Read>, off: nat, clock: Time,
               budget: Option<nat>)
    returns (off': nat, out: seq<Match>, stopped: bool)
    ensures var batch := Pending(t, path, patterns, Seen(calls, off), off, clock);
            && out == Take(batch, budget)
            && (stopped <==> Exceeds(batch, budget))
            && (!stopped ==> off' == End(Seen(calls, off), off))
    ensures Delivers(t, path, patterns, Stream(calls, off), clock, budget, out, stopped, off' - off)
  {
    hide Delivers, Hitting, Consumed, Lines, Seen, Stream, Drop, Hits; // the lemmas say what is needed of them
    hide Tailer.Stamp, Tailer.Admits, Without, Pending, End;
    PendingIsStream(t, path, patterns, calls, off, clock);
    ghost var text := Stream(calls, off);
    ghost var batch := Hitting(t, path, patterns, text, clock);
    var i, pos, buf := 0, off, "";
    off', out, stopped := off, [], false;
    ghost var unread := text;
    assert calls[0..] == calls && "" + text == text;
    while true
      invariant i <= |calls| && unread == buf + Stream(calls[i..], pos)
      invariant !Exceeds(out, budget)
      invariant batch == out + Hitting(t, path, patterns, unread, clock)
      invariant off' + Consumed(unread) == off + Consumed(text)
      decreases |calls| - i, |buf|
    {
      var line, ok;
      line, ok, i, pos, buf := ReadString(calls, i, pos, buf);
      if !ok {
        NothingHits(t, path, patterns, unread, clock);
        break;
      }
      var stripped := line[..|line| - 1];
      ghost var rest := buf + Stream(calls[i..], pos);
      LineStep(t, path, patterns, unread, line, rest, clock);
      unread := rest;
      off' := off' + |line|;
      if !t.Admits(stripped) {
        continue;
      }
      ghost var all := Hits(path, stripped, patterns, t.Stamp(stripped, clock));
      TakeInTurn(out, all, Hitting(t, path, patterns, unread, clock), budget);
      var hits;
      hits, stopped := EmitLine(path, stripped, patterns, t.Stamp(stripped, clock), Spend(budget, |out|));
      out := out + hits;
      if stopped {
        break;
      }
    }
    HittingDelivers(t, path, patterns, text, clock, budget, out, stopped, off' - off);
  }

  lemma PendingIsStream(t: Tailer, path: string, patterns: seq<Regex>, calls: seq<Read>, off: nat, clock: Time)
    ensures Pending(t, path, patterns, Seen(calls, off), off, clock)
         == Hitting(t, path, patterns, Stream(calls, off), clock)
    ensures End(Seen(calls, off), off) == off + Consumed(Stream(calls, off))
  {
    hide Seen, Stream, Hitting, Consumed;
    SeenUnread(calls, off);
  }

  lemma LineStep(t: Tailer, path: string, patterns: seq<Regex>, text: string, line: string, rest: string, clock: Time)
    requires line != "" && line == line[..|line| - 1] + ['\n'] && Without(line[..|line| - 1], '\n')
    requires text == line + rest
    ensures var stripped, after := line[..|line| - 1], Hitting(t, path, patterns, rest, clock);
            && Hitting(t, path, patterns, text, clock)
               == (if t.Admits(stripped) then Hits(path, stripped, patterns, t.Stamp(stripped, clock)) + after
                   else after)
            && Consumed(text) == |line| + Consumed(rest)
  {
    hide Hitting, Consumed, Hits, Tailer.Admits, Tailer.Stamp, Without;
    HittingStep(t, path, patterns, line[..|line| - 1], rest, clock);
  }

  /** Sending in turn what a channel can take is taking from the whole. */
  lemma TakeInTurn<X>(sent: seq<X>, now: seq<X>, later: seq<X>, budget: Option<nat>)
    requires !Exceeds(sent, budget)
    ensures var left := Spend(budget, |sent|);
            && sent + (now + later) == (sent + now) + later
            && (Exceeds(now, left) <==> Exceeds(sent + now, budget))
            && (Exceeds(now, left) ==> Exceeds(sent + (now + later), budget)
                                       && Take(sent + (now + later), budget) == sent + Take(now, left))
            && (!Exceeds(now, left) ==> Take(now, left) == now)
  {
  }

  lemma NothingHits(t: Tailer, path: string, patterns: seq<Regex>, text: string, clock: Time)
    requires Without(text, '\n')
    ensures Hitting(t, path, patterns, text, clock) == [] && Consumed(text) == 0
  {
    IndexOfUnique(text, '\n', |text|);
    NoLines(text);
  }

  lemma FirstLine(line: string, rest: string)
    requires Without(line, '\n')
    ensures Lines(line + ['\n'] + rest) == [line] + Lines(rest) && Tail(line + ['\n'] + rest) == Tail(rest)
    ensures Consumed(line + ['\n'] + rest) == |line| + 1 + Consumed(rest)
  {
    var text := line + ['\n'] + rest;
    IndexOfUnique(text, '\n', |line|);
    SplitStep(text);
    assert text[..|line|] == line && text[|line| + 1..] == rest;
  }

  /** Reading one line takes exactly that line's hits off what is pending. */
  lemma HittingStep(t: Tailer, path: string, patterns: seq<Regex>, line: string, rest: string, clock: Time)
    requires Without(line, '\n')
    ensures var text, after := line + ['\n'] + rest, Hitting(t, path, patterns, rest, clock);
            && Hitting(t, path, patterns, text, clock)
               == (if t.Admits(line) then Hits(path, line, patterns, t.Stamp(line, clock)) + after else after)
            && Consumed(text) == |line| + 1 + Consumed(rest)
  {
    hide Lines, Consumed;
    FirstLine(line, rest);
    var lines := Lines(rest);
    assert ([line] + lines)[1..] == lines;
    assert Repeat(clock, |lines| + 1)[1..] == Repeat(clock, |lines|);
  }
}
