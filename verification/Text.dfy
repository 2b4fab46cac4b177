/** Strings as the exporter's parsers see them: the parts of Go's strings and strconv
    packages they rely on, with the inverse laws the parsers are proved by. */
module Text {

  datatype Option<+T> = None | Some(value: T)

  // ---------------------------------------------------------------- searching

  predicate Without(s: string, c: char) {
    forall i :: 0 <= i < |s| ==> s[i] != c
  }

  /** The first position of `c`, or |s| when there is none. */
  function IndexOf(s: string, c: char): (i: nat)
    ensures i <= |s|
    ensures forall j :: 0 <= j < i ==> s[j] != c
    ensures i < |s| ==> s[i] == c
  {
    IndexFrom(s, c, 0)
  }

  function IndexFrom(s: string, c: char, k: nat): (i: nat)
    requires k <= |s|
    ensures k <= i <= |s|
    ensures forall j :: k <= j < i ==> s[j] != c
    ensures i < |s| ==> s[i] == c
    decreases |s| - k
  {
    if k == |s| || s[k] == c then k else IndexFrom(s, c, k + 1)
  }

  lemma IndexOfUnique(s: string, c: char, i: nat)
    requires i <= |s| && (forall j :: 0 <= j < i ==> s[j] != c) && (i < |s| ==> s[i] == c)
    ensures IndexOf(s, c) == i
  {
    assert IndexOf(s, c) < |s| ==> s[IndexOf(s, c)] == c;
  }

  /** The last position of `c`, if there is one. */
  function LastIndexOf(s: string, c: char): (r: Option<nat>)
    ensures r.None? <==> Without(s, c)
    ensures r.Some? ==> r.value < |s| && s[r.value] == c && forall j :: r.value < j < |s| ==> s[j] != c
  {
    if s == "" then None
    else if s[|s| - 1] == c then Some(|s| - 1)
    else LastIndexOf(s[..|s| - 1], c)
  }

  /** The last element of `xs` that satisfies `p`. */
  function LastWhere<X>(xs: seq<X>, p: X -> bool): (r: Option<nat>)
    ensures r.Some? ==> r.value < |xs| && p(xs[r.value])
    ensures forall j :: (if r.Some? then r.value + 1 else 0) <= j < |xs| ==> !p(xs[j])
  {
    if xs == [] then None
    else if p(xs[|xs| - 1]) then Some(|xs| - 1)
    else LastWhere(xs[..|xs| - 1], p)
  }

  lemma LastWhereUnique<X>(xs: seq<X>, p: X -> bool, i: nat)
    requires i < |xs| && p(xs[i]) && forall j :: i < j < |xs| ==> !p(xs[j])
    ensures LastWhere(xs, p) == Some(i)
  {
    var r := LastWhere(xs, p);
    assert r.Some? ==> p(xs[r.value]);
  }

  // ---------------------------------------------------------------- splitting

  /** strings.Split on a one-character separator: never empty. */
  function Split(s: string, sep: char): (parts: seq<string>)
    ensures parts != []
  {
    var i := IndexOf(s, sep);
    if i == |s| then [s] else [s[..i]] + Split(s[i + 1..], sep)
  }

  lemma {:induction false} SplitParts(s: string, sep: char, k: nat)
    requires k < |Split(s, sep)|
    ensures Without(Split(s, sep)[k], sep)
  {
    var i := IndexOf(s, sep);
    if i < |s| && k > 0 {
      SplitParts(s[i + 1..], sep, k - 1);
    }
  }

  function Join(parts: seq<string>, sep: char): string {
    if parts == [] then ""
    else if |parts| == 1 then parts[0]
    else parts[0] + [sep] + Join(parts[1..], sep)
  }

  lemma SplitOnce(s: string, sep: char)
    ensures var i := IndexOf(s, sep);
            Split(s, sep) == if i == |s| then [s] else [s[..i]] + Split(s[i + 1..], sep)
  {
  }

  lemma JoinOne(part: string, sep: char)
    ensures Join([part], sep) == part
  {
  }

  lemma JoinMore(part: string, parts: seq<string>, sep: char)
    requires parts != []
    ensures Join([part] + parts, sep) == part + [sep] + Join(parts, sep)
  {
    assert ([part] + parts)[1..] == parts;
  }

  /** Splitting loses nothing: joining the parts gives the string back. */
  lemma {:induction false} JoinSplit(s: string, sep: char)
    ensures Join(Split(s, sep), sep) == s
  {
    hide Split, Join;
    var i := IndexOf(s, sep);
    SplitOnce(s, sep);
    if i < |s| {
      JoinSplit(s[i + 1..], sep);
      JoinMore(s[..i], Split(s[i + 1..], sep), sep);
      assert s == s[..i] + [sep] + s[i + 1..];
    } else {
      JoinOne(s, sep);
    }
  }

  /** Separator-free parts survive a join followed by a split. */
  lemma {:induction false} SplitJoin(parts: seq<string>, sep: char)
    requires |parts| >= 1
    requires forall i :: 0 <= i < |parts| ==> Without(parts[i], sep)
    ensures Split(Join(parts, sep), sep) == parts
  {
    hide Split, Join;
    var head, s := parts[0], Join(parts, sep);
    SplitOnce(s, sep);
    if |parts| == 1 {
      assert parts == [head];
      JoinOne(head, sep);
      IndexOfUnique(s, sep, |s|);
    } else {
      assert parts == [head] + parts[1..];
      JoinMore(head, parts[1..], sep);
      assert s == head + ([sep] + Join(parts[1..], sep));
      assert s[..|head|] == head && s[|head|] == sep && s[|head| + 1..] == Join(parts[1..], sep);
      IndexOfUnique(s, sep, |head|);
      SplitJoin(parts[1..], sep);
    }
  }

  // ---------------------------------------------------------------- white space

  /** unicode.IsSpace. */
  predicate IsSpace(c: char) {
    c == ' ' || '\t' <= c <= '\r' || c == '\U{85}' || c == '\U{A0}' || c == '\U{1680}'
    || '\U{2000}' <= c <= '\U{200A}' || c == '\U{2028}' || c == '\U{2029}'
    || c == '\U{202F}' || c == '\U{205F}' || c == '\U{3000}'
  }

  /** The 25 code points with Unicode's White_Space property. */
  lemma IsSpaceIff(c: char)
    ensures IsSpace(c) <==> c as int in {9, 10, 11, 12, 13, 32, 0x85, 0xA0, 0x1680, 0x2000, 0x2001, 0x2002, 0x2003,
                                         0x2004, 0x2005, 0x2006, 0x2007, 0x2008, 0x2009, 0x200A, 0x2028, 0x2029,
                                         0x202F, 0x205F, 0x3000}
  {
  }

  predicate AllSpace(s: string) {
    forall i :: 0 <= i < |s| ==> IsSpace(s[i])
  }

  predicate NoSpace(s: string) {
    forall i :: 0 <= i < |s| ==> !IsSpace(s[i])
  }

  /** A string strings.TrimSpace leaves alone. */
  predicate Trimmed(s: string) {
    s != "" ==> !IsSpace(s[0]) && !IsSpace(s[|s| - 1])
  }

  /** The first position at or after `k` without white space. */
  function SkipSpace(s: string, k: nat): (i: nat)
    requires k <= |s|
    ensures k <= i <= |s|
    ensures forall j :: k <= j < i ==> IsSpace(s[j])
    ensures i < |s| ==> !IsSpace(s[i])
    decreases |s| - k
  {
    if k < |s| && IsSpace(s[k]) then SkipSpace(s, k + 1) else k
  }

  /** The end of the text in s[lo..k] once trailing white space is gone. */
  function SkipSpaceBack(s: string, lo: nat, k: nat): (i: nat)
    requires lo <= k <= |s|
    ensures lo <= i <= k
    ensures forall j :: i <= j < k ==> IsSpace(s[j])
    ensures lo < i ==> !IsSpace(s[i - 1])
  {
    if lo < k && IsSpace(s[k - 1]) then SkipSpaceBack(s, lo, k - 1) else k
  }

  /** strings.TrimSpace. */
  function TrimSpace(s: string): (r: string)
    ensures Trimmed(r)
  {
    var i := SkipSpace(s, 0);
    s[i..SkipSpaceBack(s, i, |s|)]
  }

  lemma TrimSpaceKeeps(s: string)
    requires Trimmed(s)
    ensures TrimSpace(s) == s
  {
  }

  /** Trimming takes off white space only. */
  lemma TrimSpacePads(s: string)
    ensures exists lead, pad :: AllSpace(lead) && AllSpace(pad) && s == lead + (TrimSpace(s) + pad)
  {
    var i := SkipSpace(s, 0);
    var j := SkipSpaceBack(s, i, |s|);
    assert TrimSpace(s) == s[i..j];
    hide TrimSpace, SkipSpace, SkipSpaceBack, IsSpace;
    Cut(s, i, j);
    assert AllSpace(s[..i]) && AllSpace(s[j..]);
  }

  lemma Cut(s: string, i: nat, j: nat)
    requires i <= j <= |s|
    ensures s == s[..i] + (s[i..j] + s[j..])
  {
  }

  /** Trimming takes off all of it. */
  lemma TrimSpaceUnique(lead: string, body: string, pad: string)
    requires AllSpace(lead) && AllSpace(pad) && Trimmed(body)
    ensures TrimSpace(lead + (body + pad)) == body
  {
    var s := lead + (body + pad);
    var i := SkipSpace(s, 0);
    if body == "" {
      assert AllSpace(s);
    } else {
      assert s[|lead|] == body[0];
      assert i == |lead|;
      var j := SkipSpaceBack(s, i, |s|);
      assert s[|lead| + |body| - 1] == body[|body| - 1];
      assert forall k :: |lead| + |body| <= k < |s| ==> IsSpace(s[k]) by {
        assert forall k :: |lead| + |body| <= k < |s| ==> s[k] == pad[k - |lead| - |body|];
      }
      assert j == |lead| + |body|;
      assert s[i..j] == body;
    }
  }

  /** The first position at or after `k` with white space. */
  function SkipWord(s: string, k: nat): (i: nat)
    requires k <= |s|
    ensures k <= i <= |s|
    ensures forall j :: k <= j < i ==> !IsSpace(s[j])
    ensures i < |s| ==> IsSpace(s[i])
    decreases |s| - k
  {
    if k < |s| && !IsSpace(s[k]) then SkipWord(s, k + 1) else k
  }

  lemma {:induction false} SkipWordUnique(s: string, k: nat, i: nat)
    requires k <= i <= |s| && (forall j :: k <= j < i ==> !IsSpace(s[j])) && (i < |s| ==> IsSpace(s[i]))
    ensures SkipWord(s, k) == i
    decreases i - k
  {
    if k < i {
      SkipWordUnique(s, k + 1, i);
    }
  }

  /** strings.Fields: the maximal runs without white space. */
  function Fields(s: string): seq<string>
    decreases |s|
  {
    if s == "" then []
    else if IsSpace(s[0]) then Fields(s[1..])
    else
      var n := SkipWord(s, 0);
      [s[..n]] + Fields(s[n..])
  }

  /** White space before a text does not change its fields. */
  lemma {:induction false} FieldsSkipPad(pad: string, s: string)
    requires AllSpace(pad)
    ensures Fields(pad + s) == Fields(s)
  {
    if pad == "" {
      assert pad + s == s;
    } else {
      assert (pad + s)[1..] == pad[1..] + s;
      FieldsSkipPad(pad[1..], s);
    }
  }

  /** A word followed by white space (or the end) is the first field. */
  lemma FieldsWord(word: string, rest: string)
    requires word != "" && NoSpace(word) && (rest == "" || IsSpace(rest[0]))
    ensures Fields(word + rest) == [word] + Fields(rest)
  {
    var s := word + rest;
    assert s[..|word|] == word && s[|word|..] == rest;
    SkipWordUnique(s, 0, |word|);
  }

  /** White space after a text does not change its fields. */
  lemma {:induction false} FieldsDropPad(s: string, pad: string)
    requires AllSpace(pad)
    ensures Fields(s + pad) == Fields(s)
    decreases |s|
  {
    if s == "" {
      assert s + pad == pad + "";
      FieldsSkipPad(pad, "");
    } else if IsSpace(s[0]) {
      assert (s + pad)[1..] == s[1..] + pad;
      FieldsDropPad(s[1..], pad);
    } else {
      var n := SkipWord(s, 0);
      var word, rest := s[..n], s[n..];
      FieldsDropPad(rest, pad);
      assert s + pad == word + (rest + pad) && s == word + rest;
      FieldsWord(word, rest + pad);
    }
  }

  /** Fields already ignores what TrimSpace removes. */
  lemma FieldsTrimmed(s: string)
    ensures Fields(TrimSpace(s)) == Fields(s)
  {
    hide Fields;
    TrimSpacePads(s);
    var lead, pad :| AllSpace(lead) && AllSpace(pad) && s == lead + (TrimSpace(s) + pad);
    hide TrimSpace;
    FieldsSkipPad(lead, TrimSpace(s) + pad);
    FieldsDropPad(TrimSpace(s), pad);
  }

  /** The first field and what follows it. */
  lemma {:induction false} FieldsSplit(s: string)
    requires Fields(s) != []
    ensures exists pad, word, rest ::
              && AllSpace(pad) && word != "" && NoSpace(word) && (rest == "" || IsSpace(rest[0]))
              && s == pad + (word + rest) && Fields(s) == [word] + Fields(rest)
  {
    hide NoSpace;
    if IsSpace(s[0]) {
      FieldsSplit(s[1..]);
      var pad, word, rest :| AllSpace(pad) && word != "" && NoSpace(word) && (rest == "" || IsSpace(rest[0]))
        && s[1..] == pad + (word + rest) && Fields(s[1..]) == [word] + Fields(rest);
      assert AllSpace([s[0]] + pad) && s == ([s[0]] + pad) + (word + rest);
    } else {
      var n := SkipWord(s, 0);
      var word, rest := s[..n], s[n..];
      assert NoSpace(word) by { WordHasNoSpace(s, n); }
      assert s == "" + (word + rest) && AllSpace("");
    }
  }

  lemma WordHasNoSpace(s: string, n: nat)
    requires n <= |s| && forall j :: 0 <= j < n ==> !IsSpace(s[j])
    ensures NoSpace(s[..n])
  {
  }

  /** `word` is the second of the words, separated by white space, that `s` consists of. */
  ghost predicate SecondWord(s: string, word: string) {
    exists a, first, b, rest :: SecondWordAt(s, a, first, b, word, rest)
  }

  predicate SecondWordAt(s: string, a: string, first: string, b: string, word: string, rest: string) {
    && AllSpace(a) && AllSpace(b) && b != "" && first != "" && NoSpace(first) && word != "" && NoSpace(word)
    && (rest == "" || IsSpace(rest[0]))
    && s == a + (first + (b + (word + rest)))
  }

  lemma SecondFieldIff(s: string, word: string)
    ensures |Fields(s)| >= 2 && Fields(s)[1] == word <==> SecondWord(s, word)
  {
    hide Fields, NoSpace;
    if |Fields(s)| >= 2 && Fields(s)[1] == word {
      FieldsSplit(s);
      var a, first, after :| AllSpace(a) && first != "" && NoSpace(first) && (after == "" || IsSpace(after[0]))
        && s == a + (first + after) && Fields(s) == [first] + Fields(after);
      FieldsSplit(after);
      var b, second, rest :| AllSpace(b) && second != "" && NoSpace(second) && (rest == "" || IsSpace(rest[0]))
        && after == b + (second + rest) && Fields(after) == [second] + Fields(rest);
      FirstIsNoSpace(second);
      BreakBetween(after, b, second + rest);
      assert SecondWordAt(s, a, first, b, word, rest);
    }
    if SecondWord(s, word) {
      var a, first, b, rest :| SecondWordAt(s, a, first, b, word, rest);
      FieldsSkipPad(a, first + (b + (word + rest)));
      assert IsSpace((b + (word + rest))[0]);
      FieldsWord(first, b + (word + rest));
      FieldsSkipPad(b, word + rest);
      FieldsWord(word, rest);
    }
  }

  lemma BreakBetween(s: string, b: string, next: string)
    requires s == b + next && s != "" && IsSpace(s[0]) && next != "" && !IsSpace(next[0])
    ensures b != ""
  {
    assert "" + next == next;
  }

  lemma FirstIsNoSpace(word: string)
    requires word != "" && NoSpace(word)
    ensures !IsSpace(word[0])
  {
  }

  // ---------------------------------------------------------------- numbers

  const MAX_INT := 0x7FFF_FFFF_FFFF_FFFF

  predicate IsDigit(c: char) { '0' <= c <= '9' }

  function DigitValue(c: char): nat
    requires IsDigit(c)
  {
    c as int - '0' as int
  }

  predicate AllDigits(s: string) { forall i :: 0 <= i < |s| ==> IsDigit(s[i]) }

  function Value(s: string): nat
    requires AllDigits(s)
  {
    if s == "" then 0 else 10 * Value(s[..|s| - 1]) + DigitValue(s[|s| - 1])
  }

  /** strconv.Atoi with a 64-bit int: an optional sign, at least one digit, in range. */
  function Atoi(s: string): Option<int> {
    var negative := s != "" && s[0] == '-';
    var digits := if s != "" && (s[0] == '-' || s[0] == '+') then s[1..] else s;
    if digits == "" || !AllDigits(digits) then None
    else
      var magnitude: int := Value(digits);
      if negative then
        if magnitude <= MAX_INT + 1 then Some(-magnitude) else None
      else
        if magnitude <= MAX_INT then Some(magnitude) else None
  }

  function DigitChar(n: nat): (c: char)
    requires n < 10
    ensures IsDigit(c) && DigitValue(c) == n
  {
    '0' + n as char
  }

  /** Decimal printing of a natural number. */
  function Itoa(n: nat): (s: string)
    ensures s != "" && AllDigits(s) && Value(s) == n
  {
    if n < 10 then [DigitChar(n)] else Itoa(n / 10) + [DigitChar(n % 10)]
  }

  lemma AtoiOfItoa(n: nat)
    ensures Atoi(Itoa(n)) == if n <= MAX_INT then Some(n) else None
    ensures NoSpace(Itoa(n)) && Without(Itoa(n), ')')
  {
    var s := Itoa(n);
    assert IsDigit(s[0]);
  }

  /** strconv.Atoi by its grammar: decimal digits after at most one sign, in the range of 64 bits. */
  lemma AtoiIff(s: string, v: int)
    ensures Atoi(s) == Some(v) <==> IsDecimal(s, v)
  {
    if s != "" {
      assert s == [s[0]] + s[1..];
    }
    if IsDecimal(s, v) {
      var digits :| AllDigits(digits) && digits != "" && Signed(s, digits, v);
      assert IsDigit(digits[0]);
      assert s == digits || s[1..] == digits;
    }
  }

  ghost predicate IsDecimal(s: string, v: int) {
    -0x8000_0000_0000_0000 <= v <= 0x7FFF_FFFF_FFFF_FFFF
    && exists digits :: AllDigits(digits) && digits != "" && Signed(s, digits, v)
  }

  predicate Signed(s: string, digits: string, v: int)
    requires AllDigits(digits)
  {
    (s == digits && v == Value(digits)) || (s == "+" + digits && v == Value(digits))
    || (s == "-" + digits && v + Value(digits) == 0)
  }

  /** A number's digits, read from the left. */
  lemma {:induction false} ValueCons(c: char, digits: string)
    requires IsDigit(c) && AllDigits(digits)
    ensures AllDigits([c] + digits) && Value([c] + digits) == (c as int - 48) * Power10(|digits|) + Value(digits)
  {
    var s := [c] + digits;
    if digits == "" {
      assert s == [c] && Value([c][..0]) == 0;
    } else {
      var n := |digits| - 1;
      assert s[..|s| - 1] == [c] + digits[..n] && s[|s| - 1] == digits[n];
      ValueCons(c, digits[..n]);
      TenTimes(c as int - 48, Power10(n), Value(digits[..n]));
    }
  }

  lemma TenTimes(a: int, b: int, c: int)
    ensures 10 * (a * b + c) == a * (10 * b) + 10 * c
  {
  }

  function Power10(n: nat): nat {
    if n == 0 then 1 else 10 * Power10(n - 1)
  }

  // ---------------------------------------------------------------- selecting

  /** `ys` are the elements of `xs` that `keep` holds of, each once and in order. */
  ghost predicate Selects<X(!new)>(xs: seq<X>, keep: X -> bool, ys: seq<X>) {
    exists at: seq<nat> :: SelectsAt(xs, keep, ys, at)
  }

  ghost predicate SelectsAt<X(!new)>(xs: seq<X>, keep: X -> bool, ys: seq<X>, at: seq<nat>) {
    && |at| == |ys|
    && (forall j, k :: 0 <= j < k < |at| ==> at[j] < at[k])
    && (forall k :: 0 <= k < |at| ==> at[k] < |xs| && keep(xs[at[k]]) && ys[k] == xs[at[k]])
    && (forall i: nat :: i < |xs| && keep(xs[i]) ==> i in at)
  }

  function Filter<X>(xs: seq<X>, keep: X -> bool): seq<X> {
    if xs == [] then []
    else Filter(xs[..|xs| - 1], keep) + if keep(xs[|xs| - 1]) then [xs[|xs| - 1]] else []
  }

  lemma {:induction false} FilterSelects<X(!new)>(xs: seq<X>, keep: X -> bool) returns (at: seq<nat>)
    ensures SelectsAt(xs, keep, Filter(xs, keep), at)
  {
    hide SelectsAt;
    if xs == [] {
      at := [];
      NothingSelected(keep);
    } else {
      var n := |xs| - 1;
      at := FilterSelects(xs[..n], keep);
      SelectNext(xs, keep, Filter(xs[..n], keep), at);
      at := if keep(xs[n]) then at + [n] else at;
    }
  }

  lemma NothingSelected<X(!new)>(keep: X -> bool)
    ensures SelectsAt([], keep, [], [])
  {
  }

  lemma SelectNext<X(!new)>(xs: seq<X>, keep: X -> bool, ys: seq<X>, at: seq<nat>)
    requires xs != [] && SelectsAt(xs[..|xs| - 1], keep, ys, at)
    ensures keep(xs[|xs| - 1]) ==> SelectsAt(xs, keep, ys + [xs[|xs| - 1]], at + [|xs| - 1])
    ensures !keep(xs[|xs| - 1]) ==> SelectsAt(xs, keep, ys + [], at)
  {
    var n := |xs| - 1;
    assert forall i :: 0 <= i < n ==> xs[..n][i] == xs[i];
    assert ys + [] == ys;
    if keep(xs[n]) {
      var more := at + [n];
      assert more[|at|] == n;
      forall i: nat | i < |xs| && keep(xs[i]) ensures i in more {
        if i < n {
          assert i in at;
        }
      }
    }
  }

  lemma {:induction false} SelectsOnce<X(!new)>(xs: seq<X>, keep: X -> bool, ys: seq<X>, at: seq<nat>)
    requires SelectsAt(xs, keep, ys, at)
    ensures ys == Filter(xs, keep)
  {
    if xs != [] {
      var n := |xs| - 1;
      if keep(xs[n]) {
        var last := |at| - 1;
        LastSelected(xs, keep, ys, at);
        SelectsOnce(xs[..n], keep, ys[..last], at[..last]);
        assert ys == ys[..last] + [ys[last]];
      } else {
        assert forall k :: 0 <= k < |at| ==> at[k] != n;
        SelectsOnce(xs[..n], keep, ys, at);
      }
    }
  }

  lemma LastSelected<X(!new)>(xs: seq<X>, keep: X -> bool, ys: seq<X>, at: seq<nat>)
    requires SelectsAt(xs, keep, ys, at) && xs != [] && keep(xs[|xs| - 1])
    ensures at != [] && at[|at| - 1] == |xs| - 1 && ys != [] && ys[|ys| - 1] == xs[|xs| - 1]
    ensures SelectsAt(xs[..|xs| - 1], keep, ys[..|ys| - 1], at[..|at| - 1])
  {
    var n := |xs| - 1;
    assert n in at;
    var k :| 0 <= k < |at| && at[k] == n;
    var last := |at| - 1;
    assert at[k] <= at[last];
    forall i: nat | i < n && keep(xs[..n][i]) ensures i in at[..last] {
      assert i in at;
      var j :| 0 <= j < |at| && at[j] == i;
      assert at[..last][j] == i;
    }
  }

  lemma SelectsIff<X(!new)>(xs: seq<X>, keep: X -> bool, ys: seq<X>)
    ensures Selects(xs, keep, ys) <==> ys == Filter(xs, keep)
  {
    if Selects(xs, keep, ys) {
      var at :| SelectsAt(xs, keep, ys, at);
      SelectsOnce(xs, keep, ys, at);
    }
    if ys == Filter(xs, keep) {
      var at := FilterSelects(xs, keep);
    }
  }
}
