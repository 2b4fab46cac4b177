/** The list-valued settings: binary targets, RPC names with their URLs, and pattern lists. */
module Config {
  import opened Text
  import BridgeRpc

  // ---------------------------------------------------------------- separated lists

  /** The trimmed parts that are not blank, in order. */
  function NonBlank(parts: seq<string>): seq<string> {
    if parts == [] then []
    else
      var part := TrimSpace(parts[|parts| - 1]);
      NonBlank(parts[..|parts| - 1]) + if part == "" then [] else [part]
  }

  function ListOf(raw: string, sep: char): seq<string> { NonBlank(Split(raw, sep)) }

  /** splitOrDefault: one pattern a line, white space around it aside, or the defaults if there is none. */
  method SplitOrDefault(raw: string, def: seq<string>) returns (r: seq<string>)
    ensures exists items :: ListReads(raw, '\n', items) && r == if items == [] then def else items
  {
    ListReadsIff(raw, '\n', ListOf(raw, '\n'));
    hide ListReads;
    hide TrimSpace, Split;
    if raw == "" {
      assert NonBlank(Split("", '\n')) == [] by { NoItems(); }
      return def;
    }
    var out, parts := [], Split(raw, '\n');
    for i := 0 to |parts|
      invariant out == NonBlank(parts[..i])
    {
      assert parts[..i + 1][..i] == parts[..i];
      var p := TrimSpace(parts[i]);
      if p == "" {
        continue;
      }
      out := out + [p];
    }
    assert parts[..|parts|] == parts;
    return if |out| == 0 then def else out;
  }

  /** An item with white space around it; a blank one is all white space. */
  datatype Padded = Padded(lead: string, item: string, pad: string) {
    function Text(): string { lead + (item + pad) }
  }

  function Texts(ps: seq<Padded>): seq<string> {
    seq(|ps|, i requires 0 <= i < |ps| => ps[i].Text())
  }

  function Items(ps: seq<Padded>): seq<string> {
    seq(|ps|, i requires 0 <= i < |ps| => ps[i].item)
  }

  predicate IsPadded(p: Padded, sep: char) {
    AllSpace(p.lead) && AllSpace(p.pad) && Trimmed(p.item) && Without(p.Text(), sep)
  }

  /** `raw` is written as these padded items, with separators between them. */
  predicate SpelledAs(raw: string, sep: char, ps: seq<Padded>) {
    ps != [] && (forall i :: 0 <= i < |ps| ==> IsPadded(ps[i], sep)) && raw == Join(Texts(ps), sep)
  }

  function NotEmpty(): string -> bool { (item: string) => item != "" }

  /** The items that `raw` is written as, without the blank ones, in order. */
  ghost predicate ListReads(raw: string, sep: char, items: seq<string>) {
    exists ps :: SpelledAs(raw, sep, ps) && Selects(Items(ps), NotEmpty(), items)
  }

  /** What parsing a list gives, in terms of how the list is written: padded items survive without their
      padding, blank ones do not, and the order is kept. */
  lemma ListReadsIff(raw: string, sep: char, items: seq<string>)
    ensures ListReads(raw, sep, items) <==> items == ListOf(raw, sep)
  {
    hide Split, Join, Selects, IsPadded;
    if ListReads(raw, sep, items) {
      var ps :| SpelledAs(raw, sep, ps) && Selects(Items(ps), NotEmpty(), items);
      SpelledIsRead(raw, sep, ps);
      SelectsIff(Items(ps), NotEmpty(), items);
    }
    if items == ListOf(raw, sep) {
      forall k | 0 <= k < |Split(raw, sep)| ensures Without(Split(raw, sep)[k], sep) {
        SplitParts(raw, sep, k);
      }
      JoinSplit(raw, sep);
      var ps := Pad(Split(raw, sep), sep);
      SpelledIsRead(raw, sep, ps);
      SelectsIff(Items(ps), NotEmpty(), items);
    }
  }

  lemma SpelledIsRead(raw: string, sep: char, ps: seq<Padded>)
    requires SpelledAs(raw, sep, ps)
    ensures ListOf(raw, sep) == Filter(Items(ps), NotEmpty())
  {
    hide Split, Join;
    forall i | 0 <= i < |ps| ensures Without(Texts(ps)[i], sep) {
      assert IsPadded(ps[i], sep);
    }
    SplitJoin(Texts(ps), sep);
    TextsAreRead(ps, sep);
  }

  lemma {:induction false} TextsAreRead(ps: seq<Padded>, sep: char)
    requires forall i :: 0 <= i < |ps| ==> IsPadded(ps[i], sep)
    ensures NonBlank(Texts(ps)) == Filter(Items(ps), NotEmpty())
  {
    hide TrimSpace;
    if ps != [] {
      var n := |ps| - 1;
      TextsAreRead(ps[..n], sep);
      assert Texts(ps)[..n] == Texts(ps[..n]) && Items(ps)[..n] == Items(ps[..n]);
      assert IsPadded(ps[n], sep);
      TrimSpaceUnique(ps[n].lead, ps[n].item, ps[n].pad);
    }
  }

  /** Every text is written in such a way. */
  lemma {:induction false} Pad(parts: seq<string>, sep: char) returns (ps: seq<Padded>)
    requires forall i :: 0 <= i < |parts| ==> Without(parts[i], sep)
    ensures Texts(ps) == parts && forall i :: 0 <= i < |ps| ==> IsPadded(ps[i], sep)
  {
    hide TrimSpace, AllSpace, Trimmed, Without;
    if parts == [] {
      ps := [];
    } else {
      var n := |parts| - 1;
      var before := Pad(parts[..n], sep);
      TrimSpacePads(parts[n]);
      var lead, pad :| AllSpace(lead) && AllSpace(pad) && parts[n] == lead + (TrimSpace(parts[n]) + pad);
      var p := Padded(lead, TrimSpace(parts[n]), pad);
      assert IsPadded(p, sep);
      ps := before + [p];
      assert Texts(ps) == Texts(before) + [p.Text()];
    }
  }

  predicate Clean(item: string, sep: char) {
    item != "" && Trimmed(item) && Without(item, sep)
  }

  /** Whatever the text, its items are trimmed, not blank and free of the separator. */
  lemma ListItemsClean(raw: string, sep: char)
    ensures forall i :: 0 <= i < |ListOf(raw, sep)| ==> Clean(ListOf(raw, sep)[i], sep)
  {
    var parts := Split(raw, sep);
    forall k | 0 <= k < |parts| ensures Without(parts[k], sep) {
      SplitParts(raw, sep, k);
    }
    NonBlankClean(parts, sep);
  }

  lemma {:induction false} NonBlankClean(parts: seq<string>, sep: char)
    requires forall i :: 0 <= i < |parts| ==> Without(parts[i], sep)
    ensures forall i :: 0 <= i < |NonBlank(parts)| ==> Clean(NonBlank(parts)[i], sep)
  {
    if parts != [] {
      NonBlankClean(parts[..|parts| - 1], sep);
    }
  }

  lemma {:induction false} NonBlankKeeps(parts: seq<string>, sep: char)
    requires forall i :: 0 <= i < |parts| ==> Clean(parts[i], sep)
    ensures NonBlank(parts) == parts
  {
    if parts != [] {
      NonBlankKeeps(parts[..|parts| - 1], sep);
      TrimSpaceKeeps(parts[|parts| - 1]);
      assert parts == parts[..|parts| - 1] + [parts[|parts| - 1]];
    }
  }

  /** Writing clean items down and reading them again gives them back. */
  lemma ListRoundTrip(items: seq<string>, sep: char)
    requires items != [] && forall i :: 0 <= i < |items| ==> Clean(items[i], sep)
    ensures ListOf(Join(items, sep), sep) == items
  {
    SplitJoin(items, sep);
    NonBlankKeeps(items, sep);
  }

  /** What splitOrDefault parses is a fixpoint: joining it and parsing again changes nothing. */
  lemma ListFixpoint(raw: string, sep: char)
    requires ListOf(raw, sep) != []
    ensures ListOf(Join(ListOf(raw, sep), sep), sep) == ListOf(raw, sep)
  {
    ListItemsClean(raw, sep);
    ListRoundTrip(ListOf(raw, sep), sep);
  }

  // ---------------------------------------------------------------- binary targets

  datatype Component = Visor | BridgeVoter | ReferenceOracle | OutcomeVoter {
    function Name(): string {
      match this
      case Visor => "visor"
      case BridgeVoter => "bridge-voter"
      case ReferenceOracle => "reference-oracle-publisher"
      case OutcomeVoter => "outcome-voter"
    }
  }

  const BINARY_ROOT := "/home/admin/v-publisher"

  function DefaultTarget(c: Component): string { BINARY_ROOT + "/" + c.Name() }

  /** The component a name stands for; unknown names are dropped. */
  function Known(name: string): (r: Option<Component>)
    ensures r.Some? ==> r.value.Name() == name
  {
    if name == Visor.Name() then Some(Visor)
    else if name == BridgeVoter.Name() then Some(BridgeVoter)
    else if name == OutcomeVoter.Name() then Some(OutcomeVoter)
    else if name == ReferenceOracle.Name() then Some(ReferenceOracle)
    else None
  }

  lemma NamesAre()
    ensures Visor.Name() == "visor" && BridgeVoter.Name() == "bridge-voter"
    ensures ReferenceOracle.Name() == "reference-oracle-publisher" && OutcomeVoter.Name() == "outcome-voter"
  {
  }

  lemma NameLengths()
    ensures |Visor.Name()| == 5 && |BridgeVoter.Name()| == 12 && |OutcomeVoter.Name()| == 13
         && |ReferenceOracle.Name()| == 26
  {
  }

  predicate LettersAndDashes(name: string) {
    forall i :: 0 <= i < |name| ==> 'a' <= name[i] <= 'z' || name[i] == '-'
  }

  lemma NameLetters(c: Component)
    ensures LettersAndDashes(c.Name())
  {
  }

  lemma NameIsClean(c: Component)
    ensures c.Name() != "" && Trimmed(c.Name()) && Without(c.Name(), '=') && Without(c.Name(), ',')
  {
    hide Component.Name;
    NameLengths();
    NameLetters(c);
  }

  lemma NamesKnown(c: Component)
    ensures Known(c.Name()) == Some(c)
    ensures c.Name() != "" && Trimmed(c.Name()) && Without(c.Name(), '=') && Without(c.Name(), ',')
  {
    hide Component.Name;
    NameLengths();
    NameIsClean(c);
  }

  /** The assignment one comma-separated part makes, if it makes one. */
  function Assignment(part: string): (r: Option<(Component, string)>)
    ensures r.Some? ==> r.value.1 != ""
  {
    var pair := TrimSpace(part);
    var eq := IndexOf(pair, '=');
    if eq == |pair| then None
    else
      var component, path := Known(TrimSpace(pair[..eq])), TrimSpace(pair[eq + 1..]);
      if path != "" && component.Some? then Some((component.value, path)) else None
  }

  function Assigns(c: Component): string -> bool {
    part => Assignment(part).Some? && Assignment(part).value.0 == c
  }

  /** The last well-formed assignment wins, then the legacy path for the visor, then the default. */
  function TargetOf(parts: seq<string>, legacy: string, c: Component): string {
    var last := LastWhere(parts, Assigns(c));
    if last.Some? then Assignment(parts[last.value]).value.1
    else if c == Visor && legacy != "" then legacy
    else DefaultTarget(c)
  }

  lemma TargetSnoc(parts: seq<string>, part: string, legacy: string, c: Component)
    ensures TargetOf(parts + [part], legacy, c)
         == if Assigns(c)(part) then Assignment(part).value.1 else TargetOf(parts, legacy, c)
  {
    hide Assignment;
    assert (parts + [part])[..|parts|] == parts;
  }

  /** `part` reads name = path, with any white space around the two. */
  ghost predicate Spells(part: string, c: Component, path: string) {
    path != "" && Trimmed(path) &&
    exists l, m, n, o :: AllSpace(l) && AllSpace(m) && AllSpace(n) && AllSpace(o)
      && part == l + (Sides(c.Name() + m, n + path) + o)
  }

  function Sides(left: string, right: string): string { left + ['='] + right }

  /** A part assigns a path to a component exactly when it spells it; names of no component, blank
      paths and parts without '=' assign nothing. */
  lemma AssignmentIff(part: string, c: Component, path: string)
    ensures Assignment(part) == Some((c, path)) <==> Spells(part, c, path)
  {
    if Assignment(part) == Some((c, path)) {
      AssignedIsSpelled(part, c, path);
    }
    if Spells(part, c, path) {
      var l, m, n, o :| AllSpace(l) && AllSpace(m) && AllSpace(n) && AllSpace(o)
        && part == l + (Sides(c.Name() + m, n + path) + o);
      SpelledIsAssigned(l, c, m, n, path, o);
    }
  }

  lemma AssignedIsSpelled(part: string, c: Component, path: string)
    requires Assignment(part) == Some((c, path))
    ensures Spells(part, c, path)
  {
    hide TrimSpace, IndexOf, Component.Name, AllSpace;
    var pair := TrimSpace(part);
    var eq := IndexOf(pair, '=');
    var left, right := pair[..eq], pair[eq + 1..];
    assert pair == left + ['='] + right;
    TrimSpacePads(part);
    TrimSpacePads(left);
    TrimSpacePads(right);
    var l, o :| AllSpace(l) && AllSpace(o) && part == l + (pair + o);
    var l', m :| AllSpace(l') && AllSpace(m) && left == l' + (c.Name() + m);
    var n, o' :| AllSpace(n) && AllSpace(o') && right == n + (path + o');
    IsSpelled(part, c, path, l, l', m, n, o', o);
  }

  lemma IsSpelled(part: string, c: Component, path: string, l: string, l': string, m: string, n: string, o': string,
                  o: string)
    requires path != "" && Trimmed(path) && AllSpace(l) && AllSpace(l') && AllSpace(m) && AllSpace(n)
    requires AllSpace(o') && AllSpace(o)
    requires part == l + ((l' + (c.Name() + m)) + ['='] + (n + (path + o')) + o)
    ensures Spells(part, c, path)
  {
    hide Component.Name, AllSpace, Trimmed, Sides;
    SpaceConcat(l, l');
    SpaceConcat(o', o);
    assert n + (path + o') == n + path + o';
    Regroup(l, l', c.Name() + m, n + path, o', o);
    assert part == l + l' + (Sides(c.Name() + m, n + path) + (o' + o));
  }

  lemma SpaceConcat(a: string, b: string)
    requires AllSpace(a) && AllSpace(b)
    ensures AllSpace(a + b)
  {
  }

  lemma Regroup(l: string, l': string, left: string, right: string, o': string, o: string)
    ensures l + ((l' + left) + ['='] + (right + o') + o) == l + l' + (Sides(left, right) + (o' + o))
  {
  }

  lemma SpelledIsAssigned(l: string, c: Component, m: string, n: string, path: string, o: string)
    requires AllSpace(l) && AllSpace(m) && AllSpace(n) && AllSpace(o) && path != "" && Trimmed(path)
    ensures Assignment(l + (Sides(c.Name() + m, n + path) + o)) == Some((c, path))
  {
    hide Known, Component.Name, TrimSpace;
    NamesKnown(c);
    var left, right := c.Name() + m, n + path;
    var pair := Sides(left, right);
    assert pair[0] == c.Name()[0] && pair[|pair| - 1] == path[|path| - 1];
    TrimSpaceUnique(l, pair, o);
    assert Without(m, '=');
    assert forall j :: 0 <= j < |left| ==> pair[j] == left[j];
    IndexOfUnique(pair, '=', |left|);
    assert pair[..|left|] == left && pair[|left| + 1..] == right;
    TrimSpaceUnique("", c.Name(), m);
    TrimSpaceUnique(n, path, "");
    assert "" + left == left && path + "" == path;
  }

  /** One round of the loop over the parts. */
  method AssignPart(part: string, targets: map<Component, string>) returns (r: map<Component, string>)
    ensures forall c, path :: Spells(part, c, path) ==> r == targets[c := path]
    ensures (forall c, path :: !Spells(part, c, path)) ==> r == targets
  {
    hide Known, TrimSpace, Spells;
    forall c, path ensures Spells(part, c, path) <==> Assignment(part) == Some((c, path)) {
      AssignmentIff(part, c, path);
    }
    var pair := TrimSpace(part);
    if pair == "" {
      return targets;
    }
    var eq := IndexOf(pair, '=');
    if eq == |pair| {
      return targets;
    }
    var name, path := TrimSpace(pair[..eq]), TrimSpace(pair[eq + 1..]);
    if name == "" || path == "" {
      NoBlankName();
      return targets;
    }
    var component := Known(name);
    r := if component.Some? then targets[component.value := path] else targets;
    assert component.Some? ==> Spells(part, component.value, path);
  }

  lemma NoBlankName()
    ensures Known("").None?
  {
  }

  lemma AssignedOnce(part: string, targets: map<Component, string>, r: map<Component, string>)
    requires forall c, path :: Spells(part, c, path) ==> r == targets[c := path]
    requires (forall c, path :: !Spells(part, c, path)) ==> r == targets
    ensures r == if Assignment(part).Some? then targets[Assignment(part).value.0 := Assignment(part).value.1]
        else targets
  {
    hide Assignment, Spells;
    forall c, path ensures Spells(part, c, path) <==> Assignment(part) == Some((c, path)) {
      AssignmentIff(part, c, path);
    }
  }

  /** What a component's path comes to, in terms of how the parts are written. */
  ghost predicate Resolved(parts: seq<string>, legacy: string, c: Component, target: string) {
    && target != ""
    && (forall i, path :: 0 <= i < |parts| && LastSpelling(parts, c, i, path) ==> target == path)
    && ((forall i, path :: 0 <= i < |parts| ==> !Spells(parts[i], c, path)) ==>
          target == if c == Visor && legacy != "" then legacy else "/home/admin/v-publisher/" + c.Name())
  }

  ghost predicate LastSpelling(parts: seq<string>, c: Component, i: nat, path: string)
    requires i < |parts|
  {
    Spells(parts[i], c, path) && forall j, other :: i < j < |parts| ==> !Spells(parts[j], c, other)
  }

  lemma TargetIsResolved(parts: seq<string>, legacy: string, c: Component)
    ensures Resolved(parts, legacy, c, TargetOf(parts, legacy, c))
  {
    hide Assignment, Spells, Component.Name;
    forall i, path | 0 <= i < |parts|
      ensures Spells(parts[i], c, path) <==> Assignment(parts[i]) == Some((c, path))
    {
      AssignmentIff(parts[i], c, path);
    }
    var last := LastWhere(parts, Assigns(c));
    assert forall i :: 0 <= i < |parts| ==>
      (Assigns(c)(parts[i]) <==> Assignment(parts[i]).Some? && Assignment(parts[i]).value.0 == c);
    forall i, path | 0 <= i < |parts| && LastSpelling(parts, c, i, path) ensures TargetOf(parts, legacy, c) == path {
      AssignmentIff(parts[i], c, path);
      forall j | i < j < |parts| ensures !Assigns(c)(parts[j]) {
        var a := Assignment(parts[j]);
        if a.Some? {
          AssignmentIff(parts[j], a.value.0, a.value.1);
        }
      }
      LastWhereUnique(parts, Assigns(c), i);
    }
    if last.Some? {
      assert Spells(parts[last.value], c, Assignment(parts[last.value]).value.1);
    } else {
      assert "/home/admin/v-publisher/" + c.Name() == DefaultTarget(c) by {
        assert "/home/admin/v-publisher/" == BINARY_ROOT + "/";
      }
    }
  }

  /** The part of Load that resolves the binaries: the last well-formed assignment wins, then the legacy
      path for the visor, then the default. */
  method BinaryTargets(raw: string, legacy: string) returns (targets: map<Component, string>)
    ensures forall c: Component :: c in targets && Resolved(Split(raw, ','), legacy, c, targets[c])
    ensures AreTargets(Split(raw, ','), legacy, targets)
  {
    hide Assignment, Split, TargetOf, DefaultTarget, Spells, Resolved;
    forall c: Component ensures Resolved(Split(raw, ','), legacy, c, TargetOf(Split(raw, ','), legacy, c)) {
      TargetIsResolved(Split(raw, ','), legacy, c);
    }
    targets := map[Visor := DefaultTarget(Visor), BridgeVoter := DefaultTarget(BridgeVoter),
                   OutcomeVoter := DefaultTarget(OutcomeVoter), ReferenceOracle := DefaultTarget(ReferenceOracle)];
    if legacy != "" {
      targets := targets[Visor := legacy];
    }
    var parts := Split(raw, ',');
    StartingTargets(legacy, targets);
    if raw == "" {
      BlankAssignsNothing(legacy);
      return;
    }
    for i := 0 to |parts|
      invariant AreTargets(parts[..i], legacy, targets)
    {
      assert parts[..i + 1] == parts[..i] + [parts[i]];
      ghost var before := targets;
      targets := AssignPart(parts[i], targets);
      AssignedOnce(parts[i], before, targets);
      AssignStep(parts[..i], parts[i], legacy, before, targets);
    }
    assert parts[..|parts|] == parts;
  }

  predicate AreTargets(parts: seq<string>, legacy: string, targets: map<Component, string>) {
    forall c: Component :: c in targets && targets[c] == TargetOf(parts, legacy, c)
  }

  lemma AssignStep(parts: seq<string>, part: string, legacy: string, before: map<Component, string>,
                   after: map<Component, string>)
    requires AreTargets(parts, legacy, before)
    requires after == if Assignment(part).Some? then before[Assignment(part).value.0 := Assignment(part).value.1]
                      else before
    ensures AreTargets(parts + [part], legacy, after)
  {
    hide Assignment, TargetOf;
    forall c: Component ensures c in after && after[c] == TargetOf(parts + [part], legacy, c) {
      TargetSnoc(parts, part, legacy, c);
    }
  }

  lemma StartingTargets(legacy: string, targets: map<Component, string>)
    requires Visor in targets && targets[Visor] == if legacy != "" then legacy else DefaultTarget(Visor)
    requires BridgeVoter in targets && targets[BridgeVoter] == DefaultTarget(BridgeVoter)
    requires OutcomeVoter in targets && targets[OutcomeVoter] == DefaultTarget(OutcomeVoter)
    requires ReferenceOracle in targets && targets[ReferenceOracle] == DefaultTarget(ReferenceOracle)
    ensures forall c: Component :: c in targets && targets[c] != "" && targets[c] == TargetOf([], legacy, c)
  {
    forall c: Component ensures c in targets && targets[c] != "" && targets[c] == TargetOf([], legacy, c) {
      match c
      case Visor =>
      case BridgeVoter =>
      case OutcomeVoter =>
      case ReferenceOracle =>
    }
  }

  lemma BlankAssignsNothing(legacy: string)
    ensures forall c: Component :: TargetOf(Split("", ','), legacy, c) == TargetOf([], legacy, c)
  {
    NoItems();
    TrimSpaceKeeps("");
    assert Assignment("").None?;
    forall c: Component ensures TargetOf([""], legacy, c) == TargetOf([], legacy, c) {
      assert [] + [""] == [""];
      TargetSnoc([], "", legacy, c);
    }
  }

  function Written(a: (Component, string)): string { a.0.Name() + "=" + a.1 }

  function WrittenAll(assignments: seq<(Component, string)>): (r: seq<string>)
    ensures |r| == |assignments|
    ensures forall i :: 0 <= i < |r| ==> r[i] == Written(assignments[i])
  {
    seq(|assignments|, i requires 0 <= i < |assignments| => Written(assignments[i]))
  }

  lemma AssignmentReadsBack(a: (Component, string))
    requires Clean(a.1, ',')
    ensures Assignment(Written(a)) == Some(a) && Without(Written(a), ',')
  {
    hide Known, Component.Name;
    var name, path := a.0.Name(), a.1;
    NamesKnown(a.0);
    var pair := name + "=" + path;
    assert pair[0] == name[0] && pair[|pair| - 1] == path[|path| - 1];
    TrimSpaceKeeps(pair);
    TrimSpaceKeeps(name);
    TrimSpaceKeeps(path);
    hide TrimSpace;
    IndexOfUnique(pair, '=', |name|);
    assert pair[..|name|] == name && pair[|name| + 1..] == path;
  }

  /** Writing assignments as VPUB_BINARY_TARGETS and loading them gives every component the path
      last written for it, '=' signs and all; in particular a map is given back. */
  lemma TargetsRoundTrip(assignments: seq<(Component, string)>, legacy: string, i: nat)
    requires forall k :: 0 <= k < |assignments| ==> Clean(assignments[k].1, ',')
    requires i < |assignments| && forall k :: i < k < |assignments| ==> assignments[k].0 != assignments[i].0
    ensures TargetOf(Split(Join(WrittenAll(assignments), ','), ','), legacy, assignments[i].0) == assignments[i].1
  {
    hide Assignment, Written, Split, Join, Clean;
    var parts, c := WrittenAll(assignments), assignments[i].0;
    WrittenReadsBack(assignments);
    SplitJoin(parts, ',');
    assert forall k :: i <= k < |parts| ==> (Assigns(c)(parts[k]) <==> assignments[k].0 == c);
    LastWhereUnique(parts, Assigns(c), i);
  }

  lemma WrittenReadsBack(assignments: seq<(Component, string)>)
    requires forall k :: 0 <= k < |assignments| ==> Clean(assignments[k].1, ',')
    ensures var parts := WrittenAll(assignments);
            forall k :: 0 <= k < |parts| ==> Assignment(parts[k]) == Some(assignments[k]) && Without(parts[k], ',')
  {
    hide Assignment, Written, Clean;
    var parts := WrittenAll(assignments);
    forall k | 0 <= k < |parts|
      ensures Assignment(parts[k]) == Some(assignments[k]) && Without(parts[k], ',')
    {
      AssignmentReadsBack(assignments[k]);
    }
  }

  // ---------------------------------------------------------------- RPC endpoints

  function EnvChar(c: char): char {
    if 'a' <= c <= 'z' then 'A' + (c - 'a') else if c == '-' || c == '.' then '_' else c
  }

  function EnvKey(name: string): (r: string)
    ensures |r| == |name|
  {
    if name == "" then "" else [EnvChar(name[0])] + EnvKey(name[1..])
  }

  function UrlKey(name: string): string { "VPUB_RPC_" + EnvKey(name) + "_URL" }

  /** `key` is the variable for `name`: its letters in upper case, dashes and dots as underscores. */
  predicate IsUrlKey(key: string, name: string) {
    && |key| == |name| + 13 && key[..9] == "VPUB_RPC_" && key[|name| + 9..] == "_URL"
    && forall i :: 0 <= i < |name| ==> IsKeyChar(key[9 + i], name[i])
  }

  predicate IsKeyChar(k: char, c: char) {
    if 97 <= c as int <= 122 then k as int == c as int - 32
    else if c == '-' || c == '.' then k == '_'
    else k == c
  }

  lemma {:induction false} EnvKeyAt(name: string, i: nat)
    requires i < |name|
    ensures EnvKey(name)[i] == EnvChar(name[i])
  {
    if i > 0 {
      EnvKeyAt(name[1..], i - 1);
    }
  }

  lemma UrlKeyIff(key: string, name: string)
    ensures IsUrlKey(key, name) <==> key == UrlKey(name)
  {
    var k := UrlKey(name);
    assert k[..9] == "VPUB_RPC_" && k[9..|name| + 9] == EnvKey(name) && k[|name| + 9..] == "_URL";
    forall i, c: char | 0 <= i < |name| ensures IsKeyChar(c, name[i]) <==> c == EnvKey(name)[i] {
      EnvKeyAt(name, i);
    }
    assert forall i :: 0 <= i < |name| ==> k[9 + i] == EnvKey(name)[i];
    if IsUrlKey(key, name) {
      forall i | 0 <= i < |name| ensures key[9..|name| + 9][i] == EnvKey(name)[i] {
        assert IsKeyChar(key[9 + i], name[i]);
      }
      assert key == key[..9] + key[9..|name| + 9] + key[|name| + 9..];
      assert k == k[..9] + k[9..|name| + 9] + k[|name| + 9..];
    }
  }

  datatype Loaded = Ok(names: seq<string>, urls: map<string, string>) | MissingURL(key: string)

  /** The part of Load that collects the endpoints: the listed names, each with the value of its own
      variable. */
  method CollectEndpoints(getenv: string -> string) returns (names: seq<string>, urls: map<string, string>)
    ensures ListReads(getenv("VPUB_BRIDGE_RPC_NAMES"), ',', names)
    ensures forall n, key :: n in names && IsUrlKey(key, n) ==> n in urls && urls[n] == getenv(key)
    ensures forall n :: n in names ==> n in urls && urls[n] == getenv(UrlKey(n))
  {
    hide UrlKey, IsUrlKey, TrimSpace, ListReads, Split;
    var raw := getenv("VPUB_BRIDGE_RPC_NAMES");
    names, urls := [], map[];
    if raw == "" {
      NoItems();
    } else {
      var parts := Split(raw, ',');
      for i := 0 to |parts|
        invariant names == NonBlank(parts[..i])
        invariant forall n :: n in names ==> n in urls && urls[n] == getenv(UrlKey(n))
      {
        assert parts[..i + 1][..i] == parts[..i];
        var n := TrimSpace(parts[i]);
        if n == "" {
          continue;
        }
        names := names + [n];
        urls := urls[n := getenv(UrlKey(n))];
      }
      assert parts[..|parts|] == parts;
    }
    ListReadsIff(raw, ',', names);
    forall n, key | n in names && IsUrlKey(key, n) ensures key == UrlKey(n) {
      UrlKeyIff(key, n);
    }
  }

  lemma NoItems()
    ensures NonBlank([""]) == [] && Split("", ',') == [""] && Split("", '\n') == [""]
  {
    TrimSpaceKeeps("");
    assert NonBlank([""]) == NonBlank([]);
  }

  /** The variable for a listed name is set. */
  ghost predicate HasURL(getenv: string -> string, name: string) {
    forall key :: IsUrlKey(key, name) ==> getenv(key) != ""
  }

  /** Load and Validate as far as the endpoints go: every listed name has a URL, or loading fails on
      the first that has none. */
  method LoadEndpoints(getenv: string -> string) returns (r: Loaded)
    ensures exists names :: ListReads(getenv("VPUB_BRIDGE_RPC_NAMES"), ',', names) && LoadedAs(getenv, names, r)
  {
    hide UrlKey, IsUrlKey, HasURL, ListReads;
    var names, urls := CollectEndpoints(getenv);
    for i := 0 to |names|
      invariant forall j :: 0 <= j < i ==> HasURL(getenv, names[j])
    {
      assert names[i] in names;
      HasURLIff(getenv, names[i]);
      if urls[names[i]] == "" {
        UrlKeyIff(UrlKey(names[i]), names[i]);
        return MissingURL(UrlKey(names[i]));
      }
    }
    r := Ok(names, urls);
  }

  /** What loading comes to for these names. */
  ghost predicate LoadedAs(getenv: string -> string, names: seq<string>, r: Loaded) {
    && (r.Ok? <==> forall i :: 0 <= i < |names| ==> HasURL(getenv, names[i]))
    && (r.Ok? ==> r.names == names
                  && forall n, key :: n in names && IsUrlKey(key, n) ==> n in r.urls && r.urls[n] == getenv(key))
    && (r.MissingURL? ==> exists i :: 0 <= i < |names| && IsUrlKey(r.key, names[i]) && getenv(r.key) == ""
                                      && forall j :: 0 <= j < i ==> HasURL(getenv, names[j]))
  }

  lemma HasURLIff(getenv: string -> string, name: string)
    ensures HasURL(getenv, name) <==> getenv(UrlKey(name)) != ""
  {
    UrlKeyIff(UrlKey(name), name);
    forall key ensures IsUrlKey(key, name) <==> key == UrlKey(name) {
      UrlKeyIff(key, name);
    }
  }

  /** The jobs of a tick, given what each probe is going to answer. */
  function Jobs(names: seq<string>, urls: map<string, string>,
                answers: seq<Option<BridgeRpc.Error>>): seq<BridgeRpc.Job>
    requires |answers| == |names|
  {
    seq(|names|, i requires 0 <= i < |names| =>
      BridgeRpc.Job(names[i], if names[i] in urls then urls[names[i]] else "", answers[i]))
  }

  /** From configuration to probes: with a loaded configuration, every tick that returns has probed
      every configured name exactly once per occurrence, in every schedule. */
  lemma LoadedNamesAllProbed(names: seq<string>, urls: map<string, string>, answers: seq<Option<BridgeRpc.Error>>,
                             capacity: nat, up: map<string, int>, checks: map<(string, BridgeRpc.Status), nat>,
                             run: seq<BridgeRpc.Action>)
    requires |answers| == |names|
    requires forall n :: n in names ==> n in urls && urls[n] != ""
    requires BridgeRpc.Returns(Jobs(names, urls, answers), capacity, up, checks, run)
    ensures var jobs := Jobs(names, urls, answers);
            forall i :: 0 <= i < |names| ==>
              BridgeRpc.After(jobs, capacity, BridgeRpc.Start(jobs, up, checks), run).probed[i] == 1
  {
    var jobs := Jobs(names, urls, answers);
    BridgeRpc.TickResult(jobs, capacity, up, checks, run);
    forall i | 0 <= i < |names| ensures jobs[i].url != "" {
      assert names[i] in names;
    }
  }
}
