/** The audit half of the icon migration: byte-identical copies are folded into one canonical
    file, and every kept file gets a tier slot and a target path. */
module IconPlan {
  import opened Text
  import opened Splitting

  /** The values of one icon record. */
  datatype Icon = Icon(
    rel: string, name: string, md5: string, width: real,
    category: string, norm: string, sizeHint: int,
    tier: nat, dropped: bool, target: string, flags: set<string>)

  /** `IconFile`: a record the planner fills in step by step. */
  class IconFile {
    const rel: string
    const name: string
    const md5: string
    const width: real
    var category: string
    var norm: string
    var sizeHint: int
    var tier: nat
    var dropped: bool
    var target: string
    var flags: set<string>

    constructor (icon: Icon)
      ensures View() == icon
    {
      rel, name, md5, width := icon.rel, icon.name, icon.md5, icon.width;
      category, norm, sizeHint := icon.category, icon.norm, icon.sizeHint;
      tier, dropped, target, flags := icon.tier, icon.dropped, icon.target, icon.flags;
    }

    function View(): Icon
      reads this
    {
      Icon(rel, name, md5, width, category, norm, sizeHint, tier, dropped, target, flags)
    }

    /** The body of the loop over the copies of one group. */
    method FoldInto(canonical: IconFile)
      requires canonical != this
      modifies this
      ensures View() == Folded(old(View()), canonical.View())
    {
      dropped := true;
      if norm != canonical.norm {
        flags := flags + {"renamed"};
      }
      if category != canonical.category {
        flags := flags + {"cross-category"};
      }
      category, norm, sizeHint := canonical.category, canonical.norm, canonical.sizeHint;
    }

    method Inherit(twin: IconFile)
      modifies this
      ensures View() == old(View()).(tier := twin.View().tier, target := twin.View().target)
    {
      tier, target := twin.tier, twin.target;
    }

    /** The body of the loop over the members of one tier group. */
    method Settle(slot: Slot)
      modifies this
      ensures View() == Settled(old(View()), slot)
    {
      if slot.conflict {
        flags := flags + {CONFLICT};
      }
      tier := slot.tier;
      target := TargetPath(category, tier, norm);
    }
  }

  const CATEGORY_PRIORITY :=
    ["widgets", "window", "editor", "devices", "panes", "console", "database", "code", "licensing",
     "notifications", "commands"]

  const TIERS: seq<nat> := [16, 24, 32, 48]
  const CONFLICT := "tier-conflict"

  function IndexIn(c: string, names: seq<string>): nat {
    if names == [] || names[0] == c then 0 else 1 + IndexIn(c, names[1..])
  }

  function Top(rel: string): string {
    Split(rel, '/')[0]
  }

  function TierForWidth(width: real): nat {
    if width <= 17.0 then 16 else if width <= 25.5 then 24 else if width <= 42.0 then 32 else 48
  }

  // ----- dedupe -----

  /** The sort key of a duplicate group: category priority, name length, path. */
  predicate Precedes(a: Icon, b: Icon) {
    var pa, pb := IndexIn(a.category, CATEGORY_PRIORITY), IndexIn(b.category, CATEGORY_PRIORITY);
    pa < pb || (pa == pb && (|a.name| < |b.name| || (|a.name| == |b.name| && Less(a.rel, b.rel))))
  }

  /** The first member, in sort order, of the group of `md5` among the first `n` icons. */
  function Canonical(icons: seq<Icon>, md5: string, n: nat): (c: Option<nat>)
    requires n <= |icons|
    ensures c.Some? ==> c.value < n && icons[c.value].md5 == md5
    ensures c.None? ==> forall k :: 0 <= k < n ==> icons[k].md5 != md5
  {
    if n == 0 then None
    else
      var c := Canonical(icons, md5, n - 1);
      if icons[n - 1].md5 != md5 then c
      else if c.Some? && !Precedes(icons[n - 1], icons[c.value]) then c
      else Some(n - 1)
  }

  function CanonicalOf(icons: seq<Icon>, i: nat): (c: nat)
    requires i < |icons|
    ensures c < |icons| && icons[c].md5 == icons[i].md5
  {
    Canonical(icons, icons[i].md5, |icons|).value
  }

  /** A copy takes category, name and size hint of its canonical file. */
  function Folded(icon: Icon, canonical: Icon): Icon {
    icon.(dropped := true,
          flags := icon.flags
                   + (if icon.norm != canonical.norm then {"renamed"} else {})
                   + (if icon.category != canonical.category then {"cross-category"} else {}),
          category := canonical.category, norm := canonical.norm, sizeHint := canonical.sizeHint)
  }

  function Deduped(icons: seq<Icon>, i: nat): Icon
    requires i < |icons|
  {
    var c := CanonicalOf(icons, i);
    if c == i then icons[i] else Folded(icons[i], icons[c])
  }

  ghost predicate DistinctObjects(files: seq<IconFile>) {
    forall i, j :: 0 <= i < j < |files| ==> files[i] != files[j]
  }

  function Views(files: seq<IconFile>): (icons: seq<Icon>)
    reads files
    ensures |icons| == |files| && forall i :: 0 <= i < |files| ==> icons[i] == files[i].View()
  {
    seq(|files|, i requires 0 <= i < |files| reads files => files[i].View())
  }

  /** Whose group an icon belongs to, and what folding makes of it. */
  ghost predicate FoldedUpTo(files: seq<IconFile>, icons: seq<Icon>, before: seq<Icon>, md5: string, n: nat)
    requires |icons| == |files| == |before|
    reads files
  {
    forall j :: 0 <= j < |files| ==>
      files[j].View() == if j < n && icons[j].md5 == md5 then Deduped(icons, j) else before[j]
  }

  method FindCanonical(files: seq<IconFile>, md5: string, ghost icons: seq<Icon>) returns (c: Option<nat>)
    requires |icons| == |files|
    requires forall j :: 0 <= j < |files| ==> files[j].md5 == icons[j].md5
    requires forall j :: 0 <= j < |files| && files[j].md5 == md5 ==> files[j].View() == icons[j]
    ensures c == Canonical(icons, md5, |icons|)
  {
    hide Precedes;
    c := None;
    for i := 0 to |files|
      invariant c == Canonical(icons, md5, i)
    {
      if files[i].md5 == md5 {
        if c.None? || Precedes(files[i].View(), files[c.value].View()) {
          c := Some(i);
        }
      }
    }
  }

  /** Folds every copy in the group of `md5` into its canonical file. */
  method FoldGroup(files: seq<IconFile>, md5: string, ghost icons: seq<Icon>)
    requires DistinctObjects(files) && |icons| == |files|
    requires forall j :: 0 <= j < |files| && files[j].md5 == md5 ==> files[j].View() == icons[j]
    requires forall j :: 0 <= j < |files| ==> files[j].md5 == icons[j].md5
    modifies files
    ensures FoldedUpTo(files, icons, old(Views(files)), md5, |files|)
  {
    hide Precedes, Canonical, Folded;
    var c := FindCanonical(files, md5, icons);
    ghost var before := Views(files);
    for i := 0 to |files|
      invariant FoldedUpTo(files, icons, before, md5, i)
    {
      if files[i].md5 == md5 {
        assert c.Some? && c.value == CanonicalOf(icons, i);
        if i != c.value {
          assert files[c.value].View() == icons[c.value] by {
            assert CanonicalOf(icons, c.value) == c.value;
          }
          files[i].FoldInto(files[c.value]);
        }
      }
    }
  }

  method Dedupe(files: seq<IconFile>)
    requires DistinctObjects(files)
    modifies files
    ensures forall j :: 0 <= j < |files| ==> files[j].View() == Deduped(old(Views(files)), j)
  {
    hide Deduped;
    ghost var icons := Views(files);
    var left := set i | 0 <= i < |files| :: files[i].md5;
    while left != {}
      invariant left <= set i | 0 <= i < |files| :: files[i].md5
      invariant forall j :: 0 <= j < |files| ==>
                  files[j].View() == if files[j].md5 in left then icons[j] else Deduped(icons, j)
      decreases left
    {
      var md5 :| md5 in left;
      FoldGroup(files, md5, icons);
      left := left - {md5};
    }
  }

  // ----- assign_tiers -----

  /** A tier and whether the icon could not get a slot of its own. */
  datatype Slot = Slot(tier: nat, conflict: bool)

  function NaturalTier(icon: Icon): nat {
    var byFolder :=
      if Top(icon.rel) == "dashboard-small" then 16
      else if Top(icon.rel) == "dashboard-large" then 32
      else TierForWidth(icon.width);
    if icon.sizeHint < 0 && 16 < byFolder then 16 else byFolder
  }

  /** The first tier above `tier` that is not taken. */
  function NextFree(tier: nat, taken: set<nat>, tiers: seq<nat>): (r: Option<nat>)
    ensures r.Some? ==> r.value in tiers && r.value > tier && r.value !in taken
  {
    if tiers == [] then None
    else if tiers[0] !in taken && tiers[0] > tier then Some(tiers[0])
    else NextFree(tier, taken, tiers[1..])
  }

  function Abs(x: real): real { if x < 0.0 then -x else x }

  function Place(icon: Icon, taken: set<nat>): (slot: Slot)
    ensures !slot.conflict ==> slot.tier !in taken
    ensures slot.tier in TIERS
    ensures slot.tier == NaturalTier(icon) || NaturalTier(icon) in taken
  {
    var tier := NaturalTier(icon);
    if tier !in taken then Slot(tier, false)
    else
      var free := NextFree(tier, taken, TIERS);
      if free.Some? && Abs(free.value as real - icon.width) <= free.value as real then Slot(free.value, false)
      else Slot(tier, true)
  }

  /** The order inside a group: width, size hint, path. */
  predicate Narrower(a: Icon, b: Icon) {
    a.width < b.width || (a.width == b.width &&
      (a.sizeHint < b.sizeHint || (a.sizeHint == b.sizeHint && Less(a.rel, b.rel))))
  }

  predicate Indices(members: seq<nat>, n: nat) {
    forall k :: 0 <= k < |members| ==> members[k] < n
  }

  predicate Distinct(members: seq<nat>) {
    forall k, l :: 0 <= k < l < |members| ==> members[k] != members[l]
  }

  /** Stable insertion: in front of the first member that is not narrower. */
  function InsertMember(icons: seq<Icon>, i: nat, members: seq<nat>): (out: seq<nat>)
    requires i < |icons| && Indices(members, |icons|)
    ensures Indices(out, |icons|)
  {
    if members == [] || !Narrower(icons[members[0]], icons[i]) then [i] + members
    else [members[0]] + InsertMember(icons, i, members[1..])
  }

  type Key = (string, string)

  function KeyOf(icon: Icon): Key { (icon.category, icon.norm) }

  predicate InGroup(icon: Icon, key: Key) {
    !icon.dropped && KeyOf(icon) == key
  }

  /** The kept members of a group from index `from` on, sorted. */
  function Members(icons: seq<Icon>, key: Key, from: nat): (members: seq<nat>)
    requires from <= |icons|
    ensures Indices(members, |icons|)
    decreases |icons| - from
  {
    if from == |icons| then []
    else if InGroup(icons[from], key) then InsertMember(icons, from, Members(icons, key, from + 1))
    else Members(icons, key, from + 1)
  }

  lemma {:induction false} InsertedAre(icons: seq<Icon>, i: nat, members: seq<nat>)
    requires i < |icons| && i !in members && Indices(members, |icons|) && Distinct(members)
    ensures forall x: nat :: x in InsertMember(icons, i, members) <==> x == i || x in members
    ensures Distinct(InsertMember(icons, i, members))
  {
    hide Narrower;
    if members != [] && Narrower(icons[members[0]], icons[i]) {
      var rest := InsertMember(icons, i, members[1..]);
      InsertedAre(icons, i, members[1..]);
      assert members == [members[0]] + members[1..];
      assert members[0] !in rest;
      assert Distinct([members[0]] + rest);
    } else {
      assert Distinct([i] + members);
    }
  }

  lemma {:induction false} MembersAre(icons: seq<Icon>, key: Key, from: nat)
    requires from <= |icons|
    ensures Distinct(Members(icons, key, from))
    ensures forall x: nat :: x in Members(icons, key, from) <==> from <= x < |icons| && InGroup(icons[x], key)
    decreases |icons| - from
  {
    hide InsertMember, InGroup;
    if from < |icons| {
      MembersAre(icons, key, from + 1);
      if InGroup(icons[from], key) {
        InsertedAre(icons, from, Members(icons, key, from + 1));
      }
    }
  }

  /** The tiers taken by the first `k` members. */
  function Taken(icons: seq<Icon>, members: seq<nat>, k: nat): set<nat>
    requires Indices(members, |icons|) && k <= |members|
  {
    if k == 0 then {}
    else
      var taken := Taken(icons, members, k - 1);
      var icon := icons[members[k - 1]];
      var slot := Place(icon, taken);
      if CONFLICT in Settled(icon, slot).flags then taken else taken + {slot.tier}
  }

  function SlotAt(icons: seq<Icon>, members: seq<nat>, k: nat): Slot
    requires Indices(members, |icons|) && k < |members|
  {
    Place(icons[members[k]], Taken(icons, members, k))
  }

  function Position(members: seq<nat>, i: nat): (k: nat)
    requires i in members
    ensures k < |members| && members[k] == i
  {
    if members[0] == i then 0 else 1 + Position(members[1..], i)
  }

  /** The slot of a kept icon. */
  function SlotOf(icons: seq<Icon>, i: nat): Slot
    requires i < |icons| && !icons[i].dropped
  {
    MembersAre(icons, KeyOf(icons[i]), 0);
    var members := Members(icons, KeyOf(icons[i]), 0);
    SlotAt(icons, members, Position(members, i))
  }

  function TierName(tier: nat): string {
    if tier == 16 then "16" else if tier == 24 then "24" else if tier == 32 then "32" else "48"
  }

  /** `f"{category}/{tier}/{norm}.svg"` */
  function TargetPath(category: string, tier: nat, norm: string): string {
    category + ['/'] + (TierName(tier) + ['/'] + (norm + ".svg"))
  }

  function Settled(icon: Icon, slot: Slot): Icon {
    icon.(tier := slot.tier,
          flags := if slot.conflict then icon.flags + {CONFLICT} else icon.flags,
          target := TargetPath(icon.category, slot.tier, icon.norm))
  }

  /** The first kept file with these bytes. */
  function Twin(icons: seq<Icon>, md5: string, from: nat): (t: Option<nat>)
    requires from <= |icons|
    ensures t.Some? ==> from <= t.value < |icons| && !icons[t.value].dropped && icons[t.value].md5 == md5
    ensures t.None? ==> forall k :: from <= k < |icons| ==> icons[k].dropped || icons[k].md5 != md5
    decreases |icons| - from
  {
    if from == |icons| then None
    else if !icons[from].dropped && icons[from].md5 == md5 then Some(from)
    else Twin(icons, md5, from + 1)
  }

  /** Every dropped file has a kept one with its bytes. */
  ghost predicate HaveTwins(icons: seq<Icon>) {
    forall i :: 0 <= i < |icons| && icons[i].dropped ==> Twin(icons, icons[i].md5, 0).Some?
  }

  /** An icon after `assign_tiers`. */
  ghost function Assigned(icons: seq<Icon>, i: nat): Icon
    requires i < |icons| && HaveTwins(icons)
  {
    if !icons[i].dropped then Settled(icons[i], SlotOf(icons, i))
    else
      var t := Twin(icons, icons[i].md5, 0).value;
      var twin := Settled(icons[t], SlotOf(icons, t));
      icons[i].(tier := twin.tier, target := twin.target)
  }

  /** The first `n` members have their slots, the others and the outsiders are as before. */
  ghost predicate PlacedUpTo(files: seq<IconFile>, icons: seq<Icon>, before: seq<Icon>, members: seq<nat>, n: nat)
    requires |icons| == |files| == |before| && Indices(members, |icons|) && n <= |members|
    reads files
  {
    && (forall k :: 0 <= k < |members| ==>
          files[members[k]].View()
          == if k < n then Settled(icons[members[k]], SlotAt(icons, members, k)) else icons[members[k]])
    && (forall j: nat :: j < |files| && j !in members ==> files[j].View() == before[j])
  }

  lemma {:induction false} NothingTaken(icons: seq<Icon>, members: seq<nat>)
    requires Indices(members, |icons|)
    ensures Taken(icons, members, 0) == {}
  {
  }

  lemma {:induction false} TakenStep(icons: seq<Icon>, members: seq<nat>, k: nat)
    requires Indices(members, |icons|) && k < |members|
    ensures var taken, slot := Taken(icons, members, k), SlotAt(icons, members, k);
            Taken(icons, members, k + 1)
            == if CONFLICT in Settled(icons[members[k]], slot).flags then taken else taken + {slot.tier}
    ensures SlotAt(icons, members, k) == Place(icons[members[k]], Taken(icons, members, k))
  {
    hide Place, Settled;
  }

  /** One group: its members in order, each taking a slot. */
  method PlaceGroup(files: seq<IconFile>, members: seq<nat>, icons: seq<Icon>)
    requires DistinctObjects(files) && |icons| == |files|
    requires Indices(members, |icons|) && Distinct(members)
    requires forall k :: 0 <= k < |members| ==> files[members[k]].View() == icons[members[k]]
    modifies files
    ensures PlacedUpTo(files, icons, old(Views(files)), members, |members|)
  {
    hide Place, Settled, Taken, SlotAt;
    ghost var before := Views(files);
    var taken: set<nat> := {};
    NothingTaken(icons, members);
    for k := 0 to |members|
      invariant taken == Taken(icons, members, k)
      invariant PlacedUpTo(files, icons, before, members, k)
    {
      TakenStep(icons, members, k);
      var icon := files[members[k]];
      var slot := Place(icons[members[k]], taken);
      icon.Settle(slot);
      if CONFLICT !in icon.View().flags {
        taken := taken + {slot.tier};
      }
    }
  }

  lemma {:induction false} SlotOfMember(icons: seq<Icon>, i: nat, k: nat)
    requires i < |icons| && !icons[i].dropped
    requires k < |Members(icons, KeyOf(icons[i]), 0)| && Members(icons, KeyOf(icons[i]), 0)[k] == i
    ensures SlotOf(icons, i) == SlotAt(icons, Members(icons, KeyOf(icons[i]), 0), k)
  {
    MembersAre(icons, KeyOf(icons[i]), 0);
  }

  /** An icon once the groups outside `left` have their slots. */
  ghost function Grouped(icons: seq<Icon>, left: set<Key>, j: nat): Icon
    requires j < |icons|
  {
    if icons[j].dropped || KeyOf(icons[j]) in left then icons[j] else Settled(icons[j], SlotOf(icons, j))
  }

  ghost predicate GroupedUpTo(files: seq<IconFile>, icons: seq<Icon>, left: set<Key>)
    requires |icons| == |files|
    reads files
  {
    forall j :: 0 <= j < |files| ==> files[j].View() == Grouped(icons, left, j)
  }

  /** One more group done. */
  method PlaceKey(files: seq<IconFile>, icons: seq<Icon>, key: Key, ghost left: set<Key>)
    requires DistinctObjects(files) && |icons| == |files|
    requires key in left && GroupedUpTo(files, icons, left)
    modifies files
    ensures GroupedUpTo(files, icons, left - {key})
  {
    hide SlotAt, SlotOf, Settled, Members, InsertMember, KeyOf;
    ghost var before := Views(files);
    var members := Members(icons, key, 0);
    MembersAre(icons, key, 0);
    assert forall k :: 0 <= k < |members| ==> InGroup(icons[members[k]], key);
    PlaceGroup(files, members, icons);
    forall j: nat | j < |files|
      ensures files[j].View() == Grouped(icons, left - {key}, j)
    {
      if InGroup(icons[j], key) {
        assert j in members;
        var k := Position(members, j);
        SlotOfMember(icons, j, k);
      } else {
        assert files[j].View() == before[j];
      }
    }
  }

  /** The slot of every kept file. */
  method PlaceAll(files: seq<IconFile>, icons: seq<Icon>)
    requires DistinctObjects(files) && icons == Views(files)
    modifies files
    ensures GroupedUpTo(files, icons, {})
  {
    hide SlotOf, Settled;
    var left := set i | 0 <= i < |icons| :: KeyOf(icons[i]);
    while left != {}
      invariant GroupedUpTo(files, icons, left)
      decreases left
    {
      var key :| key in left;
      PlaceKey(files, icons, key, left);
      left := left - {key};
    }
  }

  method AssignTiers(files: seq<IconFile>)
    requires DistinctObjects(files) && HaveTwins(Views(files))
    modifies files
    ensures forall j :: 0 <= j < |files| ==> files[j].View() == Assigned(old(Views(files)), j)
  {
    hide SlotOf, TargetPath;
    var icons := Views(files);
    PlaceAll(files, icons);
    for i := 0 to |files|
      invariant forall j :: 0 <= j < |files| ==>
                  files[j].View() == if j < i || !icons[j].dropped then Assigned(icons, j) else icons[j]
    {
      if files[i].dropped {
        var t := Twin(icons, icons[i].md5, 0).value;
        assert files[i].View() == icons[i] && files[t].View() == Assigned(icons, t);
        files[i].Inherit(files[t]);
        assert files[i].View() == Assigned(icons, i);
      }
    }
  }

  // ----- What the plan promises -----

  ghost function DedupedAll(icons: seq<Icon>): (d: seq<Icon>)
    ensures |d| == |icons| && forall i :: 0 <= i < |d| ==> d[i] == Deduped(icons, i)
  {
    seq(|icons|, i requires 0 <= i < |icons| => Deduped(icons, i))
  }

  /** Of each set of identical files exactly one is kept: their canonical file. */
  lemma {:induction false} OneKeptPerContent(icons: seq<Icon>, i: nat, j: nat)
    requires i < |icons| && j < |icons|
    requires forall k :: 0 <= k < |icons| ==> !icons[k].dropped
    ensures var d := DedupedAll(icons);
            !d[j].dropped && d[j].md5 == d[i].md5 <==> j == CanonicalOf(icons, i)
    ensures HaveTwins(DedupedAll(icons))
    ensures Twin(DedupedAll(icons), icons[i].md5, 0) == Some(CanonicalOf(icons, i))
  {
    hide Canonical, Precedes;
    var d := DedupedAll(icons);
    forall k | 0 <= k < |icons|
      ensures Twin(d, d[k].md5, 0).Some?
    {
      var c := CanonicalOf(icons, k);
      assert CanonicalOf(icons, c) == c && d[c] == icons[c];
    }
  }

  lemma {:induction false} TakenGrows(icons: seq<Icon>, members: seq<nat>, j: nat, k: nat)
    requires Indices(members, |icons|) && j <= k <= |members|
    ensures Taken(icons, members, j) <= Taken(icons, members, k)
    decreases k
  {
    hide Taken, Place, Settled;
    if j < k {
      TakenGrows(icons, members, j, k - 1);
      TakenStep(icons, members, k - 1);
    }
  }

  lemma {:induction false} ConflictIsFlagged(icon: Icon, slot: Slot)
    ensures slot.conflict ==> CONFLICT in Settled(icon, slot).flags
  {
  }

  /** No two unflagged members of a group share a tier. */
  lemma {:induction false} SlotsDiffer(icons: seq<Icon>, members: seq<nat>, j: nat, k: nat)
    requires Indices(members, |icons|) && j < k < |members|
    requires CONFLICT !in Settled(icons[members[j]], SlotAt(icons, members, j)).flags
    requires CONFLICT !in Settled(icons[members[k]], SlotAt(icons, members, k)).flags
    ensures SlotAt(icons, members, j).tier != SlotAt(icons, members, k).tier
  {
    hide Place, Settled, Taken;
    TakenStep(icons, members, j);
    TakenGrows(icons, members, j + 1, k);
    if SlotAt(icons, members, k).conflict {
      ConflictIsFlagged(icons[members[k]], SlotAt(icons, members, k));
    }
  }

  lemma {:induction false} PathsInject(a: string, x: string, b: string, y: string)
    requires '/' !in a && '/' !in b && a + ['/'] + x == b + ['/'] + y
    ensures a == b && x == y
  {
    var s, t := a + ['/'] + x, b + ['/'] + y;
    assert s[|a|] == '/' && t[|b|] == '/';
    assert |a| == |b|;
    assert a == s[..|a|] && b == t[..|b|];
    assert x == s[|a| + 1..] && y == t[|b| + 1..];
  }

  lemma {:induction false} TargetsInject(c: string, s: nat, n: string, d: string, t: nat, m: string)
    requires '/' !in c && '/' !in d && s in TIERS && t in TIERS
    requires TargetPath(c, s, n) == TargetPath(d, t, m)
    ensures c == d && s == t && n == m
  {
    var x, y := TierName(s) + ['/'] + (n + ".svg"), TierName(t) + ['/'] + (m + ".svg");
    PathsInject(c, x, d, y);
    assert |TierName(s)| == 2 && |TierName(t)| == 2;
    assert TierName(s) == x[..2] && TierName(t) == y[..2];
    assert n + ".svg" == x[3..] && m + ".svg" == y[3..];
    assert n == (n + ".svg")[..|n|] && m == (m + ".svg")[..|m|];
  }

  /** Kept files that were not flagged for review get distinct target paths. */
  lemma {:induction false} TargetsDiffer(icons: seq<Icon>, i: nat, j: nat)
    requires HaveTwins(icons) && i < |icons| && j < |icons| && i != j
    requires '/' !in icons[i].category && '/' !in icons[j].category
    requires !icons[i].dropped && !icons[j].dropped
    requires CONFLICT !in Assigned(icons, i).flags && CONFLICT !in Assigned(icons, j).flags
    ensures Assigned(icons, i).target != Assigned(icons, j).target
  {
    hide Place, TargetPath, Members, SlotAt, Taken;
    var a, b := icons[i], icons[j];
    var s, t := SlotOf(icons, i), SlotOf(icons, j);
    SlotTier(icons, i);
    SlotTier(icons, j);
    if Assigned(icons, i).target == Assigned(icons, j).target {
      TargetsInject(a.category, s.tier, a.norm, b.category, t.tier, b.norm);
      var members := Members(icons, KeyOf(a), 0);
      MembersAre(icons, KeyOf(a), 0);
      var k, l := Position(members, i), Position(members, j);
      if k < l {
        SlotsDiffer(icons, members, k, l);
      } else {
        SlotsDiffer(icons, members, l, k);
      }
    }
  }

  lemma {:induction false} SlotTier(icons: seq<Icon>, i: nat)
    requires i < |icons| && !icons[i].dropped
    ensures SlotOf(icons, i).tier in TIERS
  {
    hide Place, Taken;
    MembersAre(icons, KeyOf(icons[i]), 0);
  }
}
