/** What the icon plan decides, in terms of the files alone: which copy is kept, in what order a group takes its slots,
    which slot a file gets, and when a group gets all its slots without a conflict. */
module IconRules {
  import opened Text
  import opened IconPlan

  // ----- The canonical file -----

  /** The category of `a` stands in front of that of `b` in the list of priorities. */
  ghost predicate Outranks(a: Icon, b: Icon) {
    ListedFirst(a.category, b.category, CATEGORY_PRIORITY)
  }

  ghost predicate ListedFirst(c: string, d: string, names: seq<string>) {
    exists k :: 0 <= k < |names| && names[k] == c && d !in names[..k + 1]
  }

  ghost predicate SortsFirst(a: string, b: string) {
    exists k :: DiffersAt(a, b, k)
  }

  /** File `j` is the better home: a better category; in the same one a shorter name; then the path that sorts first;
      then the earlier file. */
  ghost predicate BetterHome(icons: seq<Icon>, j: nat, c: nat)
    requires j < |icons| && c < |icons|
  {
    var a, b := icons[j], icons[c];
    Outranks(a, b) ||
    (!Outranks(b, a) &&
      (|a.name| < |b.name| ||
      (|a.name| == |b.name| && (SortsFirst(a.rel, b.rel) || (a.rel == b.rel && j < c)))))
  }

  /** No file with the same bytes is a better home. */
  ghost predicate IsHome(icons: seq<Icon>, c: nat, md5: string) {
    && c < |icons| && icons[c].md5 == md5
    && forall j: nat :: j < |icons| && icons[j].md5 == md5 ==> !BetterHome(icons, j, c)
  }

  lemma {:induction false} IndexIs(c: string, names: seq<string>, k: nat)
    requires k < |names|
    ensures IndexIn(c, names) <= k <==> c in names[..k + 1]
    decreases k
  {
    if names[0] == c {
      assert names[..k + 1][0] == c;
    } else if k > 0 {
      IndexIs(c, names[1..], k - 1);
      assert names[..k + 1] == [names[0]] + names[1..][..k];
    } else {
      assert names[..1] == [names[0]];
    }
  }

  lemma {:induction false} IndexHit(c: string, names: seq<string>)
    ensures IndexIn(c, names) <= |names|
    ensures IndexIn(c, names) < |names| ==> names[IndexIn(c, names)] == c
  {
    if names != [] && names[0] != c { IndexHit(c, names[1..]); }
  }

  lemma {:induction false} OutranksIs(a: Icon, b: Icon)
    ensures Outranks(a, b) <==> IndexIn(a.category, CATEGORY_PRIORITY) < IndexIn(b.category, CATEGORY_PRIORITY)
  {
    RankIs(a.category, b.category, CATEGORY_PRIORITY);
  }

  lemma {:induction false} RankIs(c: string, d: string, names: seq<string>)
    ensures IndexIn(c, names) < IndexIn(d, names)
            <==> ListedFirst(c, d, names)
  {
    var n := IndexIn(c, names);
    IndexHit(c, names);
    IndexHit(d, names);
    if n < IndexIn(d, names) {
      IndexIs(d, names, n);
      assert names[n] == c && d !in names[..n + 1];
    }
    if k :| 0 <= k < |names| && names[k] == c && d !in names[..k + 1] {
      IndexIs(d, names, k);
      assert c == names[..k + 1][k];
      IndexIs(c, names, k);
    }
  }

  /** The order of homes, with ties broken by place. */
  predicate Beats(icons: seq<Icon>, j: nat, c: nat)
    requires j < |icons| && c < |icons|
  {
    Precedes(icons[j], icons[c]) || (!Precedes(icons[c], icons[j]) && j < c)
  }

  lemma {:induction false} BetterIs(icons: seq<Icon>, j: nat, c: nat)
    requires j < |icons| && c < |icons|
    ensures BetterHome(icons, j, c) <==> Beats(icons, j, c)
  {
    hide Outranks, IndexIn, Less, DiffersAt;
    var a, b := icons[j], icons[c];
    OutranksIs(a, b);
    OutranksIs(b, a);
    LessExactly(a.rel, b.rel);
    LessExactly(b.rel, a.rel);
    LessTrichotomy(a.rel, b.rel);
  }

  lemma {:induction false} BeatsIsOrder(icons: seq<Icon>, a: nat, b: nat, c: nat)
    requires a < |icons| && b < |icons| && c < |icons|
    ensures Beats(icons, a, b) && Beats(icons, b, c) ==> Beats(icons, a, c)
    ensures a != b ==> (Beats(icons, a, b) <==> !Beats(icons, b, a))
    ensures !Beats(icons, a, a)
  {
    hide IndexIn, Less;
    LessTrichotomy(icons[a].rel, icons[a].rel);
    LessTrichotomy(icons[a].rel, icons[b].rel);
    LessTrichotomy(icons[b].rel, icons[c].rel);
    LessTrichotomy(icons[a].rel, icons[c].rel);
    if Less(icons[a].rel, icons[b].rel) && Less(icons[b].rel, icons[c].rel) {
      LessTransitive(icons[a].rel, icons[b].rel, icons[c].rel);
    }
  }

  lemma {:induction false} CanonicalUnbeaten(icons: seq<Icon>, md5: string, n: nat, j: nat)
    requires j < n <= |icons| && icons[j].md5 == md5
    ensures var c := Canonical(icons, md5, n); c.Some? && !Beats(icons, j, c.value)
    decreases n
  {
    hide Precedes, Beats;
    var c := Canonical(icons, md5, n - 1);
    if j < n - 1 {
      CanonicalUnbeaten(icons, md5, n - 1, j);
      LaterBeats(icons, n - 1, c.value);
      BeatsIsOrder(icons, j, n - 1, c.value);
      BeatsIsOrder(icons, n - 1, c.value, j);
    } else {
      BeatsIsOrder(icons, j, j, j);
      if c.Some? {
        LaterBeats(icons, j, c.value);
        BeatsIsOrder(icons, j, c.value, j);
      }
    }
  }

  lemma {:induction false} LaterBeats(icons: seq<Icon>, j: nat, c: nat)
    requires c < j < |icons|
    ensures Beats(icons, j, c) <==> Precedes(icons[j], icons[c])
  {
  }

  /** The kept copy of some bytes is the one home that no other copy betters. */
  lemma {:induction false} HomeExactly(icons: seq<Icon>, i: nat, c: nat)
    requires i < |icons|
    ensures c == CanonicalOf(icons, i) <==> IsHome(icons, c, icons[i].md5)
  {
    hide Canonical, BetterHome, Beats;
    var md5, home := icons[i].md5, CanonicalOf(icons, i);
    forall j: nat | j < |icons| && icons[j].md5 == md5
      ensures !BetterHome(icons, j, home)
    {
      CanonicalUnbeaten(icons, md5, |icons|, j);
      BetterIs(icons, j, home);
    }
    if IsHome(icons, c, md5) {
      BetterIs(icons, home, c);
      BetterIs(icons, c, home);
      BeatsIsOrder(icons, home, c, c);
    }
  }

  /** What becomes of a copy: it is dropped, takes over the category, name and size hint of its home, and is flagged
      for each of the first two that changes. */
  ghost predicate IsCopyOf(icon: Icon, home: Icon, copy: Icon) {
    && copy.dropped
    && copy.category == home.category && copy.norm == home.norm && copy.sizeHint == home.sizeHint
    && copy.rel == icon.rel && copy.name == icon.name && copy.md5 == icon.md5 && copy.width == icon.width
    && copy.tier == icon.tier && copy.target == icon.target
    && forall f :: f in copy.flags <==>
         || f in icon.flags
         || (f == "renamed" && icon.norm != home.norm)
         || (f == "cross-category" && icon.category != home.category)
  }

  lemma {:induction false} DedupedExactly(icons: seq<Icon>, i: nat, c: nat)
    requires i < |icons| && c < |icons| && IsHome(icons, c, icons[i].md5)
    ensures if c == i then Deduped(icons, i) == icons[i] else IsCopyOf(icons[i], icons[c], Deduped(icons, i))
  {
    hide IsHome, Canonical;
    HomeExactly(icons, i, c);
  }

  // ----- The order in a group -----

  /** File `a` takes its slot in front of `b`: narrower, then the smaller size hint, then the path that sorts first,
      then the earlier file. */
  ghost predicate GoesFirst(icons: seq<Icon>, a: nat, b: nat)
    requires a < |icons| && b < |icons|
  {
    var x, y := icons[a], icons[b];
    || x.width < y.width
    || (x.width == y.width && x.sizeHint < y.sizeHint)
    || (x.width == y.width && x.sizeHint == y.sizeHint && SortsFirst(x.rel, y.rel))
    || (x.width == y.width && x.sizeHint == y.sizeHint && x.rel == y.rel && a < b)
  }

  ghost predicate InLine(icons: seq<Icon>, members: seq<nat>) {
    && Indices(members, |icons|)
    && forall k, l :: 0 <= k < l < |members| ==> GoesFirst(icons, members[k], members[l])
  }

  /** The kept files of a group from index `from` on, each once, in that order. */
  ghost predicate IsQueue(icons: seq<Icon>, key: Key, from: nat, members: seq<nat>) {
    && InLine(icons, members)
    && (forall x: nat :: x in members <==> from <= x < |icons| && InGroup(icons[x], key))
  }

  lemma {:induction false} GoesFirstIs(icons: seq<Icon>, a: nat, b: nat)
    requires a < |icons| && b < |icons|
    ensures GoesFirst(icons, a, b)
            <==> Narrower(icons[a], icons[b]) || (!Narrower(icons[b], icons[a]) && a < b)
  {
    hide Less, DiffersAt;
    LessExactly(icons[a].rel, icons[b].rel);
    LessExactly(icons[b].rel, icons[a].rel);
    LessTrichotomy(icons[a].rel, icons[b].rel);
  }

  lemma {:induction false} GoesFirstIsOrder(icons: seq<Icon>, a: nat, b: nat, c: nat)
    requires a < |icons| && b < |icons| && c < |icons|
    ensures GoesFirst(icons, a, b) && GoesFirst(icons, b, c) ==> GoesFirst(icons, a, c)
    ensures a != b ==> (GoesFirst(icons, a, b) <==> !GoesFirst(icons, b, a))
    ensures !GoesFirst(icons, a, a)
  {
    hide Less, DiffersAt;
    var x, y, z := icons[a].rel, icons[b].rel, icons[c].rel;
    LessExactly(x, y);
    LessExactly(y, x);
    LessExactly(y, z);
    LessExactly(x, z);
    LessExactly(x, x);
    LessTrichotomy(x, x);
    LessTrichotomy(x, y);
    if Less(x, y) && Less(y, z) {
      LessTransitive(x, y, z);
    }
  }

  lemma {:induction false} InLineCons(icons: seq<Icon>, x: nat, rest: seq<nat>)
    requires x < |icons| && InLine(icons, rest)
    requires forall y :: y in rest ==> y < |icons| && GoesFirst(icons, x, y)
    ensures InLine(icons, [x] + rest)
  {
    hide GoesFirst;
    var out := [x] + rest;
    forall k, l | 0 <= k < l < |out|
      ensures GoesFirst(icons, out[k], out[l])
    {
      assert out[l] == rest[l - 1];
      if k > 0 { assert out[k] == rest[k - 1]; }
    }
  }

  lemma {:induction false} InLineTail(icons: seq<Icon>, members: seq<nat>)
    requires InLine(icons, members) && members != []
    ensures InLine(icons, members[1..])
    ensures forall y :: y in members[1..] ==> y < |icons| && GoesFirst(icons, members[0], y)
    ensures forall y :: y in members <==> y == members[0] || y in members[1..]
    ensures Distinct(members)
  {
    hide GoesFirst;
    assert members == [members[0]] + members[1..];
    forall y | y in members[1..]
      ensures y < |icons| && GoesFirst(icons, members[0], y)
    {
      var l :| 0 <= l < |members[1..]| && members[1..][l] == y;
      assert members[l + 1] == y;
    }
    forall k, l | 0 <= k < l < |members|
      ensures members[k] != members[l]
    {
      GoesFirstIsOrder(icons, members[k], members[k], members[k]);
    }
  }

  lemma {:induction false} InsertKeepsLine(icons: seq<Icon>, i: nat, members: seq<nat>)
    requires i < |icons| && InLine(icons, members)
    requires forall y :: y in members ==> i < y
    ensures InLine(icons, InsertMember(icons, i, members))
    ensures forall x: nat :: x in InsertMember(icons, i, members) <==> x == i || x in members
  {
    hide GoesFirst, Narrower, InLine, InsertMember;
    if members == [] {
      InsertFront(icons, i, members);
      InLineCons(icons, i, members);
    } else {
      InLineTail(icons, members);
      InsertFront(icons, i, members);
      var first, rest := members[0], members[1..];
      GoesFirstIs(icons, first, i);
      GoesFirstIsOrder(icons, i, first, i);
      if Narrower(icons[first], icons[i]) {
        InsertKeepsLine(icons, i, rest);
        InLineCons(icons, first, InsertMember(icons, i, rest));
      } else {
        assert first in members;
        forall y | y in members
          ensures GoesFirst(icons, i, y)
        {
          GoesFirstIsOrder(icons, i, first, y);
        }
        InLineCons(icons, i, members);
      }
    }
  }

  lemma {:induction false} InsertFront(icons: seq<Icon>, i: nat, members: seq<nat>)
    requires i < |icons| && InLine(icons, members)
    ensures InsertMember(icons, i, members) ==
            if members == [] || !Narrower(icons[members[0]], icons[i]) then [i] + members
            else [members[0]] + InsertMember(icons, i, members[1..])
    ensures InLine(icons, []) && Indices(members, |icons|)
  {
  }

  lemma {:induction false} MembersQueue(icons: seq<Icon>, key: Key, from: nat)
    requires from <= |icons|
    ensures IsQueue(icons, key, from, Members(icons, key, from))
    decreases |icons| - from
  {
    hide GoesFirst, InGroup, InsertMember;
    if from < |icons| {
      MembersQueue(icons, key, from + 1);
      if InGroup(icons[from], key) {
        var rest := Members(icons, key, from + 1);
        forall k | 0 <= k < |rest|
          ensures from < rest[k]
        {
          assert rest[k] in rest;
        }
        InsertKeepsLine(icons, from, rest);
      }
    }
  }

  lemma {:induction false} OneQueue(icons: seq<Icon>, xs: seq<nat>, ys: seq<nat>)
    requires InLine(icons, xs) && InLine(icons, ys)
    requires forall x: nat :: x in xs <==> x in ys
    ensures xs == ys
  {
    hide GoesFirst, InLine;
    NoneIn(xs, ys);
    NoneIn(ys, xs);
    if xs != [] {
      InLineTail(icons, xs);
      InLineTail(icons, ys);
      assert xs[0] in ys && ys[0] in xs;
      InBounds(icons, xs);
      GoesFirstIsOrder(icons, xs[0], ys[0], xs[0]);
      GoesFirstIsOrder(icons, xs[0], xs[0], xs[0]);
      assert xs[0] == ys[0];
      forall x: nat
        ensures x in xs[1..] <==> x in ys[1..]
      {
        assert xs[0] !in xs[1..] && xs[0] !in ys[1..];
      }
      OneQueue(icons, xs[1..], ys[1..]);
      assert xs == [xs[0]] + xs[1..] && ys == [ys[0]] + ys[1..];
    }
  }

  lemma {:induction false} NoneIn(xs: seq<nat>, ys: seq<nat>)
    requires forall x: nat :: x in xs ==> x in ys
    ensures ys == [] ==> xs == []
  {
    assert xs != [] ==> xs[0] in xs;
  }

  lemma {:induction false} InBounds(icons: seq<Icon>, members: seq<nat>)
    requires InLine(icons, members)
    ensures Indices(members, |icons|)
  {
  }

  /** A group takes its slots in exactly this order. */
  lemma {:induction false} QueueExactly(icons: seq<Icon>, key: Key, members: seq<nat>)
    ensures members == Members(icons, key, 0) <==> IsQueue(icons, key, 0, members)
  {
    hide GoesFirst, InGroup;
    MembersQueue(icons, key, 0);
    if IsQueue(icons, key, 0, members) {
      OneQueue(icons, members, Members(icons, key, 0));
    }
  }

  // ----- One slot -----

  /** The tier a file asks for: a small one 16, otherwise what its folder pins, otherwise by width. */
  ghost predicate AsksFor(icon: Icon, tier: nat) {
    var top := Top(icon.rel);
    var pinned := top == "dashboard-small" || top == "dashboard-large";
    && (tier == 16 <==> icon.sizeHint < 0 || top == "dashboard-small" || (!pinned && icon.width <= 17.0))
    && (tier == 24 <==> icon.sizeHint >= 0 && !pinned && 17.0 < icon.width <= 25.5)
    && (tier == 32 <==> icon.sizeHint >= 0 && (top == "dashboard-large" || (!pinned && 25.5 < icon.width <= 42.0)))
    && (tier == 48 <==> icon.sizeHint >= 0 && !pinned && 42.0 < icon.width)
    && IsTier(tier)
  }

  predicate IsTier(tier: nat) { tier == 16 || tier == 24 || tier == 32 || tier == 48 }

  lemma {:induction false} NaturalTierExactly(icon: Icon, tier: nat)
    ensures tier == NaturalTier(icon) <==> AsksFor(icon, tier)
  {
    hide Top;
    assert "dashboard-small"[10] != "dashboard-large"[10];
  }

  /** The smallest tier above `tier` that is free. */
  ghost predicate IsNextFree(tier: nat, taken: set<nat>, next: nat) {
    && IsTier(next) && next > tier && next !in taken
    && forall t: nat :: IsTier(t) && tier < t < next ==> t in taken
  }

  lemma {:induction false} NextFreeExactly(tier: nat, taken: set<nat>, next: nat)
    ensures NextFree(tier, taken, TIERS) == Some(next) <==> IsNextFree(tier, taken, next)
  {
    assert TIERS[1..] == [24, 32, 48] && TIERS[2..] == [32, 48] && TIERS[3..] == [48];
    assert NextFree(tier, taken, TIERS) ==
           if 16 !in taken && 16 > tier then Some(16) else NextFree(tier, taken, TIERS[1..]);
    assert NextFree(tier, taken, [24, 32, 48]) ==
           if 24 !in taken && 24 > tier then Some(24) else NextFree(tier, taken, [32, 48]);
    assert NextFree(tier, taken, [32, 48]) ==
           if 32 !in taken && 32 > tier then Some(32) else NextFree(tier, taken, [48]);
    assert NextFree(tier, taken, [48]) == if 48 !in taken && 48 > tier then Some(48) else None;
    assert IsTier(16) && IsTier(24) && IsTier(32) && IsTier(48);
  }

  /** The slot of a file while some tiers are taken: the tier it asks for; else the next free one above, when the file
      is at most twice that wide; else a conflict on the tier it asks for. */
  ghost predicate IsSlot(icon: Icon, taken: set<nat>, slot: Slot) {
    var asked := NaturalTier(icon);
    if asked !in taken then slot == Slot(asked, false)
    else if exists next: nat :: MovesTo(icon, asked, taken, next) then
      !slot.conflict && MovesTo(icon, asked, taken, slot.tier)
    else slot == Slot(asked, true)
  }

  ghost predicate MovesTo(icon: Icon, asked: nat, taken: set<nat>, next: nat) {
    IsNextFree(asked, taken, next) && 0.0 <= icon.width <= 2.0 * next as real
  }

  lemma {:induction false} SlotExactly(icon: Icon, taken: set<nat>, slot: Slot)
    ensures slot == Place(icon, taken) <==> IsSlot(icon, taken, slot)
  {
    hide NaturalTier, NextFree, IsNextFree;
    var asked := NaturalTier(icon);
    var free := NextFree(asked, taken, TIERS);
    forall next: nat
      ensures free == Some(next) <==> IsNextFree(asked, taken, next)
    {
      NextFreeExactly(asked, taken, next);
    }
    if free.Some? {
      NearEnough(icon.width, free.value as real);
      assert free.value >= 0;
      assert 0.0 <= icon.width <= 2.0 * free.value as real ==> MovesTo(icon, asked, taken, free.value);
    }
  }

  lemma {:induction false} NearEnough(width: real, next: real)
    requires next >= 0.0
    ensures Abs(next - width) <= next <==> 0.0 <= width <= 2.0 * next
  {
  }

  // ----- All slots of a group -----

  /** The tiers that the first `k` slots occupy: those of files without a conflict. */
  function Occupied(icons: seq<Icon>, members: seq<nat>, slots: seq<Slot>, k: nat): set<nat>
    requires Indices(members, |icons|) && k <= |members| == |slots|
  {
    set j | 0 <= j < k && !slots[j].conflict && CONFLICT !in icons[members[j]].flags :: slots[j].tier
  }

  /** Each file in turn gets its slot among the tiers still free. */
  ghost predicate IsAllotment(icons: seq<Icon>, members: seq<nat>, slots: seq<Slot>) {
    && Indices(members, |icons|) && |slots| == |members|
    && forall k :: 0 <= k < |slots| ==> IsSlot(icons[members[k]], Occupied(icons, members, slots, k), slots[k])
  }

  lemma {:induction false} OccupiedIs(icons: seq<Icon>, members: seq<nat>, slots: seq<Slot>, k: nat)
    requires Indices(members, |icons|) && k <= |members| == |slots|
    requires forall j :: 0 <= j < k ==> slots[j] == SlotAt(icons, members, j)
    ensures Taken(icons, members, k) == Occupied(icons, members, slots, k)
  {
    hide Place, SlotAt, Taken, TargetPath;
    if k == 0 {
      NothingTaken(icons, members);
    } else {
      OccupiedIs(icons, members, slots, k - 1);
      TakenStep(icons, members, k - 1);
      var icon, slot := icons[members[k - 1]], slots[k - 1];
      assert Occupied(icons, members, slots, k) == Occupied(icons, members, slots, k - 1)
          + if slot.conflict || CONFLICT in icon.flags then {} else {slot.tier};
      FlaggedIs(icon, slot);
    }
  }

  lemma {:induction false} FlaggedIs(icon: Icon, slot: Slot)
    ensures CONFLICT in Settled(icon, slot).flags <==> slot.conflict || CONFLICT in icon.flags
  {
  }

  lemma {:induction false} AllotmentExactly(icons: seq<Icon>, members: seq<nat>, slots: seq<Slot>)
    requires Indices(members, |icons|) && |slots| == |members|
    ensures IsAllotment(icons, members, slots)
            <==> forall k :: 0 <= k < |slots| ==> slots[k] == SlotAt(icons, members, k)
  {
    hide IsSlot, Taken, Occupied, Place;
    if IsAllotment(icons, members, slots) {
      for n := 0 to |slots|
        invariant forall k :: 0 <= k < n ==> slots[k] == SlotAt(icons, members, k)
      {
        OccupiedIs(icons, members, slots, n);
        SlotExactly(icons[members[n]], Taken(icons, members, n), slots[n]);
      }
    }
    if forall k :: 0 <= k < |slots| ==> slots[k] == SlotAt(icons, members, k) {
      forall k | 0 <= k < |slots|
        ensures IsSlot(icons[members[k]], Occupied(icons, members, slots, k), slots[k])
      {
        OccupiedIs(icons, members, slots, k);
        SlotExactly(icons[members[k]], Taken(icons, members, k), slots[k]);
      }
    }
  }

  /** File `i` gets `slot` when its group queues up and takes its slots in turn. */
  ghost predicate GetsSlot(icons: seq<Icon>, i: nat, slot: Slot)
    requires i < |icons|
  {
    exists members, slots, k :: TurnOf(icons, i, slot, members, slots, k)
  }

  ghost predicate TurnOf(icons: seq<Icon>, i: nat, slot: Slot, members: seq<nat>, slots: seq<Slot>, k: nat)
    requires i < |icons|
  {
    && IsQueue(icons, KeyOf(icons[i]), 0, members) && IsAllotment(icons, members, slots)
    && k < |members| == |slots| && members[k] == i && slots[k] == slot
  }

  /** Main result: the slot of a kept file is the one it gets in the queue of its group. */
  lemma {:induction false} SlotOfExactly(icons: seq<Icon>, i: nat, slot: Slot)
    requires i < |icons| && !icons[i].dropped
    ensures slot == SlotOf(icons, i) <==> GetsSlot(icons, i, slot)
  {
    hide SlotAt, SlotOf, IsQueue, IsAllotment, KeyOf, Members;
    var key := KeyOf(icons[i]);
    if slot == SlotOf(icons, i) {
      var members, k := PlaceInQueue(icons, i);
      var slots := AllSlots(icons, members);
      SlotOfMember(icons, i, k);
      AllotmentExactly(icons, members, slots);
      assert TurnOf(icons, i, slot, members, slots, k);
    }
    if GetsSlot(icons, i, slot) {
      var members, slots, k :| TurnOf(icons, i, slot, members, slots, k);
      QueueExactly(icons, key, members);
      AllotmentExactly(icons, members, slots);
      SlotOfMember(icons, i, k);
    }
  }

  ghost function AllSlots(icons: seq<Icon>, members: seq<nat>): (slots: seq<Slot>)
    requires Indices(members, |icons|)
    ensures |slots| == |members| && forall k :: 0 <= k < |slots| ==> slots[k] == SlotAt(icons, members, k)
  {
    seq(|members|, k requires 0 <= k < |members| => SlotAt(icons, members, k))
  }

  /** Where a kept file stands in its group. */
  lemma {:induction false} PlaceInQueue(icons: seq<Icon>, i: nat) returns (members: seq<nat>, k: nat)
    requires i < |icons| && !icons[i].dropped
    ensures members == Members(icons, KeyOf(icons[i]), 0) && IsQueue(icons, KeyOf(icons[i]), 0, members)
    ensures Indices(members, |icons|) && k < |members| && members[k] == i
  {
    members := Members(icons, KeyOf(icons[i]), 0);
    MembersQueue(icons, KeyOf(icons[i]), 0);
    assert i in members;
    k := Position(members, i);
  }
}
