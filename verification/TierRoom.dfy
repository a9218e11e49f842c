/** When a group of icons has room in the tiers: exactly when no more files than tiers remain from any width on. */
module TierRoom {
  import opened IconPlan
  import opened IconRules

  /** Nothing but its width decides where the file goes. */
  predicate Ordinary(icon: Icon) {
    && icon.sizeHint >= 0 && icon.width >= 0.0 && CONFLICT !in icon.flags
    && Top(icon.rel) != "dashboard-small" && Top(icon.rel) != "dashboard-large"
  }

  ghost predicate OrdinaryGroup(icons: seq<Icon>, key: Key) {
    forall i :: 0 <= i < |icons| && InGroup(icons[i], key) ==> Ordinary(icons[i])
  }

  /** The files of a group that are wider than `width`. */
  function Wider(icons: seq<Icon>, key: Key, width: real): set<nat> {
    set i: nat | i < |icons| && InGroup(icons[i], key) && icons[i].width > width
  }

  function Group(icons: seq<Icon>, key: Key): set<nat> {
    set i: nat | i < |icons| && InGroup(icons[i], key)
  }

  /** Four files, three wider than the first tier holds, two wider than the second, one wider than the third. */
  predicate HasRoom(icons: seq<Icon>, key: Key) {
    && |Group(icons, key)| <= 4
    && |Wider(icons, key, 17.0)| <= 3
    && |Wider(icons, key, 25.5)| <= 2
    && |Wider(icons, key, 42.0)| <= 1
  }

  /** Every file of the group has a slot of its own. */
  ghost predicate AllPlaced(icons: seq<Icon>, key: Key) {
    forall i :: 0 <= i < |icons| && InGroup(icons[i], key) ==> !SlotOf(icons, i).conflict
  }

  // ----- Steps in place of tiers -----

  /** The place of the tier for a width. */
  function StepOf(width: real): (n: nat)
    ensures n < 4
  {
    if width <= 17.0 then 0 else if width <= 25.5 then 1 else if width <= 42.0 then 2 else 3
  }

  function Tier(n: nat): (tier: nat)
    requires n < 4
    ensures IsTier(tier)
  {
    if n == 0 then 16 else if n == 1 then 24 else if n == 2 then 32 else 48
  }

  function Reach(icons: seq<Icon>, members: seq<nat>, k: nat): nat
    requires Indices(members, |icons|) && k < |members|
  {
    StepOf(icons[members[k]].width)
  }

  /** The step the `k`-th file ends on: its own, or the next one behind the file in front of it. */
  function Pushed(icons: seq<Icon>, members: seq<nat>, k: nat): nat
    requires Indices(members, |icons|) && k < |members|
  {
    var own := Reach(icons, members, k);
    if k == 0 || Pushed(icons, members, k - 1) < own then own else Pushed(icons, members, k - 1) + 1
  }

  lemma {:induction false} AsksForStep(icon: Icon)
    requires Ordinary(icon)
    ensures NaturalTier(icon) == Tier(StepOf(icon.width))
  {
    hide Top;
  }

  lemma {:induction false} TiersInject(m: nat, n: nat)
    requires m < 4 && n < 4
    ensures Tier(m) < Tier(n) <==> m < n
    ensures Tier(m) == Tier(n) <==> m == n
  {
  }

  lemma {:induction false} TierHasStep(t: nat) returns (m: nat)
    requires IsTier(t)
    ensures m < 4 && Tier(m) == t
  {
    m := if t == 16 then 0 else if t == 24 then 1 else if t == 32 then 2 else 3;
  }

  /** The tiers from step `low` to below `high` are taken, and none from `high` on. */
  predicate TakenBetween(taken: set<nat>, low: nat, high: nat) {
    && (forall m: nat :: m < 4 && low <= m < high ==> Tier(m) in taken)
    && (forall m: nat :: m < 4 && high <= m ==> Tier(m) !in taken)
  }

  /** One file takes the first step that is free from its own one on. */
  lemma {:induction false} TakesStep(icon: Icon, taken: set<nat>, low: nat, high: nat)
    requires Ordinary(icon) && low <= StepOf(icon.width) && TakenBetween(taken, low, high) && high <= 4
    ensures var own := StepOf(icon.width);
            var step := if high < own then own else high;
            Place(icon, taken) == if step < 4 then Slot(Tier(step), false) else Slot(Tier(own), true)
  {
    hide Place, NaturalTier, Tier, IsTier;
    var own := StepOf(icon.width);
    var step := if high < own then own else high;
    AsksForStep(icon);
    forall t: nat | IsTier(t) && Tier(own) < t
      ensures t in taken <==> exists m: nat :: m < high && own < m < 4 && Tier(m) == t
    {
      var m := TierHasStep(t);
      TiersInject(own, m);
    }
    if step < 4 && step != own {
      assert Tier(own) in taken;
      MovesUp(icon, taken, own, step);
      assert MovesTo(icon, Tier(own), taken, Tier(step));
      SlotExactly(icon, taken, Slot(Tier(step), false));
    } else if step == 4 {
      forall next: nat
        ensures !IsNextFree(Tier(own), taken, next)
      {
        if IsTier(next) && next > Tier(own) {
          var m := TierHasStep(next);
          TiersInject(own, m);
          assert Tier(m) in taken;
        }
      }
      SlotExactly(icon, taken, Slot(Tier(own), true));
    } else {
      SlotExactly(icon, taken, Slot(Tier(own), false));
    }
  }

  lemma {:induction false} MovesUp(icon: Icon, taken: set<nat>, own: nat, step: nat)
    requires Ordinary(icon) && own == StepOf(icon.width) && own < step < 4
    requires Tier(step) !in taken && forall m: nat :: own <= m < step ==> Tier(m) in taken
    ensures MovesTo(icon, Tier(own), taken, Tier(step))
  {
    hide Tier;
    TiersInject(own, step);
    forall t: nat | IsTier(t) && Tier(own) < t < Tier(step)
      ensures t in taken
    {
      var m := TierHasStep(t);
      TiersInject(own, m);
      TiersInject(m, step);
    }
    FarEnough(icon.width, step);
  }

  lemma {:induction false} FarEnough(width: real, step: nat)
    requires StepOf(width) < step < 4
    ensures width <= 2.0 * Tier(step) as real
  {
  }

  // ----- A queue of ordinary files -----

  ghost predicate OrdinaryQueue(icons: seq<Icon>, members: seq<nat>) {
    && Indices(members, |icons|)
    && (forall k :: 0 <= k < |members| ==> Ordinary(icons[members[k]]))
    && (forall k, l :: 0 <= k < l < |members| ==> icons[members[k]].width <= icons[members[l]].width)
  }

  lemma {:induction false} ReachRises(icons: seq<Icon>, members: seq<nat>, k: nat, l: nat)
    requires OrdinaryQueue(icons, members) && k <= l < |members|
    ensures Reach(icons, members, k) <= Reach(icons, members, l)
  {
  }

  /** While the steps suffice, every file ends on its pushed step, and that is where the taken tiers end. */
  lemma {:induction false} StepsSuffice(icons: seq<Icon>, members: seq<nat>, k: nat)
    requires OrdinaryQueue(icons, members) && k < |members|
    requires k > 0 ==> Pushed(icons, members, k - 1) < 4
    ensures SlotAt(icons, members, k)
         == (var step := Pushed(icons, members, k);
             if step < 4 then Slot(Tier(step), false) else Slot(Tier(Reach(icons, members, k)), true))
    ensures Pushed(icons, members, k) < 4 ==>
              TakenBetween(Taken(icons, members, k + 1), Reach(icons, members, k), Pushed(icons, members, k) + 1)
    decreases k
  {
    hide Place, Taken, SlotAt, Tier, Reach, Ordinary, TakenBetween, TargetPath;
    var icon := icons[members[k]];
    var own := Reach(icons, members, k);
    var taken := Taken(icons, members, k);
    TakenStep(icons, members, k);
    if k == 0 {
      NothingTaken(icons, members);
      NoneTaken(own);
      ReachIs(icons, members, k);
      TakesStep(icon, taken, own, 0);
    } else {
      PushedFalls(icons, members, k - 1);
      StepsSuffice(icons, members, k - 1);
      ReachRises(icons, members, k - 1, k);
      ReachIs(icons, members, k);
      TakesStep(icon, taken, Reach(icons, members, k - 1), Pushed(icons, members, k - 1) + 1);
    }
    var step := Pushed(icons, members, k);
    if step < 4 {
      FlaggedIs(icon, SlotAt(icons, members, k));
      OrdinaryIsFree(icon);
      assert Taken(icons, members, k + 1) == taken + {Tier(step)};
      if k == 0 {
        OneMore(taken, own, 0, own, step);
      } else {
        OneMore(taken, Reach(icons, members, k - 1), Pushed(icons, members, k - 1) + 1, own, step);
      }
    }
  }

  lemma {:induction false} NoneTaken(own: nat)
    ensures TakenBetween({}, own, 0)
  {
  }

  lemma {:induction false} ReachIs(icons: seq<Icon>, members: seq<nat>, k: nat)
    requires OrdinaryQueue(icons, members) && k < |members|
    ensures Reach(icons, members, k) == StepOf(icons[members[k]].width) && Ordinary(icons[members[k]])
  {
  }

  lemma {:induction false} OrdinaryIsFree(icon: Icon)
    requires Ordinary(icon)
    ensures CONFLICT !in icon.flags
  {
  }

  /** Taking the first free step from `own` on keeps the taken tiers together. */
  lemma {:induction false} OneMore(taken: set<nat>, low: nat, high: nat, own: nat, step: nat)
    requires TakenBetween(taken, low, high) && low <= own && step < 4
    requires step == if high < own then own else high
    ensures TakenBetween(taken + {Tier(step)}, own, step + 1)
  {
    hide Tier;
    forall m: nat | m < 4
      ensures Tier(m) == Tier(step) <==> m == step
    {
      TiersInject(m, step);
    }
  }

  /** Steps rise, so the earlier ones suffice when a later one does. */
  lemma {:induction false} PushedFalls(icons: seq<Icon>, members: seq<nat>, k: nat)
    requires Indices(members, |icons|) && k < |members|
    ensures k > 0 ==> Pushed(icons, members, k - 1) < Pushed(icons, members, k)
    ensures Reach(icons, members, k) <= Pushed(icons, members, k)
  {
  }

  lemma {:induction false} PushedRises(icons: seq<Icon>, members: seq<nat>, j: nat, k: nat)
    requires Indices(members, |icons|) && j < k < |members|
    ensures Pushed(icons, members, j) < Pushed(icons, members, k)
    decreases k
  {
    hide Pushed;
    PushedFalls(icons, members, k);
    if j < k - 1 {
      PushedRises(icons, members, j, k - 1);
    }
  }

  /** A queue is placed without conflict if and only if its last step exists. */
  lemma {:induction false} LastStepDecides(icons: seq<Icon>, members: seq<nat>)
    requires OrdinaryQueue(icons, members) && members != []
    ensures (forall k :: 0 <= k < |members| ==> !SlotAt(icons, members, k).conflict)
            <==> Pushed(icons, members, |members| - 1) < 4
  {
    hide Pushed, SlotAt;
    var last := |members| - 1;
    if Pushed(icons, members, last) < 4 {
      forall k | 0 <= k < |members|
        ensures !SlotAt(icons, members, k).conflict
      {
        if k < last { PushedRises(icons, members, k, last); }
        PushedFalls(icons, members, k);
        StepsSuffice(icons, members, k);
      }
    } else {
      var k := FirstBeyond(icons, members, last);
      StepsSuffice(icons, members, k);
    }
  }

  lemma {:induction false} FirstBeyond(icons: seq<Icon>, members: seq<nat>, last: nat) returns (k: nat)
    requires Indices(members, |icons|) && last < |members| && Pushed(icons, members, last) >= 4
    ensures k < |members| && Pushed(icons, members, k) >= 4 && (k > 0 ==> Pushed(icons, members, k - 1) < 4)
  {
    hide Pushed;
    k := last;
    while k > 0 && Pushed(icons, members, k - 1) >= 4
      invariant k <= last && Pushed(icons, members, k) >= 4
    {
      k := k - 1;
    }
  }

  // ----- Counting -----

  /** A file is pushed at least as far as the files in front of it force. */
  lemma {:induction false} PushedAtLeast(icons: seq<Icon>, members: seq<nat>, j: nat, k: nat)
    requires Indices(members, |icons|) && j <= k < |members|
    ensures Pushed(icons, members, k) >= Reach(icons, members, j) + k - j
    decreases k
  {
    hide Pushed, Reach;
    PushedFalls(icons, members, k);
    if j < k { PushedAtLeast(icons, members, j, k - 1); }
  }

  /** And no further. */
  lemma {:induction false} PushedFrom(icons: seq<Icon>, members: seq<nat>, k: nat) returns (j: nat)
    requires Indices(members, |icons|) && k < |members|
    ensures j <= k && Pushed(icons, members, k) == Reach(icons, members, j) + k - j
    decreases k
  {
    hide Reach;
    if k == 0 || Pushed(icons, members, k - 1) < Reach(icons, members, k) {
      j := k;
    } else {
      j := PushedFrom(icons, members, k - 1);
    }
  }

  /** The files from position `j` on. */
  function Behind(members: seq<nat>, j: nat): set<nat>
    requires j <= |members|
  {
    set k | j <= k < |members| :: members[k]
  }

  lemma {:induction false} BehindCount(members: seq<nat>, j: nat)
    requires Distinct(members) && j <= |members|
    ensures |Behind(members, j)| == |members| - j
    decreases |members| - j
  {
    if j < |members| {
      BehindCount(members, j + 1);
      assert Behind(members, j) == Behind(members, j + 1) + {members[j]};
    }
  }

  /** The files of a group that reach step `n`. */
  function Reaching(icons: seq<Icon>, key: Key, n: nat): set<nat> {
    set i: nat | i < |icons| && InGroup(icons[i], key) && StepOf(icons[i].width) >= n
  }

  lemma {:induction false} ReachingAre(icons: seq<Icon>, key: Key)
    ensures Reaching(icons, key, 0) == Group(icons, key)
    ensures Reaching(icons, key, 1) == Wider(icons, key, 17.0)
    ensures Reaching(icons, key, 2) == Wider(icons, key, 25.5)
    ensures Reaching(icons, key, 3) == Wider(icons, key, 42.0)
  {
    hide InGroup;
  }

  /** The members are the group, in order of width. */
  ghost predicate Lined(icons: seq<Icon>, key: Key, members: seq<nat>) {
    && OrdinaryQueue(icons, members) && Distinct(members)
    && forall i: nat :: i in members <==> i < |icons| && InGroup(icons[i], key)
  }

  /** The files that reach a step are those from some position on. */
  lemma {:induction false} ReachingIsTail(icons: seq<Icon>, key: Key, members: seq<nat>, n: nat) returns (j: nat)
    requires Lined(icons, key, members)
    ensures j <= |members| && Reaching(icons, key, n) == Behind(members, j)
    ensures j < |members| ==> Reach(icons, members, j) >= n
  {
    hide InGroup, Ordinary, StepOf;
    j := |members|;
    while j > 0 && Reach(icons, members, j - 1) >= n
      invariant j <= |members|
      invariant forall k :: j <= k < |members| ==> Reach(icons, members, k) >= n
    {
      j := j - 1;
    }
    forall k | 0 <= k < j
      ensures Reach(icons, members, k) < n
    {
      ReachRises(icons, members, k, j - 1);
    }
    forall i: nat
      ensures i in Reaching(icons, key, n) <==> i in Behind(members, j)
    {
      if i in members {
        var k := Position(members, i);
        assert StepOf(icons[i].width) == Reach(icons, members, k);
        if i in Behind(members, j) {
          var l :| j <= l < |members| && members[l] == i;
        }
      } else {
        assert i !in Behind(members, j);
      }
    }
  }

  lemma {:induction false} RoomIsReach(icons: seq<Icon>, key: Key, members: seq<nat>)
    requires Lined(icons, key, members)
    ensures (forall n: nat :: n < 4 ==> |Reaching(icons, key, n)| + n <= 4)
            <==> members == [] || Pushed(icons, members, |members| - 1) < 4
  {
    hide Pushed, Reaching, Behind, Reach, InGroup, OrdinaryQueue;
    if members == [] {
      forall n: nat | n < 4
        ensures |Reaching(icons, key, n)| + n <= 4
      {
        var j := ReachingIsTail(icons, key, members, n);
        BehindCount(members, j);
      }
    } else {
      Bounded(icons, members);
      var last := |members| - 1;
      if Pushed(icons, members, last) < 4 {
        forall n: nat | n < 4
          ensures |Reaching(icons, key, n)| + n <= 4
        {
          var j := ReachingIsTail(icons, key, members, n);
          BehindCount(members, j);
          if j <= last { PushedAtLeast(icons, members, j, last); }
        }
      } else {
        var j := PushedFrom(icons, members, last);
        ReachBelow(icons, members, j);
        TailReaches(icons, key, members, j);
      }
    }
  }

  lemma {:induction false} Bounded(icons: seq<Icon>, members: seq<nat>)
    requires OrdinaryQueue(icons, members)
    ensures Indices(members, |icons|)
  {
  }

  lemma {:induction false} ReachBelow(icons: seq<Icon>, members: seq<nat>, j: nat)
    requires Indices(members, |icons|) && j < |members|
    ensures Reach(icons, members, j) < 4
  {
  }

  lemma {:induction false} TailReaches(icons: seq<Icon>, key: Key, members: seq<nat>, j: nat)
    requires Lined(icons, key, members) && j < |members|
    ensures |Reaching(icons, key, Reach(icons, members, j))| >= |members| - j
  {
    hide InGroup, Ordinary, StepOf;
    BehindCount(members, j);
    var all := Reaching(icons, key, Reach(icons, members, j));
    forall k | j <= k < |members|
      ensures members[k] in all
    {
      ReachRises(icons, members, j, k);
      assert members[k] in members;
    }
    FewerInside(Behind(members, j), all);
  }

  lemma {:induction false} FewerInside(a: set<nat>, b: set<nat>)
    requires a <= b
    ensures |a| <= |b|
  {
    assert b == a + (b - a);
  }

  /** The queue of an ordinary group. */
  lemma {:induction false} GroupIsLined(icons: seq<Icon>, key: Key)
    requires OrdinaryGroup(icons, key)
    ensures Lined(icons, key, Members(icons, key, 0))
  {
    hide Members, InGroup, Ordinary;
    var members := Members(icons, key, 0);
    MembersAre(icons, key, 0);
    MembersQueue(icons, key, 0);
    forall k | 0 <= k < |members|
      ensures Ordinary(icons[members[k]])
    {
      assert members[k] in members;
    }
    forall k, l | 0 <= k < l < |members|
      ensures icons[members[k]].width <= icons[members[l]].width
    {
      assert GoesFirst(icons, members[k], members[l]);
    }
  }

  lemma {:induction false} PlacedIs(icons: seq<Icon>, key: Key)
    ensures var members := Members(icons, key, 0);
            AllPlaced(icons, key)
            <==> forall k :: 0 <= k < |members| ==> !SlotAt(icons, members, k).conflict
  {
    hide Members, SlotAt, SlotOf;
    var members := Members(icons, key, 0);
    MembersAre(icons, key, 0);
    forall k | 0 <= k < |members|
      ensures InGroup(icons[members[k]], key) && SlotOf(icons, members[k]) == SlotAt(icons, members, k)
    {
      assert members[k] in members;
      SlotOfMember(icons, members[k], k);
    }
    if forall k :: 0 <= k < |members| ==> !SlotAt(icons, members, k).conflict {
      forall i | 0 <= i < |icons| && InGroup(icons[i], key)
        ensures !SlotOf(icons, i).conflict
      {
        assert i in members;
        var k := Position(members, i);
      }
    }
    if AllPlaced(icons, key) {
      forall k | 0 <= k < |members|
        ensures !SlotAt(icons, members, k).conflict
      {
        assert !SlotOf(icons, members[k]).conflict;
      }
    }
  }

  /** Main result: an ordinary group is placed without a conflict if and only if it has at most four files, at most
      three wider than 17, two wider than 25.5 and one wider than 42. */
  lemma {:induction false} PlacedExactly(icons: seq<Icon>, key: Key)
    requires OrdinaryGroup(icons, key)
    ensures AllPlaced(icons, key) <==> HasRoom(icons, key)
  {
    hide Members, SlotAt, Pushed, Lined, Reaching, Group, Wider, AllPlaced, OrdinaryGroup, OrdinaryQueue;
    var members := Members(icons, key, 0);
    GroupIsLined(icons, key);
    PlacedIs(icons, key);
    ReachingAre(icons, key);
    RoomIsReach(icons, key, members);
    if members != [] {
      LinedQueue(icons, key, members);
      LastStepDecides(icons, members);
    }
    if HasRoom(icons, key) {
      forall n: nat | n < 4
        ensures |Reaching(icons, key, n)| + n <= 4
      {
        assert n == 0 || n == 1 || n == 2 || n == 3;
      }
    }
    if forall n: nat :: n < 4 ==> |Reaching(icons, key, n)| + n <= 4 {
      assert |Reaching(icons, key, 0)| <= 4 && |Reaching(icons, key, 1)| + 1 <= 4;
      assert |Reaching(icons, key, 2)| + 2 <= 4 && |Reaching(icons, key, 3)| + 3 <= 4;
    }
  }

  lemma {:induction false} LinedQueue(icons: seq<Icon>, key: Key, members: seq<nat>)
    requires Lined(icons, key, members)
    ensures OrdinaryQueue(icons, members)
  {
  }

  /** And then the wider of two files has the higher tier. */
  lemma {:induction false} WiderIsHigher(icons: seq<Icon>, key: Key, i: nat, j: nat)
    requires OrdinaryGroup(icons, key) && HasRoom(icons, key)
    requires i < |icons| && j < |icons| && InGroup(icons[i], key) && InGroup(icons[j], key)
    requires icons[i].width < icons[j].width
    ensures SlotOf(icons, i).tier < SlotOf(icons, j).tier
  {
    hide Members, SlotAt, SlotOf, Pushed, HasRoom, AllPlaced, Ordinary, Tier, Taken;
    var members := Members(icons, key, 0);
    GroupIsLined(icons, key);
    PlacedExactly(icons, key);
    PlacedIs(icons, key);
    LastStepDecides(icons, members);
    var last := |members| - 1;
    var k, l := Position(members, i), Position(members, j);
    SlotOfMember(icons, i, k);
    SlotOfMember(icons, j, l);
    assert k < l;
    PushedRises(icons, members, k, l);
    if l < last { PushedRises(icons, members, l, last); }
    PushedFalls(icons, members, k);
    PushedFalls(icons, members, l);
    StepsSuffice(icons, members, k);
    StepsSuffice(icons, members, l);
    TiersInject(Pushed(icons, members, k), Pushed(icons, members, l));
  }
}
