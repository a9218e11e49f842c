/** Which numbers the ledger gives: on any entry the first free ones in parameter order, on a valid entry the next
    ones without a gap, and over any history no number from 2 on is ever left out. */
module LedgerNumbers {
  import opened Text
  import opened Ledger

  /** The parameters of the list that have no number yet. */
  ghost function News(params: seq<string>, fields: map<string, nat>): set<string> {
    set p | p in params && p !in fields
  }

  ghost predicate Rising(params: seq<string>) {
    forall i, j :: 0 <= i < j < |params| ==> Less(params[i], params[j])
  }

  /** The numbers of `now` for the new parameters: in order, free, and from `next` on no free one is passed over. */
  ghost predicate TakesFirstFree(params: seq<string>, fields: map<string, nat>, used: set<nat>, next: nat, now: Numbering) {
    && (forall p :: p in News(params, fields) ==> p in now.fields && next <= now.fields[p] < now.next && now.fields[p] !in used)
    && (forall p, q :: p in News(params, fields) && q in News(params, fields) && Less(p, q) ==>
          p in now.fields && q in now.fields && now.fields[p] < now.fields[q])
    && (forall n :: next <= n < now.next ==> n in used || IsGiven(News(params, fields), now.fields, n))
  }

  /** One of the new parameters got number `n`. */
  ghost predicate IsGiven(news: set<string>, fields: map<string, nat>, n: nat) {
    exists p :: p in news && p in fields && fields[p] == n
  }

  lemma {:induction false} NewsStep(params: seq<string>, fields: map<string, nat>, n: nat)
    requires params != [] && Rising(params)
    ensures params[0] in fields ==> News(params, fields) == News(params[1..], fields)
    ensures params[0] !in fields ==>
              News(params, fields) == News(params[1..], fields[params[0] := n]) + {params[0]}
    ensures params[0] !in News(params[1..], fields[params[0] := n])
    ensures Rising(params[1..])
    ensures forall p :: p in params[1..] ==> Less(params[0], p)
  {
    assert params == [params[0]] + params[1..];
    forall p | p in params[1..]
      ensures Less(params[0], p)
    {
      var j :| 0 <= j < |params[1..]| && params[1..][j] == p;
      assert params[j + 1] == p;
    }
  }

  lemma {:induction false} MoreValues(fields: map<string, nat>, p: string, n: nat)
    requires p !in fields
    ensures fields[p := n].Values == fields.Values + {n}
  {
    var more := fields[p := n];
    assert more[p] == n;
    forall x | x in fields.Values
      ensures x in more.Values
    {
      var q :| q in fields && fields[q] == x;
      assert more[q] == x;
    }
  }

  /** On any entry, also one that was edited by hand. */
  lemma {:induction false} AssignTakesFirstFree(params: seq<string>, fields: map<string, nat>, reserved: set<nat>, next: nat)
    requires Rising(params)
    ensures TakesFirstFree(params, fields, reserved + fields.Values, next, Assign(params, fields, reserved, next))
    decreases |params|
  {
    hide Probe, News, IsGiven, Rising;
    var now := Assign(params, fields, reserved, next);
    if params == [] {
      NoNews(fields);
    } else {
      var n := Probe(next, reserved + fields.Values);
      NewsStep(params, fields, n);
      if params[0] in fields {
        AssignTakesFirstFree(params[1..], fields, reserved, next);
      } else {
        var more := fields[params[0] := n];
        MoreValues(fields, params[0], n);
        AssignTakesFirstFree(params[1..], more, reserved, n + 1);
        AssignKeeps(params[1..], more, reserved, n + 1);
        assert now.fields[params[0]] == n;
        FirstTaken(params, fields, reserved, next, now);
      }
    }
  }

  lemma {:induction false} NoNews(fields: map<string, nat>)
    ensures News([], fields) == {}
  {
  }

  lemma {:induction false} FirstTaken(params: seq<string>, fields: map<string, nat>, reserved: set<nat>, next: nat,
      now: Numbering)
    requires params != [] && params[0] !in fields && Rising(params)
    requires var n := Probe(next, reserved + fields.Values);
             var more := fields[params[0] := n];
             && now.next > n && params[0] in now.fields && now.fields[params[0]] == n
             && TakesFirstFree(params[1..], more, reserved + more.Values, n + 1, now)
    ensures TakesFirstFree(params, fields, reserved + fields.Values, next, now)
  {
    hide Probe, Rising;
    var used := reserved + fields.Values;
    var n := Probe(next, used);
    var rest := News(params[1..], fields[params[0] := n]);
    NewsStep(params, fields, n);
    MoreValues(fields, params[0], n);
    var news := News(params, fields);
    forall p, q | p in news && q in news && Less(p, q)
      ensures p in now.fields && q in now.fields && now.fields[p] < now.fields[q]
    {
      if q == params[0] { LessTrichotomy(p, q); }
    }
    forall m | next <= m < now.next
      ensures m in used || IsGiven(news, now.fields, m)
    {
      if m < n {
        ProbeIsFirst(next, used, m);
      } else if m > n && m !in used {
        assert IsGiven(rest, now.fields, m);
      }
    }
  }

  lemma {:induction false} SortedRises(ps: set<string>)
    ensures Rising(Sorted(ps))
    ensures forall p :: p in Sorted(ps) <==> p in ps
  {
  }

  /** Main result on one entry, valid or not: each new parameter takes the first number from `next` on that is neither
      retired nor kept, in parameter order. */
  lemma {:induction false} NewTakeFirstFree(prior: Entry, ps: set<string>)
    ensures var now := Step(prior, Some(ps));
            var used := now.reserved + Keep(prior.fields, ps).Values;
            var news := ps - prior.fields.Keys;
            && (forall p :: p in news ==>
                  p in now.fields && Max(prior.next, 2) <= now.fields[p] < now.next && now.fields[p] !in used)
            && (forall p, q :: p in news && q in news && Less(p, q) ==>
                  p in now.fields && q in now.fields && now.fields[p] < now.fields[q])
            && (forall p, n :: p in news && p in now.fields && Max(prior.next, 2) <= n < now.fields[p] ==>
                  n in used || IsGiven(news, now.fields, n))
  {
    hide Assign, Probe, Sorted, Rising;
    var kept := Keep(prior.fields, ps);
    var reserved := prior.reserved + Retired(prior.fields, ps);
    var next := Max(prior.next, 2);
    SortedRises(ps);
    AssignForward(Sorted(ps), kept, reserved, next);
    AssignTakesFirstFree(Sorted(ps), kept, reserved, next);
    assert News(Sorted(ps), kept) == ps - prior.fields.Keys;
    var numbering := Assign(Sorted(ps), kept, reserved, next);
    forall p, n | p in ps - prior.fields.Keys && p in numbering.fields && next <= n < numbering.fields[p]
      ensures n in reserved + kept.Values || IsGiven(ps - prior.fields.Keys, numbering.fields, n)
    {
      assert n in reserved + kept.Values || IsGiven(News(Sorted(ps), kept), numbering.fields, n);
    }
  }

  // ----- Valid entries: no gap -----

  /** The new parameters that sort before `p`. */
  ghost function Before(params: seq<string>, fields: map<string, nat>, p: string): set<string> {
    set q | q in News(params, fields) && Less(q, p)
  }

  lemma {:induction false} NothingInTheWay(fields: map<string, nat>, reserved: set<nat>, next: nat)
    requires Sound(fields, reserved, next)
    ensures Probe(next, reserved + fields.Values) == next
  {
  }

  lemma {:induction false} AssignRanks(params: seq<string>, fields: map<string, nat>, reserved: set<nat>, next: nat, p: string)
    requires Sound(fields, reserved, next) && Rising(params)
    ensures var now := Assign(params, fields, reserved, next);
            && now.next == next + |News(params, fields)|
            && (p in News(params, fields) ==>
                  p in now.fields && now.fields[p] == next + |Before(params, fields, p)|)
    decreases |params|
  {
    hide Probe, News, Rising, Sound, Before;
    if params == [] {
      NoNews(fields);
    } else {
      NothingInTheWay(fields, reserved, next);
      NewsStep(params, fields, next);
      if params[0] in fields {
        AssignRanks(params[1..], fields, reserved, next, p);
        BeforeSkips(params, fields, p);
      } else {
        var more := fields[params[0] := next];
        NewIsSound(fields, reserved, next, params[0]);
        AssignRanks(params[1..], more, reserved, next + 1, p);
        AssignKeeps(params[1..], more, reserved, next + 1);
        if p in News(params, fields) { BeforeCounts(params, fields, next, p); }
      }
    }
  }

  lemma {:induction false} BeforeSkips(params: seq<string>, fields: map<string, nat>, p: string)
    requires params != [] && Rising(params) && params[0] in fields
    ensures Before(params, fields, p) == Before(params[1..], fields, p)
  {
    NewsStep(params, fields, 0);
  }

  lemma {:induction false} BeforeCounts(params: seq<string>, fields: map<string, nat>, n: nat, p: string)
    requires params != [] && Rising(params) && params[0] !in fields && p in News(params, fields)
    ensures p == params[0] ==> Before(params, fields, p) == {}
    ensures p != params[0] ==>
              |Before(params, fields, p)| == |Before(params[1..], fields[params[0] := n], p)| + 1
  {
    hide Rising;
    NewsStep(params, fields, n);
    if p == params[0] {
      forall q | q in Before(params, fields, p)
        ensures false
      {
        LessTrichotomy(q, p);
      }
    } else {
      var less := Before(params[1..], fields[params[0] := n], p);
      assert Before(params, fields, p) == less + {params[0]};
    }
  }

  /** What a step assigns, and that it needs no correction afterwards. */
  lemma {:induction false} StepIs(prior: Entry, ps: set<string>)
    requires Valid(prior)
    ensures var kept, reserved := Keep(prior.fields, ps), prior.reserved + Retired(prior.fields, ps);
            var numbering := Assign(Sorted(ps), kept, reserved, prior.next);
            && Sound(kept, reserved, prior.next)
            && Step(prior, Some(ps)) == Entry(numbering.fields, reserved, numbering.next)
            && News(Sorted(ps), kept) == ps - prior.fields.Keys
  {
    hide Assign, Sorted, Rising, Ascending;
    var kept := Keep(prior.fields, ps);
    var reserved := prior.reserved + Retired(prior.fields, ps);
    SortedRises(ps);
    KeptIsSound(prior, ps);
    AssignForward(Sorted(ps), kept, reserved, prior.next);
    AssignSound(Sorted(ps), kept, reserved, prior.next);
    var numbering := Assign(Sorted(ps), kept, reserved, prior.next);
    CloseIsTight(numbering.fields, reserved, numbering.next);
  }

  /** The rank of a parameter among the new ones. */
  ghost function Rank(news: set<string>, p: string): nat {
    |set q | q in news && Less(q, p)|
  }

  /** Main result on a valid entry: a new parameter gets `next` plus the number of new parameters that sort before it,
      and `next` moves on by the number of new parameters. */
  lemma {:induction false} NewNumbersExactly(prior: Entry, ps: set<string>)
    requires Valid(prior)
    ensures var now, news := Step(prior, Some(ps)), ps - prior.fields.Keys;
            && now.next == prior.next + |news|
            && forall p :: p in news ==> p in now.fields && now.fields[p] == prior.next + Rank(news, p)
  {
    hide Assign, Step, Sorted, Rising, Ascending, Sound, Less;
    var kept := Keep(prior.fields, ps);
    var reserved := prior.reserved + Retired(prior.fields, ps);
    var news := ps - prior.fields.Keys;
    SortedRises(ps);
    StepIs(prior, ps);
    AssignRanks(Sorted(ps), kept, reserved, prior.next, "");
    forall p | p in news
      ensures p in Step(prior, Some(ps)).fields && Step(prior, Some(ps)).fields[p] == prior.next + Rank(news, p)
    {
      AssignRanks(Sorted(ps), kept, reserved, prior.next, p);
      assert Before(Sorted(ps), kept, p) == set q | q in news && Less(q, p);
    }
  }

  /** So no number is skipped: those from the old `next` up to the new one are the numbers of the new parameters. */
  lemma {:induction false} NoGap(prior: Entry, ps: set<string>, n: nat)
    requires Valid(prior)
    ensures var now, news := Step(prior, Some(ps)), ps - prior.fields.Keys;
            prior.next <= n < now.next <==> IsGiven(news, now.fields, n)
  {
    hide Assign, Step, Sorted, Rising, Ascending, Less;
    var kept := Keep(prior.fields, ps);
    var reserved := prior.reserved + Retired(prior.fields, ps);
    SortedRises(ps);
    StepIs(prior, ps);
    AssignTakesFirstFree(Sorted(ps), kept, reserved, prior.next);
    var numbering := Assign(Sorted(ps), kept, reserved, prior.next);
    assert prior.next <= n < numbering.next ==>
      n in reserved + kept.Values || IsGiven(News(Sorted(ps), kept), numbering.fields, n);
  }

  /** Every number from 2 up to `next` is bound or retired. */
  ghost predicate Dense(e: Entry) {
    forall n :: 2 <= n < e.next ==> n in e.fields.Values || n in e.reserved
  }

  lemma {:induction false} StepDense(prior: Entry, params: Option<set<string>>)
    requires Valid(prior) && Dense(prior)
    ensures Dense(Step(prior, params))
  {
    hide Step, Valid, Dense;
    if params.None? {
      AbsenceKeeps(prior);
    } else {
      forall n | 2 <= n < Step(prior, params).next
        ensures n in Step(prior, params).fields.Values || n in Step(prior, params).reserved
      {
        NumberStays(prior, params.value, n);
      }
      DenseFrom(Step(prior, params));
    }
  }

  lemma {:induction false} DenseFrom(e: Entry)
    requires forall n :: 2 <= n < e.next ==> n in e.fields.Values || n in e.reserved
    ensures Dense(e)
  {
  }

  lemma {:induction false} NumberStays(prior: Entry, ps: set<string>, n: nat)
    requires Valid(prior) && Dense(prior) && 2 <= n < Step(prior, Some(ps)).next
    ensures var now := Step(prior, Some(ps)); n in now.fields.Values || n in now.reserved
  {
    hide Step, Valid;
    var now := Step(prior, Some(ps));
    StepKeeps(prior, Some(ps));
    NoGap(prior, ps, n);
    if n < prior.next && n !in prior.reserved {
      var p :| p in prior.fields && prior.fields[p] == n;
      assert p in now.fields ==> now.fields[p] in now.fields.Values;
    }
  }

  /** Over every history the numbers from 2 up to `next` are exactly the bound and the retired ones. */
  lemma {:induction false} NoNumberIsSkipped(history: seq<seq<Command>>, name: string, n: nat)
    requires name in After(history)
    ensures var e := After(history)[name];
            2 <= n < e.next <==> n in e.fields.Values || n in e.reserved
  {
    hide After, Dense;
    HistoryValid(history);
    HistoryDense(history, name);
    DenseAt(After(history)[name], n);
  }

  lemma {:induction false} DenseAt(e: Entry, n: nat)
    requires Valid(e) && Dense(e)
    ensures 2 <= n < e.next <==> n in e.fields.Values || n in e.reserved
  {
  }

  lemma {:induction false} HistoryDense(history: seq<seq<Command>>, name: string)
    requires name in After(history)
    ensures Dense(After(history)[name])
    decreases |history|
  {
    hide Step, Dense, ParamsByCommand, Valid;
    if history != [] {
      var n := |history| - 1;
      var before := After(history[..n]);
      HistoryValid(history[..n]);
      FreshIsDense();
      FreshIsValid();
      if name in before {
        HistoryDense(history[..n], name);
      }
      StepDense(Prior(before, name), Find(ParamsByCommand(history[n]), name));
    }
  }

  lemma {:induction false} FreshIsDense()
    ensures Dense(FRESH)
  {
  }
}
