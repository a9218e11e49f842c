/** The gRPC field-number ledger: `ledger_entries` assigns numbers append-only, one snapshot
    of the API at a time. */
module Ledger {
  import opened Text

  /** One command's numbering, as `proto-fields.json` stores it. */
  datatype Entry = Entry(fields: map<string, nat>, reserved: set<nat>, next: nat)

  type Ledger = map<string, Entry>

  /** One command of an API snapshot: its name and parameter names. */
  datatype Command = Command(name: string, properties: set<string>)

  const FRESH := Entry(map[], {}, 2)

  function Max(a: nat, b: nat): nat { if a < b then b else a }

  /** The largest of `least` and the elements of `s`. */
  function Highest(s: set<nat>, least: nat): (h: nat)
    ensures least <= h && forall x :: x in s ==> x <= h
    ensures h == least || h in s
  {
    if s == {} then least
    else
      BoundExists(s);
      BoundUnique(s);
      var m :| m in s && IsBound(m, s);
      Max(least, m)
  }

  predicate IsBound(m: nat, s: set<nat>) {
    m in s && forall x :: x in s ==> x <= m
  }

  lemma {:induction false} BoundExists(s: set<nat>)
    ensures s == {} || exists m :: IsBound(m, s)
    decreases |s|
  {
    if s != {} {
      var x :| x in s;
      BoundExists(s - {x});
      if s - {x} == {} {
        assert IsBound(x, s);
      } else {
        var m :| IsBound(m, s - {x});
        var top := if m < x then x else m;
        assert forall y :: y in s ==> y == x || y in s - {x};
        assert IsBound(top, s);
      }
    }
  }

  lemma {:induction false} BoundUnique(s: set<nat>)
    ensures forall a, b :: IsBound(a, s) && IsBound(b, s) ==> a == b
  {
  }

  // ----- One command, one snapshot -----

  /** The probing loop: the first number from `n` on that is not in use. */
  function Probe(n: nat, used: set<nat>): (r: nat)
    ensures n <= r && r !in used
    decreases |used|
  {
    if n in used then
      assert |used - {n}| < |used|;
      Probe(n + 1, used - {n})
    else n
  }

  lemma {:induction false} ProbeStep(n: nat, used: set<nat>)
    ensures Probe(n, used) == if n in used then Probe(n + 1, used - {n}) else n
    ensures n in used ==> |used - {n}| < |used|
  {
  }

  /** Every number it passes over is in use. */
  lemma {:induction false} ProbeIsFirst(n: nat, used: set<nat>, x: nat)
    requires n <= x < Probe(n, used)
    ensures x in used
    decreases |used|
  {
    if n < x {
      assert |used - {n}| < |used|;
      ProbeIsFirst(n + 1, used - {n}, x);
    }
  }

  datatype Numbering = Numbering(fields: map<string, nat>, next: nat)

  /** New parameters, in order, take the next free numbers. */
  function Assign(params: seq<string>, fields: map<string, nat>, reserved: set<nat>, next: nat): Numbering {
    if params == [] then Numbering(fields, next)
    else if params[0] in fields then Assign(params[1..], fields, reserved, next)
    else
      var n := Probe(next, reserved + fields.Values);
      Assign(params[1..], fields[params[0] := n], reserved, n + 1)
  }

  lemma {:induction false} AssignForward(params: seq<string>, fields: map<string, nat>, reserved: set<nat>, next: nat)
    ensures next <= Assign(params, fields, reserved, next).next
    decreases |params|
  {
    if params != [] {
      if params[0] in fields {
        AssignForward(params[1..], fields, reserved, next);
      } else {
        var n := Probe(next, reserved + fields.Values);
        AssignForward(params[1..], fields[params[0] := n], reserved, n + 1);
      }
    }
  }

  function Keep(fields: map<string, nat>, params: set<string>): map<string, nat> {
    map p | p in fields && p in params :: fields[p]
  }

  /** The numbers of the parameters that are gone. */
  function Retired(fields: map<string, nat>, params: set<string>): set<nat> {
    set p | p in fields && p !in params :: fields[p]
  }

  function Close(fields: map<string, nat>, reserved: set<nat>, next: nat): Entry
    requires next >= 1
  {
    Entry(fields, reserved, Max(next, Highest(fields.Values + reserved, next - 1) + 1))
  }

  /** What one snapshot makes of one command's entry; `params` is None when the command is
      not in the snapshot. */
  function Step(prior: Entry, params: Option<set<string>>): Entry {
    var next := Max(prior.next, 2);
    match params
    case None => Close(prior.fields, prior.reserved, next)
    case Some(ps) =>
      AssignForward(Sorted(ps), Keep(prior.fields, ps), prior.reserved + Retired(prior.fields, ps), next);
      var reserved := prior.reserved + Retired(prior.fields, ps);
      var numbering := Assign(Sorted(ps), Keep(prior.fields, ps), reserved, next);
      Close(numbering.fields, reserved, numbering.next)
  }

  // ----- A whole snapshot -----

  /** `{c["name"]: sorted(c["properties"]) for c in commands}`: a repeated name, the last wins. */
  function ParamsByCommand(commands: seq<Command>): map<string, set<string>> {
    if commands == [] then map[]
    else
      var last := commands[|commands| - 1];
      ParamsByCommand(commands[..|commands| - 1])[last.name := last.properties]
  }

  function Prior(existing: Ledger, name: string): Entry {
    if name in existing then existing[name] else FRESH
  }

  function Find(params: map<string, set<string>>, name: string): Option<set<string>> {
    if name in params then Some(params[name]) else None
  }

  function NextLedger(commands: seq<Command>, existing: Ledger): Ledger {
    var params := ParamsByCommand(commands);
    map name | name in params.Keys + existing.Keys :: Step(Prior(existing, name), Find(params, name))
  }

  // ----- The loops of the source -----

  /** Parameters that are gone give up their numbers, which are retired. */
  method Retire(prior: Entry, params: set<string>) returns (fields: map<string, nat>, reserved: set<nat>)
    ensures fields == Keep(prior.fields, params)
    ensures reserved == prior.reserved + Retired(prior.fields, params)
  {
    fields, reserved := prior.fields, prior.reserved;
    var gone := prior.fields.Keys - params;
    var left := gone;
    while left != {}
      invariant left <= gone
      invariant fields == prior.fields - (gone - left)
      invariant reserved == prior.reserved + set p | p in gone - left :: prior.fields[p]
      decreases left
    {
      LeastExists(left);
      LeastUnique(left);
      var param :| IsLeast(param, left);
      reserved := reserved + {fields[param]};
      fields := fields - {param};
      left := left - {param};
      assert gone - left == gone - (left + {param}) + {param};
    }
    assert gone - left == gone;
  }

  method AssignNew(params: seq<string>, kept: map<string, nat>, reserved: set<nat>, from: nat)
    returns (fields: map<string, nat>, next: nat)
    ensures Numbering(fields, next) == Assign(params, kept, reserved, from)
  {
    fields, next := kept, from;
    var j := 0;
    while j < |params|
      invariant j <= |params|
      invariant Assign(params[j..], fields, reserved, next) == Assign(params, kept, reserved, from)
    {
      assert params[j..][0] == params[j] && params[j..][1..] == params[j + 1..];
      if params[j] !in fields {
        next := NextFree(next, reserved, fields);
        fields := fields[params[j] := next];
        next := next + 1;
      }
      j := j + 1;
    }
    assert params[|params|..] == [];
  }

  method EntryFor(prior: Entry, params: Option<set<string>>) returns (entry: Entry)
    ensures entry == Step(prior, params)
  {
    hide Assign, Keep, Retired, Close;
    var fields := prior.fields;
    var reserved := prior.reserved;
    var next := Max(prior.next, 2);
    if params.Some? {
      fields, reserved := Retire(prior, params.value);
      AssignForward(Sorted(params.value), fields, reserved, next);
      fields, next := AssignNew(Sorted(params.value), fields, reserved, next);
    }
    entry := Close(fields, reserved, next);
  }

  method NextFree(from: nat, reserved: set<nat>, fields: map<string, nat>) returns (next: nat)
    ensures next == Probe(from, reserved + fields.Values)
  {
    hide Probe;
    next := from;
    ghost var used: set<nat> := reserved + fields.Values;
    ghost var left: set<nat> := used;
    while next in reserved || next in fields.Values
      invariant Probe(next, left) == Probe(from, used)
      invariant left <= used
      invariant forall x :: x in used && x !in left ==> x < next
      decreases |left|
    {
      ProbeStep(next, left);
      left := left - {next};
      next := next + 1;
    }
    ProbeStep(next, left);
  }

  ghost function Items(s: seq<string>): set<string> {
    set x | x in s
  }

  method LedgerEntries(commands: seq<Command>, existing: Ledger) returns (out: Ledger)
    ensures out == NextLedger(commands, existing)
  {
    hide Step, Prior, Find, ParamsByCommand;
    var params := ParamsByCommand(commands);
    var all := params.Keys + existing.Keys;
    var left := all;
    out := map[];
    while left != {}
      invariant left <= all && out.Keys == all - left
      invariant forall name :: name in out ==> out[name] == Step(Prior(existing, name), Find(params, name))
      decreases left
    {
      LeastExists(left);
      LeastUnique(left);
      var name :| IsLeast(name, left);
      var entry := EntryFor(Prior(existing, name), Find(params, name));
      out := out[name := entry];
      left := left - {name};
    }
    assert out.Keys == all;
  }

  // ----- What every step keeps -----

  /** The invariant of a numbering: distinct numbers from 2 up, none of them retired, and
      everything issued or retired below `next`. */
  ghost predicate Sound(fields: map<string, nat>, reserved: set<nat>, next: nat) {
    && 2 <= next
    && (forall p :: p in fields ==> 2 <= fields[p] < next && fields[p] !in reserved)
    && (forall n :: n in reserved ==> 2 <= n < next)
    && (forall p, q :: p in fields && q in fields && fields[p] == fields[q] ==> p == q)
  }

  ghost predicate Valid(e: Entry) {
    Sound(e.fields, e.reserved, e.next)
  }

  ghost predicate ValidLedger(ledger: Ledger) {
    forall name :: name in ledger ==> Valid(ledger[name])
  }

  lemma {:induction false} ItemsSplit(params: seq<string>)
    requires params != []
    ensures Items(params) == {params[0]} + Items(params[1..])
  {
    assert params == [params[0]] + params[1..];
  }

  lemma {:induction false} AssignKeeps(params: seq<string>, fields: map<string, nat>, reserved: set<nat>, next: nat)
    ensures var r := Assign(params, fields, reserved, next);
            && next <= r.next
            && r.fields.Keys == fields.Keys + Items(params)
            && (forall p :: p in fields ==> r.fields[p] == fields[p])
    decreases |params|
  {
    hide Items;
    if params == [] {
      assert Items(params) == {} by { NoItems(); }
    } else {
      ItemsSplit(params);
      if params[0] in fields {
        AssignKeeps(params[1..], fields, reserved, next);
      } else {
        var n := Probe(next, reserved + fields.Values);
        AssignKeeps(params[1..], fields[params[0] := n], reserved, n + 1);
      }
    }
  }

  lemma {:induction false} NoItems()
    ensures Items([]) == {}
  {
  }

  lemma {:induction false} NewIsSound(fields: map<string, nat>, reserved: set<nat>, next: nat, param: string)
    requires Sound(fields, reserved, next) && param !in fields
    ensures var n := Probe(next, reserved + fields.Values);
            Sound(fields[param := n], reserved, n + 1)
  {
    var n := Probe(next, reserved + fields.Values);
    assert forall p :: p in fields ==> fields[p] < n;
  }

  lemma {:induction false} AssignSound(params: seq<string>, fields: map<string, nat>, reserved: set<nat>, next: nat)
    requires Sound(fields, reserved, next)
    ensures var r := Assign(params, fields, reserved, next); Sound(r.fields, reserved, r.next)
    decreases |params|
  {
    hide Sound;
    if params != [] {
      if params[0] in fields {
        AssignSound(params[1..], fields, reserved, next);
      } else {
        var n := Probe(next, reserved + fields.Values);
        NewIsSound(fields, reserved, next, params[0]);
        AssignSound(params[1..], fields[params[0] := n], reserved, n + 1);
      }
    }
  }

  /** On any prior entry: no number is lost, `next` does not go back, and the fields are
      those of the snapshot. */
  lemma {:induction false} StepKeeps(prior: Entry, params: Option<set<string>>)
    ensures var now := Step(prior, params);
            && prior.next <= now.next
            && prior.reserved <= now.reserved
            && (forall p :: p in prior.fields ==>
                  if p in now.fields then now.fields[p] == prior.fields[p] else prior.fields[p] in now.reserved)
            && (params.Some? ==> now.fields.Keys == params.value)
  {
    hide Assign, Items;
    if params.Some? {
      var ps := params.value;
      var reserved := prior.reserved + Retired(prior.fields, ps);
      AssignKeeps(Sorted(ps), Keep(prior.fields, ps), reserved, Max(prior.next, 2));
      assert Items(Sorted(ps)) == ps by { SortedItems(ps); }
      assert Keep(prior.fields, ps).Keys <= ps;
    }
  }

  lemma {:induction false} SortedItems(ps: set<string>)
    ensures Items(Sorted(ps)) == ps
  {
  }

  /** A step of a valid entry is valid. */
  lemma {:induction false} StepValid(prior: Entry, params: Option<set<string>>)
    requires Valid(prior)
    ensures Valid(Step(prior, params))
  {
    hide Assign;
    var next := Max(prior.next, 2);
    if params.Some? {
      var ps := params.value;
      var reserved := prior.reserved + Retired(prior.fields, ps);
      KeptIsSound(prior, ps);
      AssignSound(Sorted(ps), Keep(prior.fields, ps), reserved, next);
      var numbering := Assign(Sorted(ps), Keep(prior.fields, ps), reserved, next);
      CloseIsTight(numbering.fields, reserved, numbering.next);
    } else {
      CloseIsTight(prior.fields, prior.reserved, next);
    }
  }

  lemma {:induction false} KeptIsSound(prior: Entry, ps: set<string>)
    requires Valid(prior)
    ensures Sound(Keep(prior.fields, ps), prior.reserved + Retired(prior.fields, ps), prior.next)
  {
  }

  lemma {:induction false} CloseIsTight(fields: map<string, nat>, reserved: set<nat>, next: nat)
    requires next >= 1
    requires Sound(fields, reserved, next)
    ensures Close(fields, reserved, next) == Entry(fields, reserved, next)
  {
  }

  /** A command that is absent from a snapshot keeps its whole entry. */
  lemma {:induction false} AbsenceKeeps(e: Entry)
    requires Valid(e)
    ensures Step(e, None) == e
  {
    CloseIsTight(e.fields, e.reserved, e.next);
  }

  lemma {:induction false} AssignNothing(params: seq<string>, fields: map<string, nat>, reserved: set<nat>, next: nat)
    requires forall p :: p in params ==> p in fields
    ensures Assign(params, fields, reserved, next) == Numbering(fields, next)
    decreases |params|
  {
    if params != [] { AssignNothing(params[1..], fields, reserved, next); }
  }

  /** A snapshot with exactly the numbered parameters changes nothing. */
  lemma {:induction false} SameParamsKeep(e: Entry)
    requires Valid(e)
    ensures Step(e, Some(e.fields.Keys)) == e
  {
    var ps := e.fields.Keys;
    assert Keep(e.fields, ps) == e.fields && Retired(e.fields, ps) == {};
    AssignNothing(Sorted(ps), e.fields, e.reserved, e.next);
    assert e.reserved + {} == e.reserved;
    CloseIsTight(e.fields, e.reserved, e.next);
  }

  /** Regenerating from the same snapshot changes nothing. */
  lemma {:induction false} RegenerateIsIdempotent(commands: seq<Command>, existing: Ledger)
    requires ValidLedger(existing)
    ensures var now := NextLedger(commands, existing);
            ValidLedger(now) && NextLedger(commands, now) == now
  {
    hide Step;
    var params := ParamsByCommand(commands);
    var now := NextLedger(commands, existing);
    forall name | name in now
      ensures Valid(now[name]) && Step(now[name], Find(params, name)) == now[name]
    {
      FreshIsValid();
      StepKeeps(Prior(existing, name), Find(params, name));
      StepValid(Prior(existing, name), Find(params, name));
      if name in params {
        SameParamsKeep(now[name]);
      } else {
        AbsenceKeeps(now[name]);
      }
    }
  }

  lemma {:induction false} FreshIsValid()
    ensures Valid(FRESH)
  {
  }

  // ----- Whole histories -----

  /** The ledger after a history of snapshots, starting from none. */
  function After(history: seq<seq<Command>>): Ledger {
    if history == [] then map[]
    else NextLedger(history[|history| - 1], After(history[..|history| - 1]))
  }

  lemma {:induction false} HistoryValid(history: seq<seq<Command>>)
    ensures ValidLedger(After(history))
    decreases |history|
  {
    if history != [] {
      HistoryValid(history[..|history| - 1]);
      RegenerateIsIdempotent(history[|history| - 1], After(history[..|history| - 1]));
    }
  }

  /** Number `n` belongs to parameter `p`, or has been retired. */
  ghost predicate BoundOrRetired(e: Entry, p: string, n: nat) {
    (p in e.fields && e.fields[p] == n) || n in e.reserved
  }

  lemma {:induction false} HistoryStep(history: seq<seq<Command>>, i: nat, name: string)
    requires i < |history| && name in After(history[..i])
    ensures name in After(history[..i + 1])
    ensures After(history[..i + 1])[name] ==
            Step(After(history[..i])[name], Find(ParamsByCommand(history[i]), name))
  {
    hide Step, ParamsByCommand;
    assert history[..i + 1][..i] == history[..i];
    assert After(history[..i + 1]) == NextLedger(history[i], After(history[..i]));
  }

  /** A number once issued or retired is, at every later moment, bound to the same parameter
      or retired; what is retired stays so; `next` never decreases; no command is dropped. */
  lemma {:induction false} NumbersAreForever(history: seq<seq<Command>>, i: nat, j: nat, name: string)
    requires i <= j <= |history| && name in After(history[..i])
    ensures name in After(history[..j])
    ensures var then', now := After(history[..i])[name], After(history[..j])[name];
            && (forall p :: p in then'.fields ==> BoundOrRetired(now, p, then'.fields[p]))
            && then'.reserved <= now.reserved
            && then'.next <= now.next
    decreases j - i
  {
    hide Step, After;
    if i < j {
      NumbersAreForever(history, i, j - 1, name);
      HistoryStep(history, j - 1, name);
      var params := Find(ParamsByCommand(history[j - 1]), name);
      var before := After(history[..j - 1])[name];
      StepKeeps(before, params);
      forall p | p in After(history[..i])[name].fields
        ensures BoundOrRetired(After(history[..j])[name], p, After(history[..i])[name].fields[p])
      {
        assert BoundOrRetired(before, p, After(history[..i])[name].fields[p]);
      }
    }
  }

  /** Main result. Over any history a field number of a command names one parameter only. */
  lemma {:induction false} OneParameterPerNumber(history: seq<seq<Command>>, i: nat, j: nat,
      name: string, p: string, q: string)
    requires i <= j <= |history|
    requires name in After(history[..i]) && p in After(history[..i])[name].fields
    requires name in After(history[..j]) && q in After(history[..j])[name].fields
    requires After(history[..i])[name].fields[p] == After(history[..j])[name].fields[q]
    ensures p == q
  {
    hide After;
    NumbersAreForever(history, i, j, name);
    HistoryValid(history[..j]);
    var now := After(history[..j])[name];
    assert Valid(now);
    assert BoundOrRetired(now, p, After(history[..i])[name].fields[p]);
  }

  /** A command that vanishes for any number of snapshots and then returns with the same
      parameters has the same entry as before. */
  lemma {:induction false} ReturnKeepsNumbers(history: seq<seq<Command>>, i: nat, j: nat, name: string)
    requires i < j < |history| && name in After(history[..i])
    requires forall k :: i <= k < j ==> name !in ParamsByCommand(history[k])
    requires name in ParamsByCommand(history[j])
    requires ParamsByCommand(history[j])[name] == After(history[..i])[name].fields.Keys
    ensures name in After(history[..j + 1])
    ensures After(history[..j + 1])[name] == After(history[..i])[name]
  {
    hide Step, After;
    AbsentThroughout(history, i, j, name);
    HistoryStep(history, j, name);
    HistoryValid(history[..j]);
    SameParamsKeep(After(history[..j])[name]);
  }

  lemma {:induction false} AbsentThroughout(history: seq<seq<Command>>, i: nat, j: nat, name: string)
    requires i <= j <= |history| && name in After(history[..i])
    requires forall k :: i <= k < j ==> name !in ParamsByCommand(history[k])
    ensures name in After(history[..j]) && After(history[..j])[name] == After(history[..i])[name]
    decreases j - i
  {
    hide Step, After;
    if i < j {
      AbsentThroughout(history, i, j - 1, name);
      HistoryStep(history, j - 1, name);
      HistoryValid(history[..j - 1]);
      AbsenceKeeps(After(history[..j - 1])[name]);
    }
  }
}
