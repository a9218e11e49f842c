/** The two readers of the ledger: `numbered_fields`, which numbers the fields of a request
    message, and the append-only check of `code-verify.py`. */
module LedgerConsumers {
  import opened Text
  import opened Ledger

  // ----- numbered_fields -----

  function NumberOf(entry: Entry, param: string): nat {
    if param in entry.fields then entry.fields[param] else 0
  }

  /** First pass: recorded numbers above 1. */
  function Recorded(params: seq<string>, entry: Entry, given: map<nat, string>): map<nat, string> {
    if params == [] then given
    else if NumberOf(entry, params[0]) > 1 then
      Recorded(params[1..], entry, given[NumberOf(entry, params[0]) := params[0]])
    else Recorded(params[1..], entry, given)
  }

  function Pending(params: seq<string>, entry: Entry): seq<string> {
    if params == [] then []
    else (if NumberOf(entry, params[0]) > 1 then [] else [params[0]]) + Pending(params[1..], entry)
  }

  /** Second pass: the rest are appended after the largest number in sight. */
  function Append(pending: seq<string>, top: nat, given: map<nat, string>): map<nat, string> {
    if pending == [] then given else Append(pending[1..], top + 1, given[top + 1 := pending[0]])
  }

  function TopOf(entry: Entry): nat {
    Highest(entry.reserved + entry.fields.Values, 1)
  }

  function NumberedFields(props: set<string>, entry: Entry): map<nat, string> {
    Append(Pending(Sorted(props), entry), TopOf(entry), Recorded(Sorted(props), entry, map[]))
  }

  method RecordNumbers(params: seq<string>, entry: Entry) returns (given: map<nat, string>, pending: seq<string>)
    ensures given == Recorded(params, entry, map[])
    ensures pending == Pending(params, entry)
  {
    hide NumberOf;
    pending := [];
    given := map[];
    var i := 0;
    while i < |params|
      invariant i <= |params|
      invariant Recorded(params[i..], entry, given) == Recorded(params, entry, map[])
      invariant pending + Pending(params[i..], entry) == Pending(params, entry)
    {
      ghost var rest := Pending(params[i + 1..], entry);
      assert params[i..][0] == params[i] && params[i..][1..] == params[i + 1..];
      var number := NumberOf(entry, params[i]);
      if number > 1 {
        given := given[number := params[i]];
      } else {
        assert pending + ([params[i]] + rest) == (pending + [params[i]]) + rest;
        pending := pending + [params[i]];
      }
      i := i + 1;
    }
    assert params[|params|..] == [];
  }

  method NumberFields(props: set<string>, entry: Entry) returns (given: map<nat, string>)
    ensures given == NumberedFields(props, entry)
  {
    hide TopOf, Recorded, Pending, Sorted;
    var next := TopOf(entry);
    var pending;
    given, pending := RecordNumbers(Sorted(props), entry);
    var j := 0;
    assert pending[0..] == pending;
    while j < |pending|
      invariant j <= |pending|
      invariant Append(pending[j..], next, given) == NumberedFields(props, entry)
    {
      assert pending[j..][0] == pending[j] && pending[j..][1..] == pending[j + 1..];
      next := next + 1;
      given := given[next := pending[j]];
      j := j + 1;
    }
    assert pending[|pending|..] == [];
  }

  /** `given` numbers exactly the parameters `done`, each once, with numbers between 2 and
      `top` that are not reserved, and keeps every recorded number. */
  ghost predicate Numbers(given: map<nat, string>, entry: Entry, done: set<string>, top: nat) {
    && (forall n :: n in given ==> 2 <= n <= top && n !in entry.reserved && given[n] in done)
    && (forall m, n :: m in given && n in given && given[m] == given[n] ==> m == n)
    && (forall p :: p in done ==> exists n :: n in given && given[n] == p)
    && (forall p :: p in done && p in entry.fields ==>
          entry.fields[p] in given && given[entry.fields[p]] == p)
  }

  lemma {:induction false} NumbersGrow(given: map<nat, string>, entry: Entry, done: set<string>, top: nat, n: nat, p: string)
    requires Numbers(given, entry, done, top) && p !in done
    requires 2 <= n && n !in given && n !in entry.reserved
    requires p in entry.fields ==> entry.fields[p] == n
    ensures Numbers(given[n := p], entry, done + {p}, Max(top, n))
  {
    var more := given[n := p];
    assert more[n] == p;
    forall q | q in done + {p}
      ensures exists m :: m in more && more[m] == q
    {
      if q in done {
        var m :| m in given && given[m] == q;
        assert more[m] == q;
      }
    }
  }

  ghost predicate Distinct(params: seq<string>, done: set<string>) {
    && (forall i :: 0 <= i < |params| ==> params[i] !in done)
    && (forall i, j :: 0 <= i < j < |params| ==> params[i] != params[j])
  }

  lemma {:induction false} RecordedNumbers(params: seq<string>, entry: Entry, given: map<nat, string>, done: set<string>)
    requires Valid(entry) && Distinct(params, done) && done <= entry.fields.Keys
    requires Numbers(given, entry, done, TopOf(entry))
    ensures Numbers(Recorded(params, entry, given), entry, done + Recording(params, entry), TopOf(entry))
    decreases |params|
  {
    hide TopOf, Numbers, Recording;
    RecordingStep(params, entry);
    if params == [] {
      assert done + {} == done;
    } else {
      var p := params[0];
      TailDistinct(params, done);
      if p in entry.fields {
        InTop(entry, p);
        FreeNumber(given, entry, done, p);
        NumbersGrow(given, entry, done, TopOf(entry), entry.fields[p], p);
        RecordedNumbers(params[1..], entry, given[entry.fields[p] := p], done + {p});
        assert done + {p} + Recording(params[1..], entry) == done + ({p} + Recording(params[1..], entry));
      } else {
        assert {} + Recording(params[1..], entry) == Recording(params[1..], entry);
        RecordedNumbers(params[1..], entry, given, done);
      }
    }
  }

  lemma {:induction false} InTop(entry: Entry, p: string)
    requires Valid(entry) && p in entry.fields
    ensures 1 < entry.fields[p] <= TopOf(entry) && entry.fields[p] !in entry.reserved
  {
    assert entry.fields[p] in entry.fields.Values;
  }

  lemma {:induction false} TailDistinct(params: seq<string>, done: set<string>)
    requires params != [] && Distinct(params, done)
    ensures Distinct(params[1..], done) && Distinct(params[1..], done + {params[0]}) && params[0] !in done
  {
  }

  /** The parameters of the list that have a number. */
  ghost function Recording(params: seq<string>, entry: Entry): set<string> {
    set p | p in params && p in entry.fields
  }

  lemma {:induction false} RecordingStep(params: seq<string>, entry: Entry)
    ensures params == [] ==> Recording(params, entry) == {}
    ensures params != [] ==>
              Recording(params, entry)
              == (if params[0] in entry.fields then {params[0]} else {}) + Recording(params[1..], entry)
  {
    if params != [] { assert params == [params[0]] + params[1..]; }
  }

  lemma {:induction false} PendingAre(params: seq<string>, entry: Entry, done: set<string>)
    requires Valid(entry) && Distinct(params, done)
    ensures Distinct(Pending(params, entry), done)
    ensures Items(Pending(params, entry)) == Items(params) - entry.fields.Keys
    decreases |params|
  {
    hide Items;
    if params == [] {
      NoItems();
    } else {
      var rest := Pending(params[1..], entry);
      TailDistinct(params, done);
      ItemsSplit(params);
      if params[0] in entry.fields {
        PendingAre(params[1..], entry, done);
        assert Pending(params, entry) == rest;
      } else {
        PendingAre(params[1..], entry, done + {params[0]});
        assert Pending(params, entry) == [params[0]] + rest && ([params[0]] + rest)[1..] == rest;
        ItemsSplit([params[0]] + rest);
      }
    }
  }

  lemma {:induction false} FreeNumber(given: map<nat, string>, entry: Entry, done: set<string>, p: string)
    requires Valid(entry) && done <= entry.fields.Keys && p in entry.fields && p !in done
    requires Numbers(given, entry, done, TopOf(entry))
    ensures entry.fields[p] !in given
  {
  }

  lemma {:induction false} AboveTop(given: map<nat, string>, entry: Entry, done: set<string>, top: nat)
    requires Numbers(given, entry, done, top)
    ensures top + 1 !in given
  {
  }

  lemma {:induction false} AppendNumbers(pending: seq<string>, top: nat, given: map<nat, string>, entry: Entry, done: set<string>)
    requires Distinct(pending, done) && Numbers(given, entry, done, top)
    requires 1 <= top && (forall n :: n in entry.reserved ==> n <= top)
    requires forall i :: 0 <= i < |pending| ==> pending[i] !in entry.fields
    ensures Numbers(Append(pending, top, given), entry, done + Items(pending), top + |pending|)
    decreases |pending|
  {
    hide Numbers, Items, Distinct;
    if pending == [] {
      NoItems();
      assert done + Items(pending) == done;
    } else {
      TailDistinct(pending, done);
      ItemsSplit(pending);
      AboveTop(given, entry, done, top);
      NumbersGrow(given, entry, done, top, top + 1, pending[0]);
      AppendNumbers(pending[1..], top + 1, given[top + 1 := pending[0]], entry, done + {pending[0]});
      assert done + {pending[0]} + Items(pending[1..]) == done + Items(pending);
    }
  }

  lemma {:induction false} SortedDistinct(props: set<string>)
    ensures Distinct(Sorted(props), {})
  {
    var s := Sorted(props);
    forall i, j | 0 <= i < j < |s|
      ensures s[i] != s[j]
    {
      LessTrichotomy(s[i], s[j]);
    }
  }

  lemma {:induction false} NumbersOf(params: seq<string>, entry: Entry)
    requires Valid(entry) && Distinct(params, {})
    ensures Numbers(Append(Pending(params, entry), TopOf(entry), Recorded(params, entry, map[])),
                    entry, Items(params), TopOf(entry) + |Pending(params, entry)|)
  {
    hide TopOf, Recorded, Append, Numbers, Items, Valid, Pending, Distinct, Recording;
    var pending := Pending(params, entry);
    var done := {} + Recording(params, entry);
    PendingAre(params, entry, {});
    NothingNumbered(entry);
    RecordedNumbers(params, entry, map[], {});
    PendingNew(pending, params, entry);
    TopFacts(entry);
    AppendNumbers(pending, TopOf(entry), Recorded(params, entry, map[]), entry, done);
    RecordingOrPending(params, entry);
  }

  lemma {:induction false} RecordingOrPending(params: seq<string>, entry: Entry)
    ensures {} + Recording(params, entry) + (Items(params) - entry.fields.Keys) == Items(params)
  {
  }

  /** Main result. From a valid entry every parameter of the message gets exactly one number;
      the numbers are at least 2 and never reserved; recorded numbers are kept. */
  lemma {:induction false} EveryParameterOnce(props: set<string>, entry: Entry)
    requires Valid(entry)
    ensures exists top :: Numbers(NumberedFields(props, entry), entry, props, top)
  {
    hide TopOf, Recorded, Append, Numbers, Items, Valid, Pending, Sorted, Ascending, Distinct;
    SortedDistinct(props);
    SortedItems(props);
    NumbersOf(Sorted(props), entry);
    assert Numbers(NumberedFields(props, entry), entry, props, TopOf(entry) + |Pending(Sorted(props), entry)|);
  }

  lemma {:induction false} PendingNew(pending: seq<string>, params: seq<string>, entry: Entry)
    requires Items(pending) == Items(params) - entry.fields.Keys && Distinct(pending, {})
    ensures forall i :: 0 <= i < |pending| ==> pending[i] !in entry.fields
    ensures Distinct(pending, {} + Recording(params, entry))
  {
    hide Items;
    forall i | 0 <= i < |pending|
      ensures pending[i] !in entry.fields
    {
      InItems(pending, i);
    }
  }

  lemma {:induction false} InItems(s: seq<string>, i: nat)
    requires i < |s|
    ensures s[i] in Items(s)
  {
  }

  lemma {:induction false} NothingNumbered(entry: Entry)
    ensures Numbers(map[], entry, {}, TopOf(entry))
  {
  }

  lemma {:induction false} TopFacts(entry: Entry)
    ensures 1 <= TopOf(entry) && forall n :: n in entry.reserved ==> n <= TopOf(entry)
  {
  }

  /** The generated message of a snapshot command is the ledger's own numbering, inverted. */
  lemma {:induction false} MessageInvertsLedger(history: seq<seq<Command>>, name: string)
    requires history != [] && name in ParamsByCommand(history[|history| - 1])
    ensures var props := ParamsByCommand(history[|history| - 1])[name];
            var ledger := After(history);
            && name in ledger && ledger[name].fields.Keys == props
            && var message := NumberedFields(props, ledger[name]);
               forall n, p :: (n in message && message[n] == p) <==> (p in props && ledger[name].fields[p] == n)
  {
    hide NumberedFields, Step, After;
    var n := |history| - 1;
    HistoryValid(history);
    HistoryValid(history[..n]);
    assert After(history) == NextLedger(history[n], After(history[..n])) by { AfterStep(history); }
    var prior := Prior(After(history[..n]), name);
    StepKeeps(prior, Find(ParamsByCommand(history[n]), name));
    var entry := After(history)[name];
    EveryParameterOnce(entry.fields.Keys, entry);
    var message := NumberedFields(entry.fields.Keys, entry);
    var top :| Numbers(message, entry, entry.fields.Keys, top);
    forall m | m in message
      ensures entry.fields[message[m]] == m
    {
      assert message[entry.fields[message[m]]] == message[m];
    }
  }

  lemma {:induction false} AfterStep(history: seq<seq<Command>>)
    requires history != []
    ensures After(history) == NextLedger(history[|history| - 1], After(history[..|history| - 1]))
  {
  }

  // ----- The append-only check -----

  datatype Finding =
    | Dropped(name: string)
    | Lost(name: string, param: string, number: nat)
    | Moved(name: string, param: string, number: nat, given: nat)
    | NextBackwards(name: string)

  /** What the check reports: `was` and `now` are the committed and the new ledger. */
  ghost predicate IsFinding(was: Ledger, now: Ledger, f: Finding) {
    f.name in was &&
    match f
    case Dropped(name) => name !in now
    case Lost(name, param, number) =>
      && name in now && param in was[name].fields && number == was[name].fields[param]
      && param !in now[name].fields && number !in now[name].reserved
    case Moved(name, param, number, given) =>
      && name in now && param in was[name].fields && number == was[name].fields[param]
      && param in now[name].fields && given == now[name].fields[param] && given != number
    case NextBackwards(name) => name in now && now[name].next < was[name].next
  }

  method FieldFindings(name: string, was: Entry, now: Entry) returns (out: seq<Finding>)
    ensures forall f :: f in out <==> f.name == name && IsFinding(map[name := was], map[name := now], f) && !f.NextBackwards?
  {
    out := [];
    var left := was.fields.Keys;
    while left != {}
      invariant left <= was.fields.Keys
      invariant forall f :: f in out <==>
                  && f.name == name && (f.Lost? || f.Moved?) && f.param !in left
                  && IsFinding(map[name := was], map[name := now], f)
      decreases left
    {
      var param :| param in left;
      var number := was.fields[param];
      if param !in now.fields {
        if number !in now.reserved {
          out := out + [Lost(name, param, number)];
        }
      } else if now.fields[param] != number {
        out := out + [Moved(name, param, number, now.fields[param])];
      }
      left := left - {param};
    }
  }

  method ProtoRenumberViolations(was: Ledger, now: Ledger) returns (out: seq<Finding>)
    ensures forall f :: f in out <==> IsFinding(was, now, f)
  {
    out := [];
    var left := was.Keys;
    while left != {}
      invariant left <= was.Keys
      invariant forall f :: f in out <==> f.name !in left && IsFinding(was, now, f)
      decreases left
    {
      var name :| name in left;
      if name !in now {
        out := out + [Dropped(name)];
      } else {
        var fields := FieldFindings(name, was[name], now[name]);
        var next := if now[name].next < was[name].next then [NextBackwards(name)] else [];
        assert forall f: Finding :: f in fields + next <==> f.name == name && IsFinding(was, now, f);
        out := out + (fields + next);
      }
      left := left - {name};
    }
  }

  ghost predicate Accepted(was: Ledger, now: Ledger) {
    forall f :: !IsFinding(was, now, f)
  }

  /** Whatever ledger the generator starts from, valid or not, the check accepts its result. */
  lemma {:induction false} GeneratorIsAccepted(commands: seq<Command>, existing: Ledger)
    ensures Accepted(existing, NextLedger(commands, existing))
  {
    hide Step;
    var now := NextLedger(commands, existing);
    forall f
      ensures !IsFinding(existing, now, f)
    {
      if f.name in existing {
        StepKeeps(existing[f.name], Find(ParamsByCommand(commands), f.name));
      }
    }
  }

  /** The check alone does not make the ledger append-only: it compares `fields` and `next`
      and never the retired numbers, so it accepts a valid ledger that takes a retired number
      out of `reserved` and issues it again. */
  lemma {:induction false} CheckMissesReissue()
    ensures var was := map["c" := Entry(map[], {2}, 3)];
            var now := map["c" := Entry(map["b" := 2], {}, 3)];
            && ValidLedger(was) && ValidLedger(now) && Accepted(was, now)
            && !BoundOrRetired(now["c"], "a", 2)
  {
  }

  /** A live parameter keeps its number, a removed one leaves it retired, and what is retired
      stays retired. */
  ghost predicate AppendOnly(was: Ledger, now: Ledger) {
    forall name :: name in was ==>
      && name in now
      && was[name].next <= now[name].next
      && was[name].reserved <= now[name].reserved
      && forall p :: p in was[name].fields ==>
           if p in now[name].fields then now[name].fields[p] == was[name].fields[p]
           else was[name].fields[p] in now[name].reserved
  }

  /** Exactly when acceptance does mean append-only: when no number has left `reserved`. */
  lemma {:induction false} AcceptedIsAppendOnly(was: Ledger, now: Ledger)
    ensures AppendOnly(was, now) <==>
            Accepted(was, now) &&
            forall name :: name in was && name in now ==> was[name].reserved <= now[name].reserved
  {
    if Accepted(was, now) {
      forall name | name in was
        ensures name in now && was[name].next <= now[name].next
        ensures forall p :: p in was[name].fields ==>
                  if p in now[name].fields then now[name].fields[p] == was[name].fields[p]
                  else was[name].fields[p] in now[name].reserved
      {
        assert !IsFinding(was, now, Dropped(name));
        assert !IsFinding(was, now, NextBackwards(name));
        forall p | p in was[name].fields
          ensures if p in now[name].fields then now[name].fields[p] == was[name].fields[p]
                  else was[name].fields[p] in now[name].reserved
        {
          assert !IsFinding(was, now, Lost(name, p, was[name].fields[p]));
          if p in now[name].fields {
            assert !IsFinding(was, now, Moved(name, p, was[name].fields[p], now[name].fields[p]));
          }
        }
      }
    }
  }

  /** The check looks at two moments, not at the steps between them: a parameter removed by
      one regeneration and restored by the next is reported as moved, although each step on
      its own is accepted. */
  lemma {:induction false} RemoveAndRestoreIsReported(e: Entry, name: string, p: string)
    requires Valid(e) && p in e.fields
    ensures var removed := Step(e, Some(e.fields.Keys - {p}));
            var restored := Step(removed, Some(e.fields.Keys));
            && p in restored.fields
            && IsFinding(map[name := e], map[name := restored], Moved(name, p, e.fields[p], restored.fields[p]))
  {
    hide Step;
    var removed := Step(e, Some(e.fields.Keys - {p}));
    var restored := Step(removed, Some(e.fields.Keys));
    StepKeeps(e, Some(e.fields.Keys - {p}));
    StepValid(e, Some(e.fields.Keys - {p}));
    StepKeeps(removed, Some(e.fields.Keys));
    StepValid(removed, Some(e.fields.Keys));
    assert e.fields[p] in restored.reserved;
  }

  // ----- The check over a stretch of history -----

  /** No parameter that is numbered at both ends is missing from a snapshot in between that has its command. */
  ghost predicate NoGap(history: seq<seq<Command>>, i: nat, j: nat)
    requires i <= j <= |history|
  {
    forall name, p, k ::
      i <= k < j && name in ParamsByCommand(history[k]) && NumberedAt(history, i, name, p) && NumberedAt(history, j, name, p)
      ==> p in ParamsByCommand(history[k])[name]
  }

  ghost predicate NumberedAt(history: seq<seq<Command>>, i: nat, name: string, p: string)
    requires i <= |history|
  {
    name in After(history[..i]) && p in After(history[..i])[name].fields
  }

  /** A parameter that is never missing keeps its number. */
  lemma {:induction false} PresentKeeps(history: seq<seq<Command>>, i: nat, j: nat, name: string, p: string)
    requires i <= j <= |history| && NumberedAt(history, i, name, p)
    requires forall k :: i <= k < j && name in ParamsByCommand(history[k]) ==> p in ParamsByCommand(history[k])[name]
    ensures NumberedAt(history, j, name, p)
    ensures After(history[..j])[name].fields[p] == After(history[..i])[name].fields[p]
    decreases j - i
  {
    hide Step, After;
    if i < j {
      PresentKeeps(history, i, j - 1, name, p);
      HistoryStep(history, j - 1, name);
      HistoryValid(history[..j - 1]);
      var before := After(history[..j - 1])[name];
      StepKeeps(before, Find(ParamsByCommand(history[j - 1]), name));
      AbsenceKeeps(before);
    }
  }

  /** A parameter that is missing once has its number retired for good. */
  lemma {:induction false} GapRetires(history: seq<seq<Command>>, i: nat, k: nat, j: nat, name: string, p: string)
    requires i <= k < j <= |history| && NumberedAt(history, i, name, p)
    requires name in ParamsByCommand(history[k]) && p !in ParamsByCommand(history[k])[name]
    ensures name in After(history[..j])
    ensures After(history[..i])[name].fields[p] in After(history[..j])[name].reserved
  {
    hide Step, After, ParamsByCommand;
    NumbersAreForever(history, i, k, name);
    var before := After(history[..k])[name];
    assert BoundOrRetired(before, p, After(history[..i])[name].fields[p]);
    HistoryStep(history, k, name);
    StepKeeps(before, Find(ParamsByCommand(history[k]), name));
    NumbersAreForever(history, k + 1, j, name);
  }

  /** Main result on histories: comparing the ledgers of any two moments, the check accepts if and only if no
      parameter that both number was missing from a snapshot of its command in between. */
  lemma {:induction false} AcceptedOverHistory(history: seq<seq<Command>>, i: nat, j: nat)
    requires i <= j <= |history|
    ensures Accepted(After(history[..i]), After(history[..j])) <==> NoGap(history, i, j)
  {
    hide After, ParamsByCommand;
    var was, now := After(history[..i]), After(history[..j]);
    HistoryValid(history[..j]);
    if NoGap(history, i, j) {
      forall f
        ensures !IsFinding(was, now, f)
      {
        if f.name in was {
          NoFinding(history, i, j, f);
        }
      }
    }
    if Accepted(was, now) {
      forall name, p, k | i <= k < j && name in ParamsByCommand(history[k])
                          && NumberedAt(history, i, name, p) && NumberedAt(history, j, name, p)
        ensures p in ParamsByCommand(history[k])[name]
      {
        assert !IsFinding(was, now, Moved(name, p, was[name].fields[p], now[name].fields[p]));
        assert Valid(now[name]);
        if p !in ParamsByCommand(history[k])[name] {
          GapRetires(history, i, k, j, name, p);
        }
      }
    }
  }

  lemma {:induction false} NoFinding(history: seq<seq<Command>>, i: nat, j: nat, f: Finding)
    requires i <= j <= |history| && NoGap(history, i, j) && f.name in After(history[..i])
    ensures !IsFinding(After(history[..i]), After(history[..j]), f)
  {
    hide After, ParamsByCommand;
    var was, now := After(history[..i]), After(history[..j]);
    NumbersAreForever(history, i, j, f.name);
    if (f.Moved? || f.Lost?) && f.param in was[f.name].fields {
      assert BoundOrRetired(now[f.name], f.param, was[f.name].fields[f.param]);
      if f.Moved? && f.param in now[f.name].fields {
        assert NumberedAt(history, i, f.name, f.param) && NumberedAt(history, j, f.name, f.param);
        PresentKeeps(history, i, j, f.name, f.param);
      }
    }
  }

  // ----- Which numbers the rest gets -----

  lemma {:induction false} AppendedAt(pending: seq<string>, top: nat, given: map<nat, string>, i: nat)
    requires i < |pending|
    ensures var out := Append(pending, top, given); top + 1 + i in out && out[top + 1 + i] == pending[i]
    decreases |pending|
  {
    if i == 0 {
      AppendKeeps(pending[1..], top + 1, given[top + 1 := pending[0]], top + 1);
    } else {
      AppendedAt(pending[1..], top + 1, given[top + 1 := pending[0]], i - 1);
    }
  }

  lemma {:induction false} AppendKeeps(pending: seq<string>, top: nat, given: map<nat, string>, n: nat)
    requires n <= top && n in given
    ensures n in Append(pending, top, given) && Append(pending, top, given)[n] == given[n]
    decreases |pending|
  {
    if pending != [] { AppendKeeps(pending[1..], top + 1, given[top + 1 := pending[0]], n); }
  }

  lemma {:induction false} PendingRises(params: seq<string>, entry: Entry)
    requires Ascending(params)
    ensures Ascending(Pending(params, entry))
    ensures forall p :: p in Pending(params, entry) <==> p in params && NumberOf(entry, p) <= 1
  {
    hide NumberOf, Less;
    if params != [] {
      assert params == [params[0]] + params[1..];
      PendingRises(params[1..], entry);
      var rest := Pending(params[1..], entry);
      forall p | p in rest
        ensures Less(params[0], p)
      {
        assert p in params[1..];
        var j :| 0 <= j < |params[1..]| && params[1..][j] == p;
        assert params[j + 1] == p;
      }
    }
  }

  /** On any entry the parameters without a recorded number get, in parameter order and without a gap, the numbers
      behind the largest one that is recorded or reserved. */
  lemma {:induction false} RestIsAppended(props: set<string>, entry: Entry)
    ensures exists rest :: IsAppended(props, entry, rest, NumberedFields(props, entry))
  {
    hide TopOf, Recorded, Sorted, Ascending, Append;
    var rest := Pending(Sorted(props), entry);
    PendingRises(Sorted(props), entry);
    forall i | 0 <= i < |rest|
      ensures StandsBehind(NumberedFields(props, entry), TopOf(entry), rest, i)
    {
      AppendedAt(rest, TopOf(entry), Recorded(Sorted(props), entry, map[]), i);
    }
    forall p
      ensures p in rest <==> p in props && (p !in entry.fields || entry.fields[p] <= 1)
    {
      assert p in rest <==> p in Sorted(props) && NumberOf(entry, p) <= 1;
    }
    assert IsAppended(props, entry, rest, NumberedFields(props, entry));
  }

  /** Entry `i` of the list has the number `i + 1` behind `top`. */
  predicate StandsBehind(given: map<nat, string>, top: nat, rest: seq<string>, i: nat)
    requires i < |rest|
  {
    top + 1 + i in given && given[top + 1 + i] == rest[i]
  }

  /** `rest` lists the parameters without a recorded number, in order, and they stand behind the largest one. */
  ghost predicate IsAppended(props: set<string>, entry: Entry, rest: seq<string>, given: map<nat, string>) {
    && Ascending(rest)
    && (forall p :: p in rest <==> p in props && (p !in entry.fields || entry.fields[p] <= 1))
    && forall i :: 0 <= i < |rest| ==> StandsBehind(given, TopOf(entry), rest, i)
  }

  /** The largest number that is recorded or reserved, and 1 when there is none. */
  lemma {:induction false} TopExactly(entry: Entry, top: nat)
    ensures top == TopOf(entry) <==>
            && top >= 1
            && (forall n :: n in entry.reserved ==> n <= top)
            && (forall p :: p in entry.fields ==> entry.fields[p] <= top)
            && (top == 1 || top in entry.reserved || exists p :: p in entry.fields && entry.fields[p] == top)
  {
    forall p | p in entry.fields
      ensures entry.fields[p] in entry.fields.Values
    {
    }
  }
}
