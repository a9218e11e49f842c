/** The serializer pair the registry generator emits: one guarded `obj.insert` per property,
    one `ss_jsr` lookup per property. The emitted statements are a small syntax with its own
    meaning; the round trip is a theorem about running them. */
module Persistence {
  import opened Text
  import opened Splitting

  datatype Value = Bool(b: bool) | Int(i: int) | Double(r: real) | Str(s: string)

  datatype Type = TBool | TInt | TDouble | TString

  datatype Rule =
    | Always | WhenTrue | WhenFalse | WhenNonEmpty | WhenNonZero | WhenPositive | WhenNonNegative
    | WithProperty(gate: string)

  datatype Transform = Plain | Simplified | PairMin(partner: string) | PairMax(partner: string)

  /** One declared property; its id, its field and its key. */
  datatype Property = Property(
    id: string, field: string, key: string, typ: Type, rule: Rule, invert: bool,
    default: Value, write: Transform, readSimplified: bool)

  /** A dataset: the fields of the struct. */
  type Struct = map<string, Value>

  /** A JSON object. */
  type Json = map<string, Value>

  predicate HasType(v: Value, t: Type) {
    match t
    case TBool => v.Bool?
    case TInt => v.Int?
    case TDouble => v.Double?
    case TString => v.Str?
  }

  // ----- The emitted syntax -----

  datatype Condition = Truthy(f: string) | Falsy(f: string) | NonEmpty(f: string) | NonZero(f: string)
    | Positive(f: string) | NonNegative(f: string)

  datatype WriteExpr = TrueLiteral | Field(f: string) | SimplifiedField(f: string) | Min(f: string, g: string)
    | Max(f: string, g: string)

  datatype WriteStmt = Insert(condition: Option<Condition>, key: string, value: WriteExpr)

  datatype ReadExpr = NotLookup(key: string) | Lookup(key: string, typ: Type, default: Value, simplified: bool)

  // ----- The emitters -----

  function ById(manifest: seq<Property>, id: string): Option<Property> {
    if manifest == [] then None
    else if manifest[0].id == id then Some(manifest[0])
    else ById(manifest[1..], id)
  }

  function FieldOf(manifest: seq<Property>, id: string): string {
    var p := ById(manifest, id);
    if p.Some? then p.value.field else ""
  }

  /** `write_condition` */
  function WriteCondition(p: Property, manifest: seq<Property>): Option<Condition> {
    match p.rule
    case Always => None
    case WhenTrue => Some(Truthy(p.field))
    case WhenFalse => Some(Falsy(p.field))
    case WhenNonEmpty => Some(NonEmpty(p.field))
    case WhenNonZero => Some(NonZero(p.field))
    case WhenPositive => Some(Positive(p.field))
    case WhenNonNegative => Some(NonNegative(p.field))
    case WithProperty(gate) =>
      var g := ById(manifest, gate);
      if g.Some? && g.value.typ == TString then Some(NonEmpty(g.value.field))
      else Some(Truthy(FieldOf(manifest, gate)))
  }

  /** `write_value` */
  function WriteValue(p: Property, manifest: seq<Property>): WriteExpr {
    if p.invert || (p.rule == WhenTrue && p.typ == TBool) then TrueLiteral
    else
      match p.write
      case Plain => Field(p.field)
      case Simplified => SimplifiedField(p.field)
      case PairMin(partner) => Min(p.field, FieldOf(manifest, partner))
      case PairMax(partner) => Max(FieldOf(manifest, partner), p.field)
  }

  function EmitWrite(p: Property, manifest: seq<Property>): WriteStmt {
    Insert(WriteCondition(p, manifest), p.key, WriteValue(p, manifest))
  }

  /** `read_expression` */
  function ReadExpression(p: Property): ReadExpr {
    if p.invert then NotLookup(p.key)
    else Lookup(p.key, p.typ, p.default, p.typ == TString && p.readSimplified)
  }

  // ----- What emitted code does -----

  function FieldValue(d: Struct, f: string): Value {
    if f in d then d[f] else Bool(false)
  }

  predicate IsTruthy(v: Value) {
    match v
    case Bool(b) => b
    case Int(i) => i != 0
    case Double(r) => r != 0.0
    case Str(s) => false
  }

  predicate Holds(c: Option<Condition>, d: Struct) {
    match c
    case None => true
    case Some(Truthy(f)) => IsTruthy(FieldValue(d, f))
    case Some(Falsy(f)) => !IsTruthy(FieldValue(d, f))
    case Some(NonEmpty(f)) => FieldValue(d, f) != Str("")
    case Some(NonZero(f)) => IsTruthy(FieldValue(d, f))
    case Some(Positive(f)) =>
      (match FieldValue(d, f) case Int(i) => i > 0 case Double(r) => r > 0.0 case _ => false)
    case Some(NonNegative(f)) =>
      (match FieldValue(d, f) case Int(i) => i >= 0 case Double(r) => r >= 0.0 case _ => false)
  }

  predicate LessValue(a: Value, b: Value) {
    match (a, b)
    case (Int(x), Int(y)) => x < y
    case (Double(x), Double(y)) => x < y
    case _ => false
  }

  function Eval(e: WriteExpr, d: Struct): Value {
    match e
    case TrueLiteral => Bool(true)
    case Field(f) => FieldValue(d, f)
    case SimplifiedField(f) => (match FieldValue(d, f) case Str(s) => Str(Simplify(s)) case v => v)
    case Min(f, g) => if LessValue(FieldValue(d, g), FieldValue(d, f)) then FieldValue(d, g) else FieldValue(d, f)
    case Max(f, g) => if LessValue(FieldValue(d, f), FieldValue(d, g)) then FieldValue(d, g) else FieldValue(d, f)
  }

  function RunWrites(stmts: seq<WriteStmt>, d: Struct): Json {
    if stmts == [] then map[]
    else
      var n := |stmts| - 1;
      var before := RunWrites(stmts[..n], d);
      if Holds(stmts[n].condition, d) then before[stmts[n].key := Eval(stmts[n].value, d)] else before
  }

  /** `ss_jsr(obj, key, default)` */
  function JsonOr(obj: Json, key: string, default: Value): Value {
    if key in obj then obj[key] else default
  }

  function EvalRead(e: ReadExpr, obj: Json): Value {
    match e
    case NotLookup(key) => Bool(JsonOr(obj, key, Bool(false)) != Bool(true))
    case Lookup(key, typ, default, simplified) =>
      var v := JsonOr(obj, key, default);
      if simplified && v.Str? then Str(Simplify(v.s)) else v
  }

  // ----- `QString::simplified` -----

  function Blank(s: string): string {
    seq(|s|, i requires 0 <= i < |s| => if IsSpace(s[i]) then ' ' else s[i])
  }

  function DropEmpty(words: seq<string>): seq<string> {
    if words == [] then [] else (if words[0] == "" then [] else [words[0]]) + DropEmpty(words[1..])
  }

  /** Whitespace runs become one space, none at either end. */
  function Simplify(s: string): string {
    Join(DropEmpty(Split(Blank(s), ' ')), ' ')
  }

  lemma {:induction false} DropEmptyWords(words: seq<string>, k: nat)
    requires k < |DropEmpty(words)|
    ensures DropEmpty(words)[k] != "" && DropEmpty(words)[k] in words
  {
    if words[0] == "" {
      DropEmptyWords(words[1..], k);
    } else if k > 0 {
      DropEmptyWords(words[1..], k - 1);
    }
  }

  lemma {:induction false} DropEmptyIdle(words: seq<string>)
    requires forall k :: 0 <= k < |words| ==> words[k] != ""
    ensures DropEmpty(words) == words
  {
    if words != [] {
      DropEmptyIdle(words[1..]);
      assert words == [words[0]] + words[1..];
    }
  }

  lemma {:induction false} SplitJoin(words: seq<string>)
    requires words != [] && forall k :: 0 <= k < |words| ==> ' ' !in words[k]
    ensures Split(Join(words, ' '), ' ') == words
  {
    SplitWord(words[0], ' ');
    if |words| > 1 {
      SplitJoin(words[1..]);
      SplitAt(words[0], Join(words[1..], ' '), ' ');
      assert words == [words[0]] + words[1..];
    } else {
      assert words == [words[0]];
    }
  }

  predicate NoOtherSpace(s: string) {
    forall i :: 0 <= i < |s| ==> IsSpace(s[i]) ==> s[i] == ' '
  }

  lemma {:induction false} SplitKeepsChars(s: string, k: nat)
    requires NoOtherSpace(s) && k < |Split(s, ' ')|
    ensures NoOtherSpace(Split(s, ' ')[k])
  {
    if s != [] {
      assert NoOtherSpace(s[1..]);
      if s[0] == ' ' {
        if k > 0 { SplitKeepsChars(s[1..], k - 1); }
      } else if k == 0 {
        SplitKeepsChars(s[1..], 0);
      } else {
        SplitKeepsChars(s[1..], k);
      }
    }
  }

  lemma {:induction false} JoinKeepsChars(words: seq<string>)
    requires forall k :: 0 <= k < |words| ==> NoOtherSpace(words[k])
    ensures NoOtherSpace(Join(words, ' '))
  {
    if |words| > 1 { JoinKeepsChars(words[1..]); }
  }

  /** Simplifying twice is simplifying once. */
  lemma {:induction false} SimplifyIdempotent(s: string)
    ensures Simplify(Simplify(s)) == Simplify(s)
  {
    hide Split, Join, DropEmpty;
    var all := Split(Blank(s), ' ');
    var words := DropEmpty(all);
    forall k | 0 <= k < |words|
      ensures words[k] != "" && ' ' !in words[k] && NoOtherSpace(words[k])
    {
      DropEmptyWords(all, k);
      var j :| 0 <= j < |all| && all[j] == words[k];
      PartsHaveNoSep(Blank(s), ' ', j);
      SplitKeepsChars(Blank(s), j);
    }
    JoinKeepsChars(words);
    assert Blank(Simplify(s)) == Simplify(s);
    if words == [] {
      NothingLeft();
    } else {
      SplitJoin(words);
      DropEmptyIdle(words);
    }
  }

  lemma {:induction false} NothingLeft()
    ensures Join([], ' ') == "" && Simplify("") == ""
  {
    assert Blank("") == "";
  }

  // ----- Running writer and reader -----

  function Writers(props: seq<Property>, manifest: seq<Property>): (stmts: seq<WriteStmt>)
    ensures |stmts| == |props|
  {
    seq(|props|, i requires 0 <= i < |props| => EmitWrite(props[i], manifest))
  }

  /** `serialize` for the declared properties. */
  function Serialize(manifest: seq<Property>, d: Struct): Json {
    RunWrites(Writers(manifest, manifest), d)
  }

  /** One assignment of the emitted reader. */
  function ReadBack(p: Property, obj: Json): Value {
    EvalRead(ReadExpression(p), obj)
  }

  ghost predicate DistinctKeys(manifest: seq<Property>) {
    forall i, j :: 0 <= i < j < |manifest| ==> manifest[i].key != manifest[j].key
  }

  /** With distinct keys the object holds exactly what each statement put there. */
  lemma {:induction false} WrittenAt(stmts: seq<WriteStmt>, d: Struct, k: nat)
    requires forall i, j :: 0 <= i < j < |stmts| ==> stmts[i].key != stmts[j].key
    requires k < |stmts|
    ensures var obj := RunWrites(stmts, d);
            && (stmts[k].key in obj <==> Holds(stmts[k].condition, d))
            && (stmts[k].key in obj ==> obj[stmts[k].key] == Eval(stmts[k].value, d))
  {
    hide Holds, Eval;
    var n := |stmts| - 1;
    if k < n {
      WrittenAt(stmts[..n], d, k);
    } else {
      AbsentBefore(stmts[..n], d, stmts[n].key);
    }
  }

  lemma {:induction false} AbsentBefore(stmts: seq<WriteStmt>, d: Struct, key: string)
    requires forall i :: 0 <= i < |stmts| ==> stmts[i].key != key
    ensures key !in RunWrites(stmts, d)
  {
    hide Holds, Eval;
    if stmts != [] { AbsentBefore(stmts[..|stmts| - 1], d, key); }
  }

  /** Whether the emitted guard of `p` lets the field through. */
  predicate IsWritten(p: Property, manifest: seq<Property>, d: Struct) {
    Holds(WriteCondition(p, manifest), d)
  }

  lemma {:induction false} ReadAfterWrite(manifest: seq<Property>, d: Struct, k: nat)
    requires DistinctKeys(manifest) && k < |manifest|
    ensures var p := manifest[k];
            ReadBack(p, Serialize(manifest, d)) ==
            if IsWritten(p, manifest, d) then ReadBack(p, map[p.key := Eval(WriteValue(p, manifest), d)])
            else ReadBack(p, map[])
  {
    hide Holds, Eval, Simplify, WriteCondition, WriteValue;
    WrittenAt(Writers(manifest, manifest), d, k);
  }

  ghost predicate WellTyped(manifest: seq<Property>, d: Struct) {
    forall k :: 0 <= k < |manifest| ==>
      && manifest[k].field in d && HasType(d[manifest[k].field], manifest[k].typ)
      && HasType(manifest[k].default, manifest[k].typ)
      && (manifest[k].invert ==> manifest[k].typ == TBool)
      && (manifest[k].write.Simplified? || manifest[k].readSimplified ==> manifest[k].typ == TString)
      && (manifest[k].write.PairMin? || manifest[k].write.PairMax? ==>
            && (manifest[k].typ == TInt || manifest[k].typ == TDouble)
            && HasType(Partner(manifest[k], manifest, d), manifest[k].typ))
  }

  /** The value of the partner field of a pair. */
  function Partner(p: Property, manifest: seq<Property>, d: Struct): Value {
    match p.write
    case PairMin(partner) => FieldValue(d, FieldOf(manifest, partner))
    case PairMax(partner) => FieldValue(d, FieldOf(manifest, partner))
    case _ => FieldValue(d, p.field)
  }

  /** What a value must be to come back. If the guard lets it through: false when inverted,
      already simplified when either side simplifies. If the guard suppresses it: what the
      reader puts in its place. A value of a pair must not lie beyond its partner. */
  predicate Survives(p: Property, v: Value, written: bool, partner: Value) {
    if written then
      if p.invert then v == Bool(false)
      else if p.write.PairMin? then !LessValue(partner, v)
      else if p.write.PairMax? then !LessValue(v, partner)
      else
        (p.write.Simplified? && !(p.rule == WhenTrue && p.typ == TBool)) || p.readSimplified ==>
          v.Str? && Simplify(v.s) == v.s
    else if p.invert then v == Bool(true)
    else if p.readSimplified then p.default.Str? && v == Str(Simplify(p.default.s))
    else v == p.default
  }

  /** Main result, for any manifest with distinct keys and any dataset: exactly these values of
      a property survive writing and reading. */
  lemma {:induction false} RoundTripExactly(manifest: seq<Property>, d: Struct, k: nat)
    requires DistinctKeys(manifest) && WellTyped(manifest, d) && k < |manifest|
    ensures var p := manifest[k];
            ReadBack(p, Serialize(manifest, d)) == d[p.field] <==>
            Survives(p, d[p.field], IsWritten(p, manifest, d), Partner(p, manifest, d))
  {
    hide Simplify, Serialize, IsWritten, ReadBack;
    var p := manifest[k];
    ReadAfterWrite(manifest, d, k);
    if IsWritten(p, manifest, d) {
      WrittenReads(manifest, d, k);
    } else {
      SuppressedReads(p, d[p.field], Partner(p, manifest, d));
    }
  }

  lemma {:induction false} WrittenReads(manifest: seq<Property>, d: Struct, k: nat)
    requires WellTyped(manifest, d) && k < |manifest|
    requires IsWritten(manifest[k], manifest, d)
    ensures var p := manifest[k];
            ReadBack(p, map[p.key := Eval(WriteValue(p, manifest), d)]) == d[p.field] <==>
            Survives(p, d[p.field], true, Partner(p, manifest, d))
  {
    hide Simplify;
    var p := manifest[k];
    if d[p.field].Str? {
      SimplifyIdempotent(d[p.field].s);
    }
  }

  lemma {:induction false} SuppressedReads(p: Property, v: Value, partner: Value)
    requires HasType(p.default, p.typ) && HasType(v, p.typ)
    requires p.invert ==> p.typ == TBool
    requires p.readSimplified ==> p.typ == TString
    ensures ReadBack(p, map[]) == v <==> Survives(p, v, false, partner)
  {
    hide Simplify;
  }

  // ----- Manifests that keep the contract -----

  /** No write transform, inversion only on `whenFalse`, and the default is what the rule
      suppresses. */
  predicate Lawful(p: Property) {
    && p.write.Plain? && !p.readSimplified
    && (p.invert ==> p.rule == WhenFalse)
    && match p.rule
       case WhenTrue => p.default == Bool(false)
       case WhenFalse => p.invert || p.default == Bool(true)
       case WhenNonEmpty => p.default == Str("")
       case WhenNonZero => p.default == Int(0) || p.default == Double(0.0)
       case _ => true
  }

  predicate RuleFitsType(p: Property) {
    match p.rule
    case WhenTrue => p.typ == TBool
    case WhenFalse => p.typ == TBool
    case WhenNonEmpty => p.typ == TString
    case WhenNonZero => p.typ == TInt || p.typ == TDouble
    case WhenPositive => p.typ == TInt || p.typ == TDouble
    case WhenNonNegative => p.typ == TInt || p.typ == TDouble
    case _ => true
  }

  /** The rules whose guard can suppress a value other than the default. */
  predicate InRange(p: Property, manifest: seq<Property>, d: Struct) {
    (p.rule.WhenPositive? || p.rule.WhenNonNegative? || p.rule.WithProperty?) ==>
      IsWritten(p, manifest, d) || FieldValue(d, p.field) == p.default
  }

  /** The reader undoes the writer on every field of a lawful manifest: numbers in the written
      range or at the default, gated fields when the gate holds or at the default. */
  lemma {:induction false} LawfulRoundTrip(manifest: seq<Property>, d: Struct, k: nat)
    requires DistinctKeys(manifest) && WellTyped(manifest, d) && k < |manifest|
    requires Lawful(manifest[k]) && RuleFitsType(manifest[k])
    ensures ReadBack(manifest[k], Serialize(manifest, d)) == d[manifest[k].field]
            <==> InRange(manifest[k], manifest, d)
  {
    hide Serialize, ReadBack;
    RoundTripExactly(manifest, d, k);
  }

  // ----- When a property is written -----

  predicate IsSet(v: Value) {
    v != Bool(false) && v != Int(0) && v != Double(0.0) && v != Str("")
  }

  predicate IsAbove(v: Value, orAt: bool) {
    match v
    case Int(i) => i > 0 || (orAt && i == 0)
    case Double(r) => r > 0.0 || (orAt && r == 0.0)
    case _ => false
  }

  /** What each rule promises, of the value of the property and of the property it goes with. */
  predicate IsPersisted(rule: Rule, v: Value, gate: Value) {
    match rule
    case Always => true
    case WhenTrue => v == Bool(true)
    case WhenFalse => v == Bool(false)
    case WhenNonEmpty => v != Str("")
    case WhenNonZero => v != Int(0) && v != Double(0.0)
    case WhenPositive => IsAbove(v, false)
    case WhenNonNegative => IsAbove(v, true)
    case WithProperty(_) => IsSet(gate)
  }

  lemma {:induction false} ByIdFinds(manifest: seq<Property>, id: string, g: nat)
    requires g < |manifest| && manifest[g].id == id && forall h :: 0 <= h < g ==> manifest[h].id != id
    ensures ById(manifest, id) == Some(manifest[g])
  {
    if g > 0 { ByIdFinds(manifest[1..], id, g - 1); }
  }

  /** The emitted guard lets a property through if and only if its rule says so; `g` is the property it goes with. */
  lemma {:induction false} WrittenExactly(manifest: seq<Property>, d: Struct, k: nat, g: nat)
    requires WellTyped(manifest, d) && k < |manifest| && g < |manifest| && RuleFitsType(manifest[k])
    requires manifest[k].rule.WithProperty? ==>
               manifest[g].id == manifest[k].rule.gate && forall h :: 0 <= h < g ==> manifest[h].id != manifest[g].id
    ensures IsWritten(manifest[k], manifest, d)
            <==> IsPersisted(manifest[k].rule, d[manifest[k].field], d[manifest[g].field])
  {
    hide Eval;
    var p := manifest[k];
    assert HasType(d[p.field], p.typ) && HasType(d[manifest[g].field], manifest[g].typ);
    if p.rule.WithProperty? {
      ByIdFinds(manifest, p.rule.gate, g);
    }
  }
}
