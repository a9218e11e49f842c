/** The namespace half of the emitted SDK: a program that builds nested objects for dotted
    command names and then assigns every wrapper, run on a small model of the script heap. */
module SdkNamespaces {
  import opened Text
  import Splitting

  // ----- Dotted names -----

  function Split(s: string): (parts: seq<string>)
    ensures parts != []
  {
    Splitting.Split(s, '.')
  }

  function Join(parts: seq<string>): string {
    Splitting.Join(parts, '.')
  }

  /** `p` is a namespace of `s`: `s` continues with a dot. */
  predicate DottedPrefix(p: string, s: string) {
    |p| < |s| && s[..|p|] == p && s[|p|] == '.'
  }

  /** `{".".join(parts[:i]) for i in range(1, len(parts))}` */
  function Prefixes(s: string): set<string> {
    set i | 1 <= i < |Split(s)| :: Head(s, i)
  }

  function Head(s: string, i: nat): string
    requires i <= |Split(s)|
  {
    Join(Split(s)[..i])
  }

  lemma {:induction false} HeadIsPrefix(s: string, i: nat)
    requires 1 <= i < |Split(s)|
    ensures DottedPrefix(Head(s, i), s) && Split(Head(s, i)) == Split(s)[..i]
  {
    var parts := Split(s);
    assert parts == parts[..i] + parts[i..];
    Splitting.JoinAppend(parts[..i], parts[i..], '.');
    Splitting.JoinSplit(s, '.');
    Splitting.SplitAt(Head(s, i), Join(parts[i..]), '.');
    SplitJoin(s, i);
  }

  lemma {:induction false} SplitJoin(s: string, i: nat)
    requires 1 <= i <= |Split(s)|
    ensures Split(Head(s, i)) == Split(s)[..i]
    decreases i
  {
    var parts := Split(s);
    Splitting.PartsHaveNoSep(s, '.', i - 1);
    Splitting.SplitWord(parts[i - 1], '.');
    if i == 1 {
      assert parts[..1] == [parts[0]];
    } else {
      SplitJoin(s, i - 1);
      assert parts[..i] == parts[..i - 1] + [parts[i - 1]];
      Splitting.JoinAppend(parts[..i - 1], [parts[i - 1]], '.');
      Splitting.SplitAt(Head(s, i - 1), parts[i - 1], '.');
    }
  }

  /** The namespaces of a name are its proper dotted prefixes. */
  lemma {:induction false} PrefixesAre(s: string, p: string)
    ensures p in Prefixes(s) <==> DottedPrefix(p, s)
  {
    if p in Prefixes(s) {
      var i :| 1 <= i < |Split(s)| && p == Head(s, i);
      HeadIsPrefix(s, i);
    }
    if DottedPrefix(p, s) {
      var rest := s[|p| + 1..];
      assert s == p + "." + rest;
      Splitting.SplitAt(p, rest, '.');
      Splitting.JoinSplit(p, '.');
      var i := |Split(p)|;
      assert Split(s)[..i] == Split(p);
      assert p == Head(s, i);
    }
  }

  // ----- Dropping collisions -----

  function Names(commands: seq<string>): set<string> {
    set c | c in commands
  }

  function Namespaces(names: set<string>): set<string> {
    set n, p | n in names && p in Prefixes(n) :: p
  }

  function Kept(commands: seq<string>, prefixes: set<string>): seq<string> {
    if commands == [] then []
    else
      var n := |commands| - 1;
      Kept(commands[..n], prefixes) + if commands[n] in prefixes then [] else [commands[n]]
  }

  method DropNamespaceCollisions(commands: seq<string>) returns (kept: seq<string>, dropped: seq<string>)
    ensures kept == Kept(commands, Namespaces(Names(commands)))
    ensures forall c :: c in dropped <==> c in commands && c in Namespaces(Names(commands))
  {
    hide Prefixes;
    var prefixes := Namespaces(Names(commands));
    kept, dropped := [], [];
    for i := 0 to |commands|
      invariant kept == Kept(commands[..i], prefixes)
      invariant forall c :: c in dropped <==> c in commands[..i] && c in prefixes
    {
      assert commands[..i + 1][..i] == commands[..i];
      assert commands[..i + 1] == commands[..i] + [commands[i]];
      if commands[i] in prefixes {
        dropped := dropped + [commands[i]];
      } else {
        kept := kept + [commands[i]];
      }
    }
    assert commands[..|commands|] == commands;
  }

  lemma {:induction false} KeptAre(commands: seq<string>, prefixes: set<string>, c: string)
    ensures c in Kept(commands, prefixes) <==> c in commands && c !in prefixes
  {
    if commands != [] {
      var n := |commands| - 1;
      KeptAre(commands[..n], prefixes, c);
      assert commands == commands[..n] + [commands[n]];
    }
  }

  /** A command is dropped exactly when another command continues it with a dot. */
  lemma {:induction false} DroppedAre(commands: seq<string>, c: string)
    requires c in commands
    ensures c !in Kept(commands, Namespaces(Names(commands))) <==> exists d :: d in commands && DottedPrefix(c, d)
  {
    hide Prefixes, DottedPrefix;
    var prefixes := Namespaces(Names(commands));
    KeptAre(commands, prefixes, c);
    if c in prefixes {
      var d :| d in Names(commands) && c in Prefixes(d);
      PrefixesAre(d, c);
    }
    if d :| d in commands && DottedPrefix(c, d) {
      PrefixesAre(d, c);
      assert d in Names(commands);
    }
  }

  // ----- The script heap -----

  /** A value of the script engine; a wrapper function carries the command it calls. */
  datatype Value = Undefined | Falsy | Object(props: map<string, Value>) | Wrapper(command: string) | Other

  type Env = map<string, Value>

  predicate Truthy(v: Value) { v != Undefined && v != Falsy }

  /** Reading a dotted path; None when a value on the way holds no properties. */
  function Get(env: Env, path: seq<string>): Option<Value>
    requires path != []
    decreases |path|
  {
    var v := if path[0] in env then env[path[0]] else Undefined;
    if |path| == 1 then Some(v)
    else if v.Object? then Get(v.props, path[1..])
    else None
  }

  /** Assigning to a dotted path; None when there is nothing to assign into. */
  function Put(env: Env, path: seq<string>, v: Value): Option<Env>
    requires path != []
    decreases |path|
  {
    if |path| == 1 then Some(env[path[0] := v])
    else if path[0] in env && env[path[0]].Object? then
      var inner := Put(env[path[0]].props, path[1..], v);
      if inner.None? then None else Some(env[path[0] := Object(inner.value)])
    else None
  }

  // ----- The emitted program -----

  /** The script language the program is emitted in. */
  datatype Client = JavaScript | Lua

  datatype Statement = DeclareTop(name: string) | Declare(name: string) | Assign(name: string)

  /** Which value of a top-level name is kept: JavaScript tests `typeof`, Lua tests for truth. */
  predicate Stays(client: Client, v: Value) {
    if client == JavaScript then v != Undefined else Truthy(v)
  }

  function Exec(client: Client, env: Env, s: Statement): Option<Env> {
    match s
    case DeclareTop(name) =>
      if name in env && Stays(client, env[name]) then Some(env) else Some(env[name := Object(map[])])
    case Declare(name) =>
      var v := Get(env, Split(name));
      if v.None? then None
      else Put(env, Split(name), if Truthy(v.value) then v.value else Object(map[]))
    case Assign(name) => Put(env, Split(name), Wrapper(name))
  }

  function Run(client: Client, env: Env, program: seq<Statement>): Option<Env>
    decreases |program|
  {
    if program == [] then Some(env)
    else
      var n := |program| - 1;
      var before := Run(client, env, program[..n]);
      if before.None? then None else Exec(client, before.value, program[n])
  }

  function DeclareOne(ns: string): Statement {
    if '.' in ns then Declare(ns) else DeclareTop(ns)
  }

  function Declarations(namespaces: seq<string>): (out: seq<Statement>)
    ensures |out| == |namespaces|
  {
    seq(|namespaces|, i requires 0 <= i < |namespaces| => DeclareOne(namespaces[i]))
  }

  function Assignments(commands: seq<string>): (out: seq<Statement>)
    ensures |out| == |commands|
  {
    seq(|commands|, i requires 0 <= i < |commands| => Assign(commands[i]))
  }

  /** Namespaces in sorted order, then the wrappers. */
  function Program(commands: seq<string>): seq<Statement> {
    Declarations(Sorted(Namespaces(Names(commands)))) + Assignments(commands)
  }

  method Emit(commands: seq<string>) returns (lines: seq<Statement>)
    ensures lines == Program(commands)
  {
    hide Prefixes, Sorted;
    var namespaces: set<string> := {};
    for i := 0 to |commands|
      invariant namespaces == Namespaces(Names(commands[..i]))
    {
      assert Names(commands[..i + 1]) == Names(commands[..i]) + {commands[i]};
      namespaces := namespaces + Prefixes(commands[i]);
    }
    assert commands[..|commands|] == commands;
    lines := [];
    var sorted := Sorted(namespaces);
    for i := 0 to |sorted|
      invariant lines == Declarations(sorted[..i])
    {
      assert Declarations(sorted[..i + 1]) == Declarations(sorted[..i]) + [DeclareOne(sorted[i])];
      lines := lines + [if '.' in sorted[i] then Declare(sorted[i]) else DeclareTop(sorted[i])];
    }
    assert sorted[..|sorted|] == sorted;
    ghost var head := lines;
    for i := 0 to |commands|
      invariant lines == head + Assignments(commands[..i])
    {
      assert Assignments(commands[..i + 1]) == Assignments(commands[..i]) + [Assign(commands[i])];
      lines := lines + [Assign(commands[i])];
    }
  }

  // ----- Effects of one assignment -----

  ghost predicate IsObject(env: Env, path: seq<string>)
    requires path != []
  {
    Get(env, path).Some? && Get(env, path).value.Object?
  }

  lemma {:induction false} PutWorks(env: Env, path: seq<string>, v: Value)
    requires path != []
    requires |path| > 1 ==> IsObject(env, path[..|path| - 1])
    ensures Put(env, path, v).Some? && Get(Put(env, path, v).value, path) == Some(v)
    decreases |path|
  {
    if |path| > 1 {
      var front := path[..|path| - 1];
      var props := env[path[0]].props;
      if |path| > 2 {
        assert front[1..] == path[1..][..|path| - 2];
      }
      PutWorks(props, path[1..], v);
    }
  }

  /** A path that does not run through the assigned one keeps its value; a namespace above
      it stays an object. */
  lemma {:induction false} PutElsewhere(env: Env, path: seq<string>, v: Value, q: seq<string>)
    requires path != [] && q != [] && Put(env, path, v).Some? && !(path <= q)
    ensures var after := Put(env, path, v).value;
            if q < path then IsObject(env, q) && IsObject(after, q) else Get(after, q) == Get(env, q)
    decreases |path|
  {
    if path[0] == q[0] {
      if |q| > 1 && |path| > 1 {
        PutElsewhere(env[path[0]].props, path[1..], v, q[1..]);
        assert q < path <==> q[1..] < path[1..];
      }
    }
  }

  // ----- Running the program -----

  /** No namespace of the program is occupied by a value that is not an object. */
  ghost predicate Compatible(client: Client, env: Env, namespaces: set<string>) {
    forall ns :: ns in namespaces ==> Free(client, env, ns)
  }

  /** A namespace path that is unset so far, already holds an object, or, where the program tests for truth and not
      for `undefined`, any falsy value: below the top level, and in Lua everywhere. */
  ghost predicate Free(client: Client, env: Env, ns: string) {
    Open(client, env, Split(ns))
  }

  ghost predicate Open(client: Client, env: Env, path: seq<string>)
    requires path != []
  {
    match Get(env, path)
    case None => true
    case Some(v) => v == Undefined || v.Object? || (v == Falsy && (|path| > 1 || client == Lua))
  }

  ghost predicate AllObjects(env: Env, namespaces: seq<string>, n: nat)
    requires n <= |namespaces|
  {
    forall i :: 0 <= i < n ==> IsObject(env, Split(namespaces[i]))
  }

  /** Every namespace of `names` comes with its parent. */
  lemma {:induction false} ParentFirst(names: set<string>, ns: string)
    requires ns in Namespaces(names) && |Split(ns)| > 1
    ensures var parent := Head(ns, |Split(ns)| - 1);
            parent in Namespaces(names) && Less(parent, ns) && Split(parent) == Split(ns)[..|Split(ns)| - 1]
  {
    var n := |Split(ns)| - 1;
    var parent := Head(ns, n);
    HeadIsPrefix(ns, n);
    assert parent < ns;
    PrefixLess(parent, ns);
    var c :| c in names && ns in Prefixes(c);
    PrefixesAre(c, ns);
    assert DottedPrefix(parent, c);
    PrefixesAre(c, parent);
  }

  lemma {:induction false} EarlierIsIndexed(sorted: seq<string>, k: nat, p: string)
    requires Ascending(sorted) && k < |sorted| && p in sorted && Less(p, sorted[k])
    ensures p in sorted[..k]
  {
    var j :| 0 <= j < |sorted| && sorted[j] == p;
    if j >= k {
      LessTrichotomy(p, sorted[k]);
    }
  }

  lemma {:induction false} SingleHasNoDot(ns: string)
    ensures '.' in ns <==> |Split(ns)| > 1
  {
    if '.' !in ns {
      Splitting.SplitWord(ns, '.');
    }
    if |Split(ns)| == 1 {
      Splitting.PartsHaveNoSep(ns, '.', 0);
      Splitting.JoinSplit(ns, '.');
    }
  }

  lemma {:induction false} SplitInjective(a: string, b: string)
    requires Split(a) == Split(b)
    ensures a == b
  {
    Splitting.JoinSplit(a, '.');
    Splitting.JoinSplit(b, '.');
  }

  /** Declaring one namespace whose parent exists makes it an object and spoils no other. */
  lemma {:induction false} DeclareStep(client: Client, env: Env, ns: string, other: string)
    requires Free(client, env, ns)
    requires |Split(ns)| > 1 ==> IsObject(env, Split(ns)[..|Split(ns)| - 1])
    ensures Exec(client, env, DeclareOne(ns)).Some?
    ensures var after := Exec(client, env, DeclareOne(ns)).value;
            && IsObject(after, Split(ns))
            && (IsObject(env, Split(other)) ==> IsObject(after, Split(other)))
            && (Free(client, env, other) ==> Free(client, after, other))
  {
    var path := Split(ns);
    SingleHasNoDot(ns);
    var v := Get(env, path);
    if |path| == 1 {
      Splitting.SplitWord(ns, '.');
      NewTop(client, env, ns, other);
    } else {
      ReadUnderObject(env, path);
      var w := if Truthy(v.value) then v.value else Object(map[]);
      PutWorks(env, path, w);
      PutOverSelf(env, path, w, Split(other));
    }
  }

  lemma {:induction false} NewTop(client: Client, env: Env, ns: string, other: string)
    requires Split(ns) == [ns] && Free(client, env, ns) && '.' !in ns
    ensures var after := Exec(client, env, DeclareOne(ns)).value;
            && IsObject(after, [ns])
            && (IsObject(env, Split(other)) ==> IsObject(after, Split(other)))
            && (Free(client, env, other) ==> Free(client, after, other))
  {
  }

  lemma {:induction false} ReadUnderObject(env: Env, path: seq<string>)
    requires |path| > 1 && IsObject(env, path[..|path| - 1])
    ensures Get(env, path).Some?
    decreases |path|
  {
    if |path| > 2 {
      assert path[..|path| - 1][1..] == path[1..][..|path| - 2];
      ReadUnderObject(env[path[0]].props, path[1..]);
    }
  }

  /** Writing an object over nothing, or a value over itself, spoils no object and frees none. */
  lemma {:induction false} PutOverSelf(env: Env, path: seq<string>, w: Value, q: seq<string>)
    requires path != [] && q != [] && Put(env, path, w).Some? && Get(env, path).Some?
    requires w == Get(env, path).value || (w == Object(map[]) && !Truthy(Get(env, path).value))
    requires Truthy(w)
    ensures var after := Put(env, path, w).value;
            && (IsObject(env, q) ==> IsObject(after, q))
            && (Vacant(Get(env, q)) ==> Vacant(Get(after, q)) || IsObject(after, q))
            && (Get(env, q) == Some(Undefined) ==> Get(after, q) == Some(Undefined) || IsObject(after, q))
            && (|q| == 1 && path != q ==> Get(env, q) == Get(after, q) || IsObject(after, q))
    decreases |path|
  {
    if path[0] == q[0] && |path| > 1 && |q| > 1 {
      PutOverSelf(env[path[0]].props, path[1..], w, q[1..]);
    }
  }

  predicate Vacant(v: Option<Value>) {
    v.None? || !Truthy(v.value)
  }

  // ----- The whole program -----

  ghost predicate NoCollisions(commands: seq<string>) {
    forall c, d :: c in commands && d in commands ==> !DottedPrefix(c, d)
  }

  lemma {:induction false} KeptHasNoCollisions(commands: seq<string>)
    ensures NoCollisions(Kept(commands, Namespaces(Names(commands))))
  {
    hide DottedPrefix, Prefixes;
    var kept := Kept(commands, Namespaces(Names(commands)));
    forall c, d | c in kept && d in kept
      ensures !DottedPrefix(c, d)
    {
      KeptAre(commands, Namespaces(Names(commands)), c);
      KeptAre(commands, Namespaces(Names(commands)), d);
      DroppedAre(commands, c);
    }
  }

  lemma {:induction false} PathPrefixIsDotted(c: string, d: string)
    requires Split(c) < Split(d)
    ensures DottedPrefix(c, d)
  {
    var i := |Split(c)|;
    Splitting.JoinSplit(c, '.');
    assert Split(d)[..i] == Split(c);
    HeadIsPrefix(d, i);
  }

  /** The state in front of declaration `k`: those before it are done, the rest still open. */
  ghost predicate Declared(client: Client, env: Env, sorted: seq<string>, k: nat)
    requires k <= |sorted|
  {
    && AllObjects(env, sorted, k)
    && forall i :: 0 <= i < |sorted| ==> Free(client, env, sorted[i])
  }

  lemma {:induction false} RunStep(client: Client, env: Env, program: seq<Statement>, k: nat)
    requires k < |program|
    ensures Run(client, env, program[..k + 1]) ==
            if Run(client, env, program[..k]).None? then None else Exec(client, Run(client, env, program[..k]).value, program[k])
  {
    assert program[..k + 1][..k] == program[..k];
  }

  lemma {:induction false} DeclareAll(client: Client, env: Env, names: set<string>, program: seq<Statement>, k: nat)
    requires Compatible(client, env, Namespaces(names))
    requires var sorted := Sorted(Namespaces(names));
             && k <= |sorted| <= |program|
             && forall i :: 0 <= i < |sorted| ==> program[i] == DeclareOne(sorted[i])
    ensures Run(client, env, program[..k]).Some?
    ensures Declared(client, Run(client, env, program[..k]).value, Sorted(Namespaces(names)), k)
  {
    hide Exec, Free, DeclareOne, Run, Sorted, Namespaces, Get, Split;
    var sorted := Sorted(Namespaces(names));
    if k == 0 {
      assert program[..0] == [];
      RunNothing(client, env);
    } else {
      DeclareAll(client, env, names, program, k - 1);
      RunStep(client, env, program, k - 1);
      var before := Run(client, env, program[..k - 1]).value;
      var ns := sorted[k - 1];
      if |Split(ns)| > 1 { ParentDone(before, names, k - 1); }
      DeclareStep(client, before, ns, ns);
      forall i | 0 <= i < |sorted|
        ensures Free(client, Exec(client, before, DeclareOne(ns)).value, sorted[i])
        ensures i < k ==> IsObject(Exec(client, before, DeclareOne(ns)).value, Split(sorted[i]))
      {
        DeclareStep(client, before, ns, sorted[i]);
      }
    }
  }

  lemma {:induction false} ParentDone(env: Env, names: set<string>, k: nat)
    requires k < |Sorted(Namespaces(names))| && AllObjects(env, Sorted(Namespaces(names)), k)
    requires |Split(Sorted(Namespaces(names))[k])| > 1
    ensures var path := Split(Sorted(Namespaces(names))[k]); IsObject(env, path[..|path| - 1])
  {
    hide Sorted, Get, Split, Namespaces;
    var sorted := Sorted(Namespaces(names));
    var ns := sorted[k];
    ParentFirst(names, ns);
    var parent := Head(ns, |Split(ns)| - 1);
    EarlierIsIndexed(sorted, k, parent);
    var j :| 0 <= j < k && sorted[j] == parent;
    assert IsObject(env, Split(sorted[j]));
  }

  lemma {:induction false} RunNothing(client: Client, env: Env)
    ensures Run(client, env, []) == Some(env)
  {
  }

  /** The state in front of wrapper `m`. */
  ghost predicate Assigned(env: Env, sorted: seq<string>, commands: seq<string>, m: nat)
    requires m <= |commands|
  {
    && AllObjects(env, sorted, |sorted|)
    && forall j :: 0 <= j < m ==> Get(env, Split(commands[j])) == Some(Wrapper(commands[j]))
  }

  /** Assigning one wrapper leaves every namespace an object ... */
  lemma {:induction false} NamespaceSurvives(env: Env, commands: seq<string>, m: nat, ns: string)
    requires NoCollisions(commands) && m < |commands| && ns in Namespaces(Names(commands))
    requires IsObject(env, Split(ns)) && Put(env, Split(commands[m]), Wrapper(commands[m])).Some?
    ensures IsObject(Put(env, Split(commands[m]), Wrapper(commands[m])).value, Split(ns))
  {
    hide Split, Get, Put, Namespaces, NoCollisions;
    NamespaceApart(commands, m, ns);
    PutElsewhere(env, Split(commands[m]), Wrapper(commands[m]), Split(ns));
  }

  /** ... and every wrapper that is in place. */
  lemma {:induction false} WrapperSurvives(env: Env, commands: seq<string>, m: nat, d: string)
    requires NoCollisions(commands) && m < |commands| && d in commands
    requires Get(env, Split(d)) == Some(Wrapper(d)) && Put(env, Split(commands[m]), Wrapper(commands[m])).Some?
    requires Get(Put(env, Split(commands[m]), Wrapper(commands[m])).value, Split(commands[m])) == Some(Wrapper(commands[m]))
    ensures Get(Put(env, Split(commands[m]), Wrapper(commands[m])).value, Split(d)) == Some(Wrapper(d))
  {
    hide Split, Get, Put, DottedPrefix;
    var c := commands[m];
    if Split(d) == Split(c) {
      SplitInjective(d, c);
    } else {
      if Split(c) < Split(d) { PathPrefixIsDotted(c, d); }
      if Split(d) < Split(c) { PathPrefixIsDotted(d, c); }
      PutElsewhere(env, Split(c), Wrapper(c), Split(d));
    }
  }

  lemma {:induction false} AssignStep(client: Client, env: Env, commands: seq<string>, m: nat)
    requires NoCollisions(commands) && m < |commands|
    requires Assigned(env, Sorted(Namespaces(Names(commands))), commands, m)
    ensures Exec(client, env, Assign(commands[m])).Some?
    ensures Assigned(Exec(client, env, Assign(commands[m])).value, Sorted(Namespaces(Names(commands))), commands, m + 1)
  {
    hide Namespaces, NoCollisions, Split, Get, Put, Sorted;
    var sorted := Sorted(Namespaces(Names(commands)));
    var path := Split(commands[m]);
    if |path| > 1 { ParentIsObject(env, commands, m); }
    PutWorks(env, path, Wrapper(commands[m]));
    forall i | 0 <= i < |sorted|
      ensures IsObject(Put(env, path, Wrapper(commands[m])).value, Split(sorted[i]))
    {
      NamespaceSurvives(env, commands, m, sorted[i]);
    }
    forall j | 0 <= j < m
      ensures Get(Put(env, path, Wrapper(commands[m])).value, Split(commands[j])) == Some(Wrapper(commands[j]))
    {
      WrapperSurvives(env, commands, m, commands[j]);
    }
  }

  lemma {:induction false} ParentIsObject(env: Env, commands: seq<string>, m: nat)
    requires m < |commands| && |Split(commands[m])| > 1
    requires AllObjects(env, Sorted(Namespaces(Names(commands))), |Sorted(Namespaces(Names(commands)))|)
    ensures IsObject(env, Split(commands[m])[..|Split(commands[m])| - 1])
  {
    hide Sorted, Get;
    var sorted := Sorted(Namespaces(Names(commands)));
    var c := commands[m];
    var n := |Split(c)| - 1;
    HeadIsPrefix(c, n);
    PrefixesAre(c, Head(c, n));
    assert c in Names(commands);
    assert Head(c, n) in Namespaces(Names(commands));
    var i :| 0 <= i < |sorted| && sorted[i] == Head(c, n);
    assert IsObject(env, Split(sorted[i]));
  }

  /** No wrapper is assigned to a namespace, or above one. */
  lemma {:induction false} NamespaceApart(commands: seq<string>, m: nat, ns: string)
    requires NoCollisions(commands) && m < |commands| && ns in Namespaces(Names(commands))
    ensures !(Split(commands[m]) <= Split(ns))
  {
    hide Split;
    var c := commands[m];
    var d :| d in Names(commands) && ns in Prefixes(d);
    PrefixesAre(d, ns);
    if Split(c) == Split(ns) {
      SplitInjective(c, ns);
    } else if Split(c) < Split(ns) {
      PathPrefixIsDotted(c, ns);
      DottedTransitive(c, ns, d);
    }
  }

  lemma {:induction false} DottedTransitive(a: string, b: string, c: string)
    requires DottedPrefix(a, b) && DottedPrefix(b, c)
    ensures DottedPrefix(a, c)
  {
  }

  lemma {:induction false} AssignAll(client: Client, env: Env, commands: seq<string>, m: nat)
    requires NoCollisions(commands) && m <= |commands|
    requires Compatible(client, env, Namespaces(Names(commands)))
    ensures var sorted := Sorted(Namespaces(Names(commands)));
            var program := Program(commands);
            && |program| == |sorted| + |commands|
            && Run(client, env, program[..|sorted| + m]).Some?
            && Assigned(Run(client, env, program[..|sorted| + m]).value, sorted, commands, m)
  {
    hide Exec, Run, Sorted, Namespaces, NoCollisions, Get, DeclareOne;
    var sorted := Sorted(Namespaces(Names(commands)));
    var program := Program(commands);
    if m == 0 {
      DeclareAll(client, env, Names(commands), program, |sorted|);
    } else {
      AssignAll(client, env, commands, m - 1);
      RunStep(client, env, program, |sorted| + m - 1);
      AssignStep(client, Run(client, env, program[..|sorted| + m - 1]).value, commands, m - 1);
    }
  }

  /** Main result. In either language, in any engine whose globals leave the namespaces free, the emitted program
      runs to its end without a TypeError, every kept command resolves to its own wrapper, and
      every namespace is an object. */
  lemma {:induction false} EveryCommandResolves(client: Client, env: Env, all: seq<string>)
    requires Compatible(client, env, Namespaces(Names(Kept(all, Namespaces(Names(all))))))
    ensures var commands := Kept(all, Namespaces(Names(all)));
            var end := Run(client, env, Program(commands));
            && end.Some?
            && (forall c :: c in commands ==> Get(end.value, Split(c)) == Some(Wrapper(c)))
            && (forall ns :: ns in Namespaces(Names(commands)) ==> IsObject(end.value, Split(ns)))
  {
    hide Run, Get, Namespaces, Kept, Program, Sorted;
    var commands := Kept(all, Namespaces(Names(all)));
    KeptHasNoCollisions(all);
    AssignAll(client, env, commands, |commands|);
    var program := Program(commands);
    assert program[..|program|] == program;
  }

  // ----- Where the two clients differ -----

  lemma {:induction false} OneNamespace()
    ensures Split("a.b") == ["a", "b"] && Split("a") == ["a"] && Namespaces({"a.b"}) == {"a"}
    ensures Kept(["a.b"], Namespaces(Names(["a.b"]))) == ["a.b"]
  {
    hide Prefixes, Namespaces, Kept;
    Splitting.SplitWord("a", '.');
    Splitting.SplitWord("b", '.');
    Splitting.SplitAt("a", "b", '.');
    assert "a" + ['.'] + "b" == "a.b";
    forall p: string
      ensures p in Namespaces({"a.b"}) <==> p == "a"
    {
      OnlyPrefix(p);
    }
    assert Names(["a.b"]) == {"a.b"};
    KeptOne();
  }

  lemma {:induction false} OnlyPrefix(p: string)
    ensures p in Namespaces({"a.b"}) <==> p == "a"
  {
    hide Prefixes;
    PrefixesAre("a.b", p);
    if DottedPrefix(p, "a.b") {
      assert |p| == 1 && p == "a.b"[..1];
    }
    assert DottedPrefix("a", "a.b");
    assert "a.b" in {"a.b"};
  }

  lemma {:induction false} KeptOne()
    ensures Kept(["a.b"], Namespaces(Names(["a.b"]))) == ["a.b"]
  {
    hide Namespaces;
    var prefixes := Namespaces(Names(["a.b"]));
    assert Names(["a.b"]) == {"a.b"};
    OnlyPrefix("a.b");
    assert ["a.b"][..0] == [] && Kept([], prefixes) == [];
  }

  /** A global that holds a falsy value is replaced by the Lua program; the JavaScript one keeps it, and can put
      no wrapper under it. */
  lemma {:induction false} FalsyGlobal(env: Env)
    requires "a" in env && env["a"] == Falsy
    ensures Run(JavaScript, env, Program(["a.b"])) == None
    ensures Run(Lua, env, Program(["a.b"])).Some?
    ensures Get(Run(Lua, env, Program(["a.b"])).value, ["a", "b"]) == Some(Wrapper("a.b"))
  {
    hide Namespaces, Split, Kept, Sorted;
    OneNamespace();
    var all := ["a.b"];
    assert Names(all) == {"a.b"};
    OneSorted();
    var program := Program(all);
    assert program == [DeclareTop("a"), Assign("a.b")];
    assert program[..1] == [DeclareTop("a")] && program[..1][..0] == [];
    RunNothing(JavaScript, env);
    RunStep(JavaScript, env, program, 0);
    RunStep(JavaScript, env, program, 1);
    assert program[..2] == program;
    EveryCommandResolves(Lua, env, all);
  }

  lemma {:induction false} OneSorted()
    ensures Sorted({"a"}) == ["a"]
  {
    var s := Sorted({"a"});
    assert forall x :: x in s <==> x == "a";
  }
}
