/** The emission-order engine: repeated passes over the compiled schemas move
    every schema whose dependencies are all emitted into the output; a schema
    that depends on itself is emitted behind a lazy wrapper; whatever is still
    pending when the pass budget runs out is reported in one diagnostic. */
module Ordering {
  import opened Naming
  import opened Shapes

  /** A compiled declaration: its flattened type name, its schema name, whether
      it is exported, the schema names it refers to and its validator. */
  datatype Schema = Schema(typeName: string, varName: string, exported: bool, deps: seq<string>, expr: Expr)

  /** An emitted schema definition. It has a type of its own, although its
      fields are a schema's, because its validator is the emitted form: for a
      self-referencing schema it is wrapped in a lazy node (see `Emit`), so a
      definition and the schema it came from are not interchangeable. */
  datatype Statement = Statement(typeName: string, varName: string, exported: bool, deps: seq<string>, expr: Expr)

  /** The definition emitted for a schema: behind a lazy wrapper exactly when
      the schema refers to itself. */
  function Emit(s: Schema): (r: Statement)
    ensures r.varName == s.varName && r.typeName == s.typeName && r.exported == s.exported && r.deps == s.deps
    ensures r.expr.ZLazy? && r.expr.body == s.expr <==> s.varName in s.deps
    ensures s.varName !in s.deps ==> r.expr == s.expr
    ensures Eager(s.expr) ==> (r.expr.ZLazy? <==> s.varName in s.deps)
  {
    Statement(s.typeName, s.varName, s.exported, s.deps,
              if s.varName in s.deps then ZLazy(s.expr) else s.expr)
  }

  function Names(st: seq<Statement>): set<string>
  {
    set x | x in st :: x.varName
  }

  function VarNames(schemas: seq<Schema>): set<string>
  {
    set s | s in schemas :: s.varName
  }

  /** Every dependency of `s` other than `s` itself is already emitted. */
  predicate Ready(s: Schema, emitted: set<string>)
  {
    forall d :: d in s.deps ==> d == s.varName || d in emitted
  }

  /** One visit of a pass: emit `s` when it is pending and ready. */
  function Visit(s: Schema, st: seq<Statement>): (r: seq<Statement>)
  {
    if s.varName !in Names(st) && Ready(s, Names(st)) then st + [Emit(s)] else st
  }

  /** One pass: visit the schemas in source order. */
  function Pass(schemas: seq<Schema>, st: seq<Statement>): (r: seq<Statement>)
    ensures st <= r
    decreases |schemas|
  {
    if schemas == [] then st else Pass(schemas[1..], Visit(schemas[0], st))
  }

  /** At most `passes` passes, stopping early once there are as many
      definitions as schemas. */
  function Run(schemas: seq<Schema>, passes: nat, st: seq<Statement>): (r: seq<Statement>)
    ensures st <= r
    decreases passes
  {
    if passes == 0 || |st| == |schemas| then st else Run(schemas, passes - 1, Pass(schemas, st))
  }

  /** The schema names still pending, in source order. */
  function Missing(schemas: seq<Schema>, emitted: set<string>): (r: seq<string>)
    ensures |r| <= |schemas|
    ensures forall v :: v in r <==> v in VarNames(schemas) && v !in emitted
  {
    if schemas == [] then []
    else
      assert forall s :: s in schemas <==> s == schemas[0] || s in schemas[1..];
      (if schemas[0].varName in emitted then [] else [schemas[0].varName]) + Missing(schemas[1..], emitted)
  }

  /** The pending names of two consecutive stretches of schemas are those of
      the first followed by those of the second. */
  lemma {:induction false} MissingAppend(a: seq<Schema>, b: seq<Schema>, emitted: set<string>)
    ensures Missing(a + b, emitted) == Missing(a, emitted) + Missing(b, emitted)
  {
    if a == [] {
      assert a + b == b;
    } else {
      assert (a + b)[0] == a[0] && (a + b)[1..] == a[1..] + b;
      MissingAppend(a[1..], b, emitted);
    }
  }

  /** A pending schema's name sits in the pending list right after the
      pending names of the schemas before it. */
  lemma MissingAt(schemas: seq<Schema>, emitted: set<string>, i: nat)
    requires i < |schemas| && schemas[i].varName !in emitted
    ensures |Missing(schemas[..i], emitted)| < |Missing(schemas, emitted)|
    ensures Missing(schemas, emitted)[|Missing(schemas[..i], emitted)|] == schemas[i].varName
  {
    assert schemas == schemas[..i] + schemas[i..];
    MissingAppend(schemas[..i], schemas[i..], emitted);
    assert schemas[i..][0] == schemas[i];
  }

  /** The pending names keep source order: of two pending schemas, the one
      declared first is listed first. */
  lemma MissingInSourceOrder(schemas: seq<Schema>, emitted: set<string>, i: nat, j: nat)
    requires i < j < |schemas|
    requires schemas[i].varName !in emitted && schemas[j].varName !in emitted
    ensures exists p, q ::
      0 <= p < q < |Missing(schemas, emitted)| &&
      Missing(schemas, emitted)[p] == schemas[i].varName && Missing(schemas, emitted)[q] == schemas[j].varName
  {
    var r := Missing(schemas, emitted);
    MissingAt(schemas, emitted, i);
    MissingAt(schemas, emitted, j);
    var p := |Missing(schemas[..i], emitted)|;
    var q := |Missing(schemas[..j], emitted)|;
    PendingPrefixGrows(schemas, emitted, i, j);
    assert 0 <= p < q < |r| && r[p] == schemas[i].varName && r[q] == schemas[j].varName;
  }

  lemma PendingPrefixGrows(schemas: seq<Schema>, emitted: set<string>, i: nat, j: nat)
    requires i < j <= |schemas| && schemas[i].varName !in emitted
    ensures |Missing(schemas[..i], emitted)| < |Missing(schemas[..j], emitted)|
  {
    var prefix := schemas[..j];
    var mid := schemas[i..j];
    assert prefix == schemas[..i] + mid;
    MissingAppend(schemas[..i], mid, emitted);
    assert mid[0] == schemas[i];
    assert Missing(mid, emitted)[0] == schemas[i].varName;
  }

  /** With distinct schema names, no name is listed twice. */
  lemma {:induction false} MissingDistinct(schemas: seq<Schema>, emitted: set<string>)
    requires DistinctVarNames(schemas)
    ensures forall p, q :: 0 <= p < q < |Missing(schemas, emitted)| ==> Missing(schemas, emitted)[p] != Missing(schemas, emitted)[q]
  {
    if schemas != [] {
      HeadNameNotInTail(schemas);
      MissingDistinct(schemas[1..], emitted);
      var rest := Missing(schemas[1..], emitted);
      forall q | 0 <= q < |rest| ensures rest[q] != schemas[0].varName {
        assert rest[q] in rest;
      }
    }
  }

  const CycleHeader: string := "Some schemas can't be generated due to circular dependencies:\n"

  /** No diagnostic when nothing is pending; otherwise exactly one, listing the
      pending schema names one per line after the header. */
  function CycleErrors(missing: seq<string>): (r: seq<string>)
    ensures |r| <= 1
    ensures r == [] <==> missing == []
    ensures r != [] ==> |r[0]| >= |CycleHeader| && r[0][..|CycleHeader|] == CycleHeader
  {
    if missing == [] then [] else [CycleHeader + Join(missing, "\n")]
  }

  /** The diagnostic names exactly the pending schemas, one per line, in the
      order given: reading the lines back after the header gives the list. */
  lemma CycleErrorsListMissing(missing: seq<string>)
    requires missing != []
    requires forall k :: 0 <= k < |missing| ==> '\n' !in missing[k]
    ensures Split(CycleErrors(missing)[0][|CycleHeader|..], '\n') == missing
  {
    var msg := CycleErrors(missing)[0];
    assert msg[|CycleHeader|..] == Join(missing, ['\n']);
    SplitJoin(missing, '\n');
  }

  // ---------------------------------------------------------------------------
  // The engine

  /** Emission order of `schemas` under a budget of `maxRun` passes, and the
      diagnostics for the schemas left over. */
  method ResolveOrder(schemas: seq<Schema>, maxRun: nat) returns (statements: seq<Statement>, errors: seq<string>)
    ensures statements == Run(schemas, maxRun, [])
    ensures Wf(schemas, statements)
    ensures errors == CycleErrors(Missing(schemas, Names(statements)))
  {
    statements := [];
    var emitted: set<string> := {};
    var n := 0;
    while n < maxRun && |statements| != |schemas|
      invariant n <= maxRun
      invariant emitted == Names(statements)
      invariant Run(schemas, maxRun - n, statements) == Run(schemas, maxRun, [])
      decreases maxRun - n
    {
      ghost var start := statements;
      var i := 0;
      while i < |schemas|
        invariant 0 <= i <= |schemas|
        invariant emitted == Names(statements)
        invariant Pass(schemas[i..], statements) == Pass(schemas, start)
        decreases |schemas| - i
      {
        var s := schemas[i];
        assert schemas[i..][1..] == schemas[i + 1..];
        if s.varName !in emitted && Ready(s, emitted) {
          NamesAppend(statements, Emit(s));
          statements := statements + [Emit(s)];
          emitted := emitted + {s.varName};
        }
        i := i + 1;
      }
      n := n + 1;
    }
    errors := CycleErrors(Missing(schemas, emitted));
    RunWf(schemas, maxRun, []);
  }

  lemma NamesAppend(st: seq<Statement>, x: Statement)
    ensures Names(st + [x]) == Names(st) + {x.varName}
  {
    assert forall y :: y in st + [x] <==> y in st || y == x;
  }

  // ---------------------------------------------------------------------------
  // Well-formedness of an emission prefix

  /** Every dependency of a definition, other than itself, is defined earlier. */
  ghost predicate Ordered(st: seq<Statement>)
  {
    forall i, d :: 0 <= i < |st| && d in st[i].deps && d != st[i].varName ==> d in Names(st[..i])
  }

  ghost predicate DistinctNames(st: seq<Statement>)
  {
    forall i, j :: 0 <= i < j < |st| ==> st[i].varName != st[j].varName
  }

  /** Every definition is the emitted form of one of the schemas. */
  ghost predicate FromSchemas(schemas: seq<Schema>, st: seq<Statement>)
  {
    forall i :: 0 <= i < |st| ==> exists s :: s in schemas && st[i] == Emit(s)
  }

  ghost predicate Wf(schemas: seq<Schema>, st: seq<Statement>)
  {
    Ordered(st) && DistinctNames(st) && FromSchemas(schemas, st)
  }

  lemma VisitWf(schemas: seq<Schema>, st: seq<Statement>, s: Schema)
    requires Wf(schemas, st) && s in schemas
    ensures Wf(schemas, Visit(s, st))
  {
    if s.varName !in Names(st) && Ready(s, Names(st)) {
      var r := st + [Emit(s)];
      assert r[..|st|] == st;
      forall i, d | 0 <= i < |r| && d in r[i].deps && d != r[i].varName
        ensures d in Names(r[..i])
      {
        if i < |st| {
          assert r[..i] == st[..i];
        }
      }
      forall i, j | 0 <= i < j < |r| ensures r[i].varName != r[j].varName {
        if j == |st| {
          assert r[i] in st;
        }
      }
    }
  }

  lemma {:induction false} PassWf(schemas: seq<Schema>, ss: seq<Schema>, st: seq<Statement>)
    requires Wf(schemas, st)
    requires forall s :: s in ss ==> s in schemas
    ensures Wf(schemas, Pass(ss, st))
    decreases |ss|
  {
    if ss != [] {
      VisitWf(schemas, st, ss[0]);
      PassWf(schemas, ss[1..], Visit(ss[0], st));
    }
  }

  /** Whatever every pass preserves, a run preserves. */
  lemma {:induction false} RunPreserves(schemas: seq<Schema>, passes: nat, st: seq<Statement>, P: seq<Statement> -> bool)
    requires P(st)
    requires forall t :: P(t) ==> P(Pass(schemas, t))
    ensures P(Run(schemas, passes, st))
    decreases passes
  {
    if passes != 0 && |st| != |schemas| {
      RunPreserves(schemas, passes - 1, Pass(schemas, st), P);
    }
  }

  lemma RunWf(schemas: seq<Schema>, passes: nat, st: seq<Statement>)
    requires Wf(schemas, st)
    ensures Wf(schemas, Run(schemas, passes, st))
  {
    forall t | Wf(schemas, t) ensures Wf(schemas, Pass(schemas, t)) {
      PassWf(schemas, schemas, t);
    }
    RunPreserves(schemas, passes, st, t => Wf(schemas, t));
  }

  lemma NamesPrefix(a: seq<Statement>, b: seq<Statement>)
    requires a <= b
    ensures Names(a) <= Names(b)
  {
    forall x | x in a ensures x in b {
      var k :| 0 <= k < |a| && a[k] == x;
      assert b[k] == x;
    }
  }

  lemma {:induction false} PassNames(ss: seq<Schema>, st: seq<Statement>)
    ensures Names(Pass(ss, st)) <= Names(st) + VarNames(ss)
    decreases |ss|
  {
    if ss != [] {
      var st1 := Visit(ss[0], st);
      if st1 != st {
        NamesAppend(st, Emit(ss[0]));
      }
      PassNames(ss[1..], st1);
      assert VarNames(ss) == {ss[0].varName} + VarNames(ss[1..]) by {
        assert forall s :: s in ss <==> s == ss[0] || s in ss[1..];
      }
    }
  }

  lemma {:induction false} PassDistinct(ss: seq<Schema>, st: seq<Statement>)
    requires DistinctNames(st)
    ensures DistinctNames(Pass(ss, st))
    decreases |ss|
  {
    if ss != [] {
      var st1 := Visit(ss[0], st);
      forall i, j | 0 <= i < j < |st1| ensures st1[i].varName != st1[j].varName {
        if j == |st| {
          assert st1[i] in st;
        }
      }
      PassDistinct(ss[1..], st1);
    }
  }

  // ---------------------------------------------------------------------------
  // Termination of the retries: every pass that changes something emits a new
  // schema name, so a budget of one pass per pending schema reaches a state in
  // which no pending schema is ready.

  /** No pending schema is ready: a further pass would change nothing. */
  ghost predicate Saturated(schemas: seq<Schema>, st: seq<Statement>)
  {
    forall s :: s in schemas && s.varName !in Names(st) ==> !Ready(s, Names(st))
  }

  /** Definitions plus pending schemas never outnumber the schemas. */
  ghost predicate Counted(schemas: seq<Schema>, st: seq<Statement>)
  {
    |st| + |Missing(schemas, Names(st))| <= |schemas|
  }

  lemma {:induction false} MissingAll(schemas: seq<Schema>)
    ensures |Missing(schemas, {})| == |schemas|
  {
    if schemas != [] {
      MissingAll(schemas[1..]);
    }
  }

  lemma {:induction false} MissingNone(schemas: seq<Schema>, emitted: set<string>)
    requires VarNames(schemas) <= emitted
    ensures Missing(schemas, emitted) == []
  {
    if schemas != [] {
      assert schemas[0] in schemas;
      assert VarNames(schemas[1..]) <= VarNames(schemas) by {
        forall s | s in schemas[1..] ensures s in schemas { }
      }
      MissingNone(schemas[1..], emitted);
    }
  }

  lemma {:induction false} MissingShrinks(schemas: seq<Schema>, n: set<string>, m: set<string>)
    requires n <= m
    ensures |Missing(schemas, m)| <= |Missing(schemas, n)|
  {
    if schemas != [] {
      MissingShrinks(schemas[1..], n, m);
    }
  }

  lemma {:induction false} MissingStrict(schemas: seq<Schema>, n: set<string>, m: set<string>, v: string)
    requires n <= m && v in m && v !in n && v in VarNames(schemas)
    ensures |Missing(schemas, m)| < |Missing(schemas, n)|
  {
    assert forall s :: s in schemas <==> s == schemas[0] || s in schemas[1..];
    if schemas[0].varName == v {
      MissingShrinks(schemas[1..], n, m);
    } else {
      MissingStrict(schemas[1..], n, m, v);
    }
  }

  lemma VisitCounted(schemas: seq<Schema>, s: Schema, st: seq<Statement>)
    requires s in schemas && Counted(schemas, st)
    ensures Counted(schemas, Visit(s, st))
  {
    var st1 := Visit(s, st);
    if st1 != st {
      NamesAppend(st, Emit(s));
      MissingStrict(schemas, Names(st), Names(st1), s.varName);
    }
  }

  lemma {:induction false} PassCounted(schemas: seq<Schema>, ss: seq<Schema>, st: seq<Statement>)
    requires forall s :: s in ss ==> s in schemas
    requires Counted(schemas, st)
    ensures Counted(schemas, Pass(ss, st))
    decreases |ss|
  {
    if ss != [] {
      VisitCounted(schemas, ss[0], st);
      PassCounted(schemas, ss[1..], Visit(ss[0], st));
    }
  }

  lemma {:induction false} PassIdle(schemas: seq<Schema>, ss: seq<Schema>, st: seq<Statement>)
    requires forall s :: s in ss ==> s in schemas
    requires Saturated(schemas, st)
    ensures Pass(ss, st) == st
    decreases |ss|
  {
    if ss != [] {
      assert Visit(ss[0], st) == st;
      PassIdle(schemas, ss[1..], st);
    }
  }

  lemma {:induction false} RunIdle(schemas: seq<Schema>, passes: nat, st: seq<Statement>)
    requires Pass(schemas, st) == st
    ensures Run(schemas, passes, st) == st
    decreases passes
  {
    if passes != 0 && |st| != |schemas| {
      RunIdle(schemas, passes - 1, st);
    }
  }

  /** A schema that is pending and ready when a pass starts is emitted by it. */
  lemma {:induction false} PassEmitsReady(ss: seq<Schema>, st: seq<Statement>, s: Schema)
    requires s in ss && s.varName !in Names(st) && Ready(s, Names(st))
    ensures s.varName in Names(Pass(ss, st))
    decreases |ss|
  {
    var st1 := Visit(ss[0], st);
    NamesPrefix(st, st1);
    NamesPrefix(st1, Pass(ss[1..], st1));
    if ss[0] == s {
      NamesAppend(st, Emit(s));
    } else if s.varName !in Names(st1) {
      assert s in ss[1..];
      PassEmitsReady(ss[1..], st1, s);
    }
  }

  lemma {:induction false} RunSaturates(schemas: seq<Schema>, passes: nat, st: seq<Statement>)
    requires Counted(schemas, st)
    requires passes >= |Missing(schemas, Names(st))|
    ensures Saturated(schemas, Run(schemas, passes, st))
    decreases passes
  {
    if passes == 0 || |st| == |schemas| {
      RunSaturatesDone(schemas, passes, st);
    } else if Saturated(schemas, st) {
      RunSaturatesIdle(schemas, passes, st);
    } else {
      var s :| s in schemas && s.varName !in Names(st) && Ready(s, Names(st));
      var st1 := Pass(schemas, st);
      PassProgress(schemas, st, s);
      RunSaturates(schemas, passes - 1, st1);
      RunUnfolds(schemas, passes, st);
    }
  }

  /** No pass left, or every schema emitted: the output is already saturated. */
  lemma RunSaturatesDone(schemas: seq<Schema>, passes: nat, st: seq<Statement>)
    requires Counted(schemas, st)
    requires passes >= |Missing(schemas, Names(st))|
    requires passes == 0 || |st| == |schemas|
    ensures Saturated(schemas, Run(schemas, passes, st))
  {
    assert Missing(schemas, Names(st)) == [];
    NoneMissingSaturated(schemas, st);
    RunStops(schemas, passes, st);
  }

  /** Nothing is ready: further passes change nothing. */
  lemma RunSaturatesIdle(schemas: seq<Schema>, passes: nat, st: seq<Statement>)
    requires Saturated(schemas, st)
    ensures Saturated(schemas, Run(schemas, passes, st))
  {
    PassIdle(schemas, schemas, st);
    RunIdle(schemas, passes, st);
  }

  lemma RunStops(schemas: seq<Schema>, passes: nat, st: seq<Statement>)
    requires passes == 0 || |st| == |schemas|
    ensures Run(schemas, passes, st) == st
  {
  }

  lemma RunUnfolds(schemas: seq<Schema>, passes: nat, st: seq<Statement>)
    requires passes != 0 && |st| != |schemas|
    ensures Run(schemas, passes, st) == Run(schemas, passes - 1, Pass(schemas, st))
  {
  }

  lemma NoneMissingSaturated(schemas: seq<Schema>, st: seq<Statement>)
    requires Missing(schemas, Names(st)) == []
    ensures Saturated(schemas, st)
  {
    forall s | s in schemas ensures s.varName in Names(st) {
      assert s.varName in VarNames(schemas);
    }
  }

  /** A pass that starts with a pending, ready schema leaves fewer pending. */
  lemma PassProgress(schemas: seq<Schema>, st: seq<Statement>, s: Schema)
    requires Counted(schemas, st)
    requires s in schemas && s.varName !in Names(st) && Ready(s, Names(st))
    ensures Counted(schemas, Pass(schemas, st))
    ensures |Missing(schemas, Names(Pass(schemas, st)))| < |Missing(schemas, Names(st))|
  {
    var st1 := Pass(schemas, st);
    PassEmitsReady(schemas, st, s);
    NamesPrefix(st, st1);
    MissingStrict(schemas, Names(st), Names(st1), s.varName);
    PassCounted(schemas, schemas, st);
  }


  // ---------------------------------------------------------------------------
  // Completeness modulo cycles

  /** Every dependency is the schema name of one of the schemas. */
  ghost predicate DepsDeclared(schemas: seq<Schema>)
  {
    forall s, d :: s in schemas && d in s.deps ==> d in VarNames(schemas)
  }

  /** `rank` strictly decreases along every dependency edge other than a
      self-reference: the schemas form no cycle of two or more. */
  ghost predicate RankedBy(schemas: seq<Schema>, rank: string -> nat)
  {
    forall s, d :: s in schemas && d in s.deps && d != s.varName ==> rank(d) < rank(s.varName)
  }

  lemma {:induction false} SaturatedEmits(schemas: seq<Schema>, st: seq<Statement>, rank: string -> nat, s: Schema)
    requires Saturated(schemas, st) && DepsDeclared(schemas) && RankedBy(schemas, rank)
    requires s in schemas
    ensures s.varName in Names(st)
    decreases rank(s.varName)
  {
    forall d | d in s.deps && d != s.varName ensures d in Names(st) {
      assert d in VarNames(schemas);
      var t :| t in schemas && t.varName == d;
      SaturatedEmits(schemas, st, rank, t);
    }
  }

  /** With one pass per schema, a schema set without cycles of two or more
      (self-references allowed) is emitted completely and without diagnostic. */
  lemma AcyclicEmitsAll(schemas: seq<Schema>, maxRun: nat, rank: string -> nat)
    requires maxRun >= |schemas|
    requires DepsDeclared(schemas) && RankedBy(schemas, rank)
    ensures forall s :: s in schemas ==> s.varName in Names(Run(schemas, maxRun, []))
    ensures Missing(schemas, Names(Run(schemas, maxRun, []))) == []
    ensures CycleErrors(Missing(schemas, Names(Run(schemas, maxRun, [])))) == []
  {
    var st := Run(schemas, maxRun, []);
    MissingAll(schemas);
    assert Names([]) == {};
    RunSaturates(schemas, maxRun, []);
    forall s | s in schemas ensures s.varName in Names(st) {
      SaturatedEmits(schemas, st, rank, s);
    }
    forall v | v in VarNames(schemas) ensures v in Names(st) {
      var s :| s in schemas && s.varName == v;
    }
    MissingNone(schemas, Names(st));
  }

  /** `S` is a set of declared schema names, closed under dependencies, in
      which `rank` strictly decreases along every edge other than a
      self-reference: no cycle of two or more runs through `S`. */
  ghost predicate RankedWithin(schemas: seq<Schema>, S: set<string>, rank: string -> nat)
  {
    S <= VarNames(schemas) &&
    (forall t, d :: t in schemas && t.varName in S && d in t.deps ==> d in S) &&
    (forall t, d :: t in schemas && t.varName in S && d in t.deps && d != t.varName ==> rank(d) < rank(t.varName))
  }

  lemma {:induction false} SaturatedEmitsWithin(schemas: seq<Schema>, st: seq<Statement>, S: set<string>, rank: string -> nat, s: Schema)
    requires Saturated(schemas, st) && RankedWithin(schemas, S, rank)
    requires s in schemas && s.varName in S
    ensures s.varName in Names(st)
    decreases rank(s.varName)
  {
    forall d | d in s.deps && d != s.varName ensures d in Names(st) {
      assert d in S && d in VarNames(schemas);
      var t :| t in schemas && t.varName == d;
      SaturatedEmitsWithin(schemas, st, S, rank, t);
    }
  }

  /** Completeness modulo cycles: with one pass per schema, a schema none of
      whose direct or indirect dependencies lies on a cycle of two or more is
      emitted and not reported, whatever cycles the other schemas form. */
  lemma EmittedModuloCycles(schemas: seq<Schema>, maxRun: nat, S: set<string>, rank: string -> nat, s: Schema)
    requires maxRun >= |schemas|
    requires RankedWithin(schemas, S, rank)
    requires s in schemas && s.varName in S
    ensures s.varName in Names(Run(schemas, maxRun, []))
    ensures s.varName !in Missing(schemas, Names(Run(schemas, maxRun, [])))
  {
    MissingAll(schemas);
    assert Names([]) == {};
    RunSaturates(schemas, maxRun, []);
    SaturatedEmitsWithin(schemas, Run(schemas, maxRun, []), S, rank, s);
  }

  // ---------------------------------------------------------------------------
  // Cycles of two or more distinct schemas are never emitted

  ghost predicate DistinctVarNames(schemas: seq<Schema>)
  {
    forall i, j :: 0 <= i < j < |schemas| ==> schemas[i].varName != schemas[j].varName
  }

  ghost predicate DependsOn(schemas: seq<Schema>, a: string, b: string)
  {
    exists s :: s in schemas && s.varName == a && b in s.deps
  }

  /** `c` is a closed walk `c[0] -> c[1] -> ... -> c[|c|-1] == c[0]` along
      dependency edges, none of them a self-reference. */
  ghost predicate IsCycle(schemas: seq<Schema>, c: seq<string>)
  {
    |c| >= 2 && c[0] == c[|c| - 1] &&
    forall i :: 0 <= i < |c| - 1 ==> c[i] != c[i + 1] && DependsOn(schemas, c[i], c[i + 1])
  }

  lemma SameName(schemas: seq<Schema>, s: Schema, t: Schema)
    requires DistinctVarNames(schemas) && s in schemas && t in schemas && s.varName == t.varName
    ensures s == t
  {
    var i :| 0 <= i < |schemas| && schemas[i] == s;
    var j :| 0 <= j < |schemas| && schemas[j] == t;
    assert i == j;
  }

  /** With distinct schema names, the definition emitted under a schema's name
      is that schema's own. */
  lemma EmittedAs(schemas: seq<Schema>, st: seq<Statement>, s: Schema, p: nat)
    requires Wf(schemas, st) && DistinctVarNames(schemas)
    requires s in schemas && p < |st| && st[p].varName == s.varName
    ensures st[p] == Emit(s)
  {
    var t :| t in schemas && st[p] == Emit(t);
    SameName(schemas, s, t);
  }

  lemma EarlierDependency(schemas: seq<Schema>, st: seq<Statement>, a: string, b: string, p: nat)
    requires Wf(schemas, st) && DistinctVarNames(schemas)
    requires DependsOn(schemas, a, b) && a != b
    requires p < |st| && st[p].varName == a
    ensures exists q :: 0 <= q < p && st[q].varName == b
  {
    var s :| s in schemas && s.varName == a && b in s.deps;
    EmittedAs(schemas, st, s, p);
    assert b in Names(st[..p]);
    var x :| x in st[..p] && x.varName == b;
    var q :| 0 <= q < p && st[..p][q] == x;
  }

  lemma {:induction false} WalkBack(schemas: seq<Schema>, st: seq<Statement>, c: seq<string>, i: nat, p: nat)
    requires Wf(schemas, st) && DistinctVarNames(schemas) && IsCycle(schemas, c)
    requires i < |c| && p < |st| && st[p].varName == c[i]
    ensures exists q :: 0 <= q <= p - (|c| - 1 - i) && st[q].varName == c[|c| - 1]
    decreases |c| - i
  {
    if i < |c| - 1 {
      EarlierDependency(schemas, st, c[i], c[i + 1], p);
      var q :| 0 <= q < p && st[q].varName == c[i + 1];
      WalkBack(schemas, st, c, i + 1, q);
    }
  }

  /** No member of a cycle of distinct schemas is ever emitted. */
  lemma CycleNotEmitted(schemas: seq<Schema>, st: seq<Statement>, c: seq<string>)
    requires Wf(schemas, st) && DistinctVarNames(schemas) && IsCycle(schemas, c)
    ensures forall k :: 0 <= k < |c| ==> c[k] !in Names(st)
  {
    forall k | 0 <= k < |c| && c[k] in Names(st) ensures false {
      var x :| x in st && x.varName == c[k];
      var p :| 0 <= p < |st| && st[p] == x;
      var p0 := p;
      if k < |c| - 1 {
        WalkBack(schemas, st, c, k, p);
        p0 :| 0 <= p0 <= p && st[p0].varName == c[|c| - 1];
      }
      WalkBack(schemas, st, c, 0, p0);
    }
  }

  /** The members of a cycle of distinct schemas stay pending, whatever the
      pass budget, and are named by the diagnostic. */
  lemma CycleReported(schemas: seq<Schema>, maxRun: nat, c: seq<string>)
    requires DistinctVarNames(schemas) && IsCycle(schemas, c)
    ensures forall k :: 0 <= k < |c| ==> c[k] in Missing(schemas, Names(Run(schemas, maxRun, [])))
    ensures |CycleErrors(Missing(schemas, Names(Run(schemas, maxRun, []))))| == 1
  {
    var st := Run(schemas, maxRun, []);
    RunWf(schemas, maxRun, []);
    CycleNotEmitted(schemas, st, c);
    forall k | 0 <= k < |c| ensures c[k] in VarNames(schemas) {
      var j := if k < |c| - 1 then k else 0;
      assert DependsOn(schemas, c[j], c[j + 1]);
      var s :| s in schemas && s.varName == c[j] && c[j + 1] in s.deps;
    }
    assert c[0] in Missing(schemas, Names(st));
  }

  // ---------------------------------------------------------------------------
  // Self-references and source order

  /** A schema whose only dependency is itself is emitted by the first pass,
      exactly once, behind a lazy wrapper around its own validator, and is not
      reported. */
  lemma SelfReferenceEmittedLazily(schemas: seq<Schema>, maxRun: nat, s: Schema)
    requires DistinctVarNames(schemas) && maxRun >= 1
    requires s in schemas && s.varName in s.deps
    requires forall d :: d in s.deps ==> d == s.varName
    ensures s.varName !in Missing(schemas, Names(Run(schemas, maxRun, [])))
    ensures exists p :: 0 <= p < |Run(schemas, maxRun, [])| && Run(schemas, maxRun, [])[p] == Statement(s.typeName, s.varName, s.exported, s.deps, ZLazy(s.expr))
    ensures forall p, q :: 0 <= p < q < |Run(schemas, maxRun, [])| ==> Run(schemas, maxRun, [])[p].varName != Run(schemas, maxRun, [])[q].varName
  {
    var st := Run(schemas, maxRun, []);
    var first := Pass(schemas, []);
    assert Names([]) == {};
    PassEmitsReady(schemas, [], s);
    assert st == Run(schemas, maxRun - 1, first);
    NamesPrefix(first, st);
    RunWf(schemas, maxRun, []);
    var x :| x in st && x.varName == s.varName;
    var p :| 0 <= p < |st| && st[p] == x;
    EmittedAs(schemas, st, s, p);
  }

  lemma VisitFacts(s: Schema, st: seq<Statement>)
    requires DistinctNames(st)
    ensures DistinctNames(Visit(s, st))
    ensures Names(Visit(s, st)) <= Names(st) + {s.varName}
    ensures s.varName in Names(Visit(s, st)) && s.varName !in Names(st) ==> Visit(s, st) == st + [Emit(s)]
  {
    var st1 := Visit(s, st);
    if st1 != st {
      NamesAppend(st, Emit(s));
      forall i, j | 0 <= i < j < |st1| ensures st1[i].varName != st1[j].varName {
        if j == |st| {
          assert st1[i] in st;
        }
      }
    }
  }

  lemma HeadNameNotInTail(ss: seq<Schema>)
    requires DistinctVarNames(ss) && ss != []
    ensures ss[0].varName !in VarNames(ss[1..])
    ensures DistinctVarNames(ss[1..])
  {
    forall t | t in ss[1..] ensures t.varName != ss[0].varName {
      var k :| 0 <= k < |ss[1..]| && ss[1..][k] == t;
      assert t == ss[k + 1];
    }
  }

  /** Wherever `a` and `b` both occur in `st`, `a` comes first. */
  ghost predicate Before(st: seq<Statement>, a: string, b: string)
  {
    forall p, q :: 0 <= p < |st| && 0 <= q < |st| && st[p].varName == a && st[q].varName == b ==> p < q
  }

  /** The first schema of a pass, if the pass emits it at all, is emitted at
      the first free position. */
  lemma FirstOfPass(ss: seq<Schema>, st: seq<Statement>, j: nat)
    requires DistinctVarNames(ss) && DistinctNames(st)
    requires 0 < j < |ss|
    requires ss[0].varName !in Names(st) && ss[j].varName !in Names(st)
    requires ss[0].varName in Names(Pass(ss, st))
    ensures Before(Pass(ss, st), ss[0].varName, ss[j].varName)
  {
    var a, b := ss[0].varName, ss[j].varName;
    var st1 := Visit(ss[0], st);
    var r := Pass(ss[1..], st1);
    assert Pass(ss, st) == r;
    PassNames(ss[1..], st1);
    HeadNameNotInTail(ss);
    assert a in Names(st1);
    VisitFacts(ss[0], st);
    PassDistinct(ss[1..], st1);
    assert b != a by {
      assert ss[j] in ss[1..];
    }
    AppendedFirst(r, st, Emit(ss[0]), b);
  }

  /** A definition appended right after `st` comes before any later one
      whose name `st` does not hold. */
  lemma AppendedFirst(r: seq<Statement>, st: seq<Statement>, x: Statement, b: string)
    requires st + [x] <= r && DistinctNames(r)
    requires b != x.varName && b !in Names(st)
    ensures Before(r, x.varName, b)
  {
    forall p, q | 0 <= p < |r| && 0 <= q < |r| && r[p].varName == x.varName && r[q].varName == b
      ensures p < q
    {
      assert r[|st|] == x;
      assert p == |st|;
    }
  }

  /** Two schemas emitted by the same pass appear in source order. */
  lemma {:induction false} SamePassSourceOrder(ss: seq<Schema>, st: seq<Statement>, i: nat, j: nat, a: string, b: string)
    requires DistinctVarNames(ss) && DistinctNames(st)
    requires i < j < |ss| && ss[i].varName == a && ss[j].varName == b
    requires a !in Names(st) && b !in Names(st)
    requires a in Names(Pass(ss, st)) && b in Names(Pass(ss, st))
    ensures Before(Pass(ss, st), a, b)
    decreases |ss|, 1
  {
    if i == 0 {
      FirstOfPass(ss, st, j);
    } else {
      SamePassLater(ss, st, i, j, a, b);
    }
  }

  /** The induction step: neither schema is the first of the pass. */
  lemma {:induction false} SamePassLater(ss: seq<Schema>, st: seq<Statement>, i: nat, j: nat, a: string, b: string)
    requires DistinctVarNames(ss) && DistinctNames(st)
    requires 0 < i < j < |ss| && ss[i].varName == a && ss[j].varName == b
    requires a !in Names(st) && b !in Names(st)
    requires a in Names(Pass(ss, st)) && b in Names(Pass(ss, st))
    ensures Before(Pass(ss, st), a, b)
    decreases |ss|, 0
  {
    var tail := ss[1..];
    var st1 := Visit(ss[0], st);
    var r := Pass(tail, st1);
    assert Pass(ss, st) == r;
    LaterInTail(ss, i, j);
    VisitOther(ss[0], st, a);
    VisitOther(ss[0], st, b);
    assert a in Names(r) && b in Names(r);
    SamePassSourceOrder(tail, st1, i - 1, j - 1, a, b);
    assert Before(r, a, b);
  }

  lemma LaterInTail(ss: seq<Schema>, i: nat, j: nat)
    requires DistinctVarNames(ss) && 0 < i < j < |ss|
    ensures DistinctVarNames(ss[1..])
    ensures ss[1..][i - 1] == ss[i] && ss[1..][j - 1] == ss[j]
    ensures ss[i].varName != ss[0].varName && ss[j].varName != ss[0].varName
  {
    HeadNameNotInTail(ss);
  }

  /** Visiting another schema leaves a pending name pending. */
  lemma VisitOther(s: Schema, st: seq<Statement>, a: string)
    requires DistinctNames(st) && a != s.varName && a !in Names(st)
    ensures DistinctNames(Visit(s, st)) && a !in Names(Visit(s, st))
  {
    VisitFacts(s, st);
  }

  /** Schemas that depend on nothing but themselves keep their source order in
      the output. */
  lemma IndependentInSourceOrder(schemas: seq<Schema>, maxRun: nat, i: nat, j: nat)
    requires DistinctVarNames(schemas) && maxRun >= 1
    requires i < j < |schemas|
    requires Ready(schemas[i], {}) && Ready(schemas[j], {})
    ensures schemas[i].varName in Names(Run(schemas, maxRun, [])) && schemas[j].varName in Names(Run(schemas, maxRun, []))
    ensures Before(Run(schemas, maxRun, []), schemas[i].varName, schemas[j].varName)
  {
    var st := Run(schemas, maxRun, []);
    var first := Pass(schemas, []);
    assert Names([]) == {};
    PassEmitsReady(schemas, [], schemas[i]);
    PassEmitsReady(schemas, [], schemas[j]);
    assert st == Run(schemas, maxRun - 1, first);
    NamesPrefix(first, st);
    SamePassSourceOrder(schemas, [], i, j, schemas[i].varName, schemas[j].varName);
    RunWf(schemas, maxRun, []);
    PrefixKeepsOrder(first, st, schemas[i].varName, schemas[j].varName);
  }

  /** Later passes only append: two names placed in order stay in that order. */
  lemma PrefixKeepsOrder(first: seq<Statement>, st: seq<Statement>, a: string, b: string)
    requires first <= st && DistinctNames(st)
    requires a in Names(first) && b in Names(first)
    requires Before(first, a, b)
    ensures Before(st, a, b)
  {
    var x :| x in first && x.varName == a;
    var p0 :| 0 <= p0 < |first| && first[p0] == x;
    var y :| y in first && y.varName == b;
    var q0 :| 0 <= q0 < |first| && first[q0] == y;
    assert st[p0] == first[p0] && st[q0] == first[q0];
  }

  /** A run of `a + b` passes is a run of `a` passes followed by `b` more. */
  lemma {:induction false} RunSplit(schemas: seq<Schema>, a: nat, b: nat, st: seq<Statement>)
    ensures Run(schemas, a + b, st) == Run(schemas, b, Run(schemas, a, st))
    decreases a
  {
    if a != 0 && |st| != |schemas| {
      RunSplit(schemas, a - 1, b, Pass(schemas, st));
    }
  }

  /** Pass `k + 1` of a run from nothing is either no pass at all (every
      schema already emitted) or exactly one pass over the output of `k`. */
  lemma RunStep(schemas: seq<Schema>, k: nat)
    ensures Run(schemas, k + 1, []) == Run(schemas, k, []) ||
            Run(schemas, k + 1, []) == Pass(schemas, Run(schemas, k, []))
  {
    RunSplit(schemas, k, 1, []);
    var st := Run(schemas, k, []);
    assert Run(schemas, 1, st) == st || Run(schemas, 1, st) == Pass(schemas, st);
  }

  /** A longer budget only appends to the output of a shorter one. */
  lemma RunExtends(schemas: seq<Schema>, n: nat, m: nat)
    requires n <= m
    ensures Run(schemas, n, []) <= Run(schemas, m, [])
  {
    RunSplit(schemas, n, m - n, []);
    assert n + (m - n) == m;
  }

  /** Two schemas that become ready in the same pass, whichever pass that is,
      keep their source order in the output: in `[A, B -> A, C]`, `B` and `C`
      are both emitted by the first pass, `B` first. */
  lemma SamePassInSourceOrder(schemas: seq<Schema>, maxRun: nat, k: nat, i: nat, j: nat)
    requires DistinctVarNames(schemas)
    requires k < maxRun && i < j < |schemas|
    requires schemas[i].varName !in Names(Run(schemas, k, [])) && schemas[j].varName !in Names(Run(schemas, k, []))
    requires schemas[i].varName in Names(Run(schemas, k + 1, [])) && schemas[j].varName in Names(Run(schemas, k + 1, []))
    ensures schemas[i].varName in Names(Run(schemas, maxRun, [])) && schemas[j].varName in Names(Run(schemas, maxRun, []))
    ensures Before(Run(schemas, maxRun, []), schemas[i].varName, schemas[j].varName)
  {
    var a, b := schemas[i].varName, schemas[j].varName;
    var before := Run(schemas, k, []);
    var after := Run(schemas, k + 1, []);
    var st := Run(schemas, maxRun, []);
    RunStep(schemas, k);
    assert after == Pass(schemas, before);
    RunWf(schemas, k, []);
    SamePassSourceOrder(schemas, before, i, j, a, b);
    RunExtends(schemas, k + 1, maxRun);
    RunWf(schemas, maxRun, []);
    NamesPrefix(after, st);
    PrefixKeepsOrder(after, st, a, b);
  }

  // ---------------------------------------------------------------------------
  // References in emitted definitions

  /** Each validator refers to exactly the schema's dependencies. */
  ghost predicate RefsAreDeps(schemas: seq<Schema>)
  {
    forall s :: s in schemas ==> ExprRefs(s.expr) == s.deps
  }

  /** Every reference in an emitted definition names a definition emitted
      earlier, or is the definition's own name behind its lazy wrapper. */
  lemma DefinitionsReferBack(schemas: seq<Schema>, st: seq<Statement>)
    requires Wf(schemas, st) && RefsAreDeps(schemas)
    ensures forall i, x :: 0 <= i < |st| && x in ExprRefs(st[i].expr) ==>
      x in Names(st[..i]) || (x == st[i].varName && st[i].expr.ZLazy?)
  {
    forall i, x | 0 <= i < |st| && x in ExprRefs(st[i].expr)
      ensures x in Names(st[..i]) || (x == st[i].varName && st[i].expr.ZLazy?)
    {
      var s :| s in schemas && st[i] == Emit(s);
      assert x in s.deps;
    }
  }
}
