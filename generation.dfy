/** One `generate` call: select the declarations, compile each into a schema,
    order the schemas, and list the exported ones for the type-equivalence
    assertions. */
module Generation {
  import opened Declarations
  import opened Resolver
  import opened Selection
  import opened Shapes
  import opened Ordering

  /** The schema of one selected declaration. Its schema name comes from the
      naming option applied to its flattened identifier, and so does every
      reference to it. */
  function CompileDecl(decls: seq<Declaration>, opts: Options, d: Declaration): (r: Schema)
    ensures r.typeName == Id(d) && r.varName == opts.schemaName(Id(d)) && r.exported == d.exported
    ensures r.deps == MapNames(opts.schemaName, DependencyIds(decls, d))
    ensures ExprRefs(r.expr) == r.deps
    ensures Eager(r.expr)
  {
    BodyRefsAreDependencies(decls, d, opts.schemaName);
    Schema(Id(d), opts.schemaName(Id(d)), d.exported,
           MapNames(opts.schemaName, DependencyIds(decls, d)),
           CompileBody(decls, d, opts.schemaName))
  }

  function CompileAll(decls: seq<Declaration>, opts: Options, selected: seq<Declaration>): (r: seq<Schema>)
    ensures |r| == |selected|
    ensures forall k :: 0 <= k < |r| ==> r[k] == CompileDecl(decls, opts, selected[k])
  {
    if selected == [] then []
    else [CompileDecl(decls, opts, selected[0])] + CompileAll(decls, opts, selected[1..])
  }

  /** The schemas of the selected declarations, in source order. */
  function Schemas(decls: seq<Declaration>, opts: Options): (r: seq<Schema>)
    ensures |r| <= |decls|
  {
    CompileAll(decls, opts, Select(decls, opts))
  }

  /** One type-equivalence assertion: the declared type and the schema whose
      inferred type must match it. */
  datatype Assertion = Assertion(typeName: string, varName: string)

  /** The assertions for the exported definitions, in emission order. */
  function Integration(st: seq<Statement>): (r: seq<Assertion>)
    ensures |r| <= |st|
    ensures forall a :: a in r <==> exists k :: 0 <= k < |st| && st[k].exported && a == Assertion(st[k].typeName, st[k].varName)
  {
    if st == [] then []
    else
      var rest := Integration(st[1..]);
      assert forall k :: 0 < k < |st| ==> st[k] == st[1..][k - 1];
      if st[0].exported then [Assertion(st[0].typeName, st[0].varName)] + rest else rest
  }

  /** The assertions keep the emission order: those of a prefix come first. */
  lemma {:induction false} IntegrationAppend(a: seq<Statement>, b: seq<Statement>)
    ensures Integration(a + b) == Integration(a) + Integration(b)
  {
    if a == [] {
      assert a + b == b;
    } else {
      assert (a + b)[0] == a[0];
      assert (a + b)[1..] == a[1..] + b;
      IntegrationAppend(a[1..], b);
      var head := if a[0].exported then [Assertion(a[0].typeName, a[0].varName)] else [];
      assert Integration(a + b) == head + Integration(a[1..] + b);
      assert Integration(a) == head + Integration(a[1..]);
    }
  }

  datatype Output = Output(statements: seq<Statement>, integration: seq<Assertion>, errors: seq<string>)

  /** The generator: emission order, type-equivalence list and diagnostics. */
  method Generate(decls: seq<Declaration>, opts: Options) returns (out: Output)
    ensures out.statements == Run(Schemas(decls, opts), opts.maxRun, [])
    ensures out.integration == Integration(out.statements)
    ensures out.errors == CycleErrors(Missing(Schemas(decls, opts), Names(out.statements)))
    ensures forall i, x :: 0 <= i < |out.statements| && x in ExprRefs(out.statements[i].expr) ==>
      x in Names(out.statements[..i]) || (x == out.statements[i].varName && out.statements[i].expr.ZLazy?)
  {
    var schemas := Schemas(decls, opts);
    var statements, errors := ResolveOrder(schemas, opts.maxRun);
    SchemasRefsAreDeps(decls, opts, Select(decls, opts));
    DefinitionsReferBack(schemas, statements);
    out := Output(statements, Integration(statements), errors);
  }

  lemma SchemasRefsAreDeps(decls: seq<Declaration>, opts: Options, selected: seq<Declaration>)
    ensures RefsAreDeps(CompileAll(decls, opts, selected))
  {
    var schemas := CompileAll(decls, opts, selected);
    forall s | s in schemas ensures ExprRefs(s.expr) == s.deps {
      var k :| 0 <= k < |schemas| && schemas[k] == s;
    }
  }

  function IdsOf(selected: seq<Declaration>): set<string>
  {
    set e | e in selected :: Id(e)
  }

  /** A dependency of a compiled schema is the schema name of one of the
      declaration's dependency identifiers. */
  lemma DepOrigin(decls: seq<Declaration>, opts: Options, d: Declaration, v: string)
    requires v in CompileDecl(decls, opts, d).deps
    ensures exists x :: x in DependencyIds(decls, d) && v == opts.schemaName(x)
  {
    var ids := DependencyIds(decls, d);
    var names := MapNames(opts.schemaName, ids);
    var m :| 0 <= m < |names| && names[m] == v;
    assert ids[m] in ids;
  }

  lemma CompiledAt(decls: seq<Declaration>, opts: Options, selected: seq<Declaration>, s: Schema)
    requires s in CompileAll(decls, opts, selected)
    ensures exists d :: d in selected && s == CompileDecl(decls, opts, d)
  {
    var schemas := CompileAll(decls, opts, selected);
    var k :| 0 <= k < |schemas| && schemas[k] == s;
    assert selected[k] in selected;
  }

  lemma CompiledIn(decls: seq<Declaration>, opts: Options, selected: seq<Declaration>, d: Declaration)
    requires d in selected
    ensures opts.schemaName(Id(d)) in VarNames(CompileAll(decls, opts, selected))
  {
    var schemas := CompileAll(decls, opts, selected);
    var k :| 0 <= k < |selected| && selected[k] == d;
    assert schemas[k] in schemas;
  }

  lemma DeclaredDep(decls: seq<Declaration>, opts: Options, selected: seq<Declaration>, x: string)
    requires x in IdsOf(selected)
    ensures opts.schemaName(x) in VarNames(CompileAll(decls, opts, selected))
  {
    var e :| e in selected && Id(e) == x;
    CompiledIn(decls, opts, selected, e);
  }

  lemma CompiledDepsDeclared(decls: seq<Declaration>, opts: Options, selected: seq<Declaration>)
    requires forall d, x :: d in selected && x in DependencyIds(decls, d) ==> x in IdsOf(selected)
    ensures DepsDeclared(CompileAll(decls, opts, selected))
  {
    var schemas := CompileAll(decls, opts, selected);
    forall s, v | s in schemas && v in s.deps ensures v in VarNames(schemas) {
      CompiledAt(decls, opts, selected, s);
      var d :| d in selected && s == CompileDecl(decls, opts, d);
      DepOrigin(decls, opts, d, v);
      var x :| x in DependencyIds(decls, d) && v == opts.schemaName(x);
      DeclaredDep(decls, opts, selected, x);
    }
  }

  /** Every reference in a compiled schema is the schema name of a selected
      declaration: definitions and references use the same name. */
  lemma ReferencesAreDefined(decls: seq<Declaration>, opts: Options)
    ensures DepsDeclared(Schemas(decls, opts))
  {
    var selected := Select(decls, opts);
    forall d, x | d in selected && x in DependencyIds(decls, d) ensures x in IdsOf(selected) {
      SelectedDependenciesSelected(decls, opts, d, x);
    }
    CompiledDepsDeclared(decls, opts, selected);
  }

  lemma CompiledRanked(decls: seq<Declaration>, opts: Options, selected: seq<Declaration>, rank: string -> nat)
    requires forall d, x :: (d in selected && x in DependencyIds(decls, d) && opts.schemaName(x) != opts.schemaName(Id(d))) ==>
      rank(opts.schemaName(x)) < rank(opts.schemaName(Id(d)))
    ensures RankedBy(CompileAll(decls, opts, selected), rank)
  {
    var schemas := CompileAll(decls, opts, selected);
    forall s, v | s in schemas && v in s.deps && v != s.varName ensures rank(v) < rank(s.varName) {
      CompiledAt(decls, opts, selected, s);
      var d :| d in selected && s == CompileDecl(decls, opts, d);
      DepOrigin(decls, opts, d, v);
    }
  }

  lemma CompiledNames(decls: seq<Declaration>, opts: Options, selected: seq<Declaration>, st: seq<Statement>)
    requires forall s :: s in CompileAll(decls, opts, selected) ==> s.varName in Names(st)
    ensures forall d :: d in selected ==> opts.schemaName(Id(d)) in Names(st)
  {
    forall d | d in selected ensures opts.schemaName(Id(d)) in Names(st) {
      CompiledIn(decls, opts, selected, d);
    }
  }

  /** A declaration set whose dependencies (self-references aside) can be
      ranked — no cycle of two or more — is generated completely and without
      diagnostic, given one pass per declaration. */
  lemma AcyclicGeneratesAll(decls: seq<Declaration>, opts: Options, rank: string -> nat)
    requires opts.maxRun >= |decls|
    requires forall d, x :: (d in decls && x in DependencyIds(decls, d) && opts.schemaName(x) != opts.schemaName(Id(d))) ==>
      rank(opts.schemaName(x)) < rank(opts.schemaName(Id(d)))
    ensures forall d :: d in Select(decls, opts) ==> opts.schemaName(Id(d)) in Names(Run(Schemas(decls, opts), opts.maxRun, []))
    ensures CycleErrors(Missing(Schemas(decls, opts), Names(Run(Schemas(decls, opts), opts.maxRun, [])))) == []
    ensures SchemaNamesDistinct(decls, opts) ==>
      forall d :: d in Select(decls, opts) ==> Emit(CompileDecl(decls, opts, d)) in Run(Schemas(decls, opts), opts.maxRun, [])
  {
    var schemas := Schemas(decls, opts);
    var selected := Select(decls, opts);
    ReferencesAreDefined(decls, opts);
    CompiledRanked(decls, opts, selected, rank);
    AcyclicEmitsAll(schemas, opts.maxRun, rank);
    CompiledNames(decls, opts, selected, Run(schemas, opts.maxRun, []));
    if SchemaNamesDistinct(decls, opts) {
      forall e, x | e in decls && Id(e) in Ids(decls) && x in DependencyIds(decls, e) ensures x in Ids(decls) {
        var k :| 0 <= k < |DependencyIds(decls, e)| && DependencyIds(decls, e)[k] == x;
      }
      forall d | d in selected ensures Emit(CompileDecl(decls, opts, d)) in Run(schemas, opts.maxRun, []) {
        GeneratedModuloCycles(decls, opts, Ids(decls), rank, d);
      }
    }
  }

  /** Selected declarations whose schemas form a cycle get no definition and
      no assertion, whatever the pass budget; they are named by the one
      diagnostic. */
  lemma CycleDropped(decls: seq<Declaration>, opts: Options, c: seq<string>)
    requires DistinctVarNames(Schemas(decls, opts)) && IsCycle(Schemas(decls, opts), c)
    ensures forall k :: 0 <= k < |c| ==> c[k] !in Names(Run(Schemas(decls, opts), opts.maxRun, []))
    ensures forall k, a :: 0 <= k < |c| && a in Integration(Run(Schemas(decls, opts), opts.maxRun, [])) ==> a.varName != c[k]
    ensures forall k :: 0 <= k < |c| ==> c[k] in Missing(Schemas(decls, opts), Names(Run(Schemas(decls, opts), opts.maxRun, [])))
    ensures |CycleErrors(Missing(Schemas(decls, opts), Names(Run(Schemas(decls, opts), opts.maxRun, []))))| == 1
  {
    var schemas := Schemas(decls, opts);
    var st := Run(schemas, opts.maxRun, []);
    RunWf(schemas, opts.maxRun, []);
    CycleNotEmitted(schemas, st, c);
    CycleReported(schemas, opts.maxRun, c);
    forall k, a | 0 <= k < |c| && a in Integration(st) ensures a.varName != c[k] {
      var p :| 0 <= p < |st| && st[p].exported && a == Assertion(st[p].typeName, st[p].varName);
      assert st[p] in st;
    }
  }

  /** `idx` gives, for each schema, the position of the declaration it was
      compiled from; positions increase along the schemas. */
  ghost predicate CompiledInOrder(idx: seq<nat>, decls: seq<Declaration>, opts: Options)
  {
    |idx| == |Schemas(decls, opts)| &&
    (forall k :: 0 <= k < |idx| ==> idx[k] < |decls| && Schemas(decls, opts)[k] == CompileDecl(decls, opts, decls[idx[k]])) &&
    (forall k, l :: 0 <= k < l < |idx| ==> idx[k] < idx[l])
  }

  /** The schemas come in the order their declarations are declared, whatever
      the filters drop. */
  lemma SchemasInSourceOrder(decls: seq<Declaration>, opts: Options)
    ensures exists idx :: CompiledInOrder(idx, decls, opts)
  {
    SelectInOrder(decls, opts);
    var idx :| Embeds(idx, Select(decls, opts), decls);
    assert CompiledInOrder(idx, decls, opts);
  }

  /** Of two pending schemas, the diagnostic lists first the one whose
      declaration comes first in the source. */
  lemma PendingInDeclarationOrder(decls: seq<Declaration>, opts: Options, i: nat, j: nat)
    requires i < j < |Schemas(decls, opts)|
    requires Schemas(decls, opts)[i].varName !in Names(Run(Schemas(decls, opts), opts.maxRun, []))
    requires Schemas(decls, opts)[j].varName !in Names(Run(Schemas(decls, opts), opts.maxRun, []))
    ensures exists a, b ::
      0 <= a < b < |decls| &&
      Schemas(decls, opts)[i] == CompileDecl(decls, opts, decls[a]) &&
      Schemas(decls, opts)[j] == CompileDecl(decls, opts, decls[b])
    ensures exists p, q ::
      0 <= p < q < |Missing(Schemas(decls, opts), Names(Run(Schemas(decls, opts), opts.maxRun, [])))| &&
      Missing(Schemas(decls, opts), Names(Run(Schemas(decls, opts), opts.maxRun, [])))[p] == Schemas(decls, opts)[i].varName &&
      Missing(Schemas(decls, opts), Names(Run(Schemas(decls, opts), opts.maxRun, [])))[q] == Schemas(decls, opts)[j].varName
  {
    SchemasInSourceOrder(decls, opts);
    var idx :| CompiledInOrder(idx, decls, opts);
    assert idx[i] < idx[j];
    MissingInSourceOrder(Schemas(decls, opts), Names(Run(Schemas(decls, opts), opts.maxRun, [])), i, j);
  }

  /** Distinct declarations get distinct schema names. */
  ghost predicate SchemaNamesDistinct(decls: seq<Declaration>, opts: Options)
  {
    forall a, b :: a in decls && b in decls && opts.schemaName(Id(a)) == opts.schemaName(Id(b)) ==> a == b
  }

  /** The schema names of the selected declarations whose identifiers are in `D`. */
  function NamesOfSelected(decls: seq<Declaration>, opts: Options, D: set<string>): set<string>
  {
    set e | e in Select(decls, opts) && Id(e) in D :: opts.schemaName(Id(e))
  }

  /** With distinct schema names, a compiled schema named after a selected
      declaration is that declaration's own schema. */
  lemma CompiledFrom(decls: seq<Declaration>, opts: Options, t: Schema, d: Declaration)
    requires SchemaNamesDistinct(decls, opts)
    requires t in Schemas(decls, opts) && d in Select(decls, opts)
    requires t.varName == opts.schemaName(Id(d))
    ensures t == CompileDecl(decls, opts, d)
  {
    CompiledAt(decls, opts, Select(decls, opts), t);
    var e :| e in Select(decls, opts) && t == CompileDecl(decls, opts, e);
  }

  lemma NamesOfSelectedRanked(decls: seq<Declaration>, opts: Options, D: set<string>, rank: string -> nat)
    requires SchemaNamesDistinct(decls, opts)
    requires forall e, x :: e in decls && Id(e) in D && x in DependencyIds(decls, e) ==> x in D
    requires forall e, x :: (e in decls && Id(e) in D && x in DependencyIds(decls, e) && opts.schemaName(x) != opts.schemaName(Id(e))) ==>
      rank(opts.schemaName(x)) < rank(opts.schemaName(Id(e)))
    ensures RankedWithin(Schemas(decls, opts), NamesOfSelected(decls, opts, D), rank)
  {
    var schemas := Schemas(decls, opts);
    var selected := Select(decls, opts);
    var S := NamesOfSelected(decls, opts, D);
    forall v | v in S ensures v in VarNames(schemas) {
      var e :| e in selected && Id(e) in D && v == opts.schemaName(Id(e));
      CompiledIn(decls, opts, selected, e);
    }
    forall t, v | t in schemas && t.varName in S && v in t.deps
      ensures v in S && (v != t.varName ==> rank(v) < rank(t.varName))
    {
      var e :| e in selected && Id(e) in D && t.varName == opts.schemaName(Id(e));
      CompiledFrom(decls, opts, t, e);
      DepOrigin(decls, opts, e, v);
      var x :| x in DependencyIds(decls, e) && v == opts.schemaName(x);
      SelectedDependenciesSelected(decls, opts, e, x);
      var f :| f in selected && Id(f) == x;
    }
  }

  /** Completeness modulo cycles, for a whole `generate` call: a selected
      declaration whose direct and indirect dependencies (the identifiers in
      `D`) form no cycle of two or more gets its own definition emitted, given
      one pass per declaration and distinct schema names, whatever cycles the
      other declarations form. */
  lemma GeneratedModuloCycles(decls: seq<Declaration>, opts: Options, D: set<string>, rank: string -> nat, d: Declaration)
    requires opts.maxRun >= |decls|
    requires SchemaNamesDistinct(decls, opts)
    requires d in Select(decls, opts) && Id(d) in D
    requires forall e, x :: e in decls && Id(e) in D && x in DependencyIds(decls, e) ==> x in D
    requires forall e, x :: (e in decls && Id(e) in D && x in DependencyIds(decls, e) && opts.schemaName(x) != opts.schemaName(Id(e))) ==>
      rank(opts.schemaName(x)) < rank(opts.schemaName(Id(e)))
    ensures Emit(CompileDecl(decls, opts, d)) in Run(Schemas(decls, opts), opts.maxRun, [])
    ensures opts.schemaName(Id(d)) !in Missing(Schemas(decls, opts), Names(Run(Schemas(decls, opts), opts.maxRun, [])))
  {
    var schemas := Schemas(decls, opts);
    var st := Run(schemas, opts.maxRun, []);
    var s := CompileDecl(decls, opts, d);
    NamesOfSelectedRanked(decls, opts, D, rank);
    CompiledIn(decls, opts, Select(decls, opts), d);
    var t :| t in schemas && t.varName == s.varName;
    CompiledFrom(decls, opts, t, d);
    EmittedModuloCycles(schemas, opts.maxRun, NamesOfSelected(decls, opts, D), rank, s);
    RunWf(schemas, opts.maxRun, []);
    var x :| x in st && x.varName == s.varName;
    var k :| 0 <= k < |st| && st[k] == x;
    var u :| u in schemas && st[k] == Emit(u);
    CompiledFrom(decls, opts, u, d);
  }

  /** A non-exported definition gets no type-equivalence assertion; an exported
      one does, even when it depends on a non-exported one. */
  lemma IntegrationSkipsNonExported(st: seq<Statement>, k: nat)
    requires k < |st| && DistinctNames(st)
    ensures st[k].exported <==> Assertion(st[k].typeName, st[k].varName) in Integration(st)
  {
    if Assertion(st[k].typeName, st[k].varName) in Integration(st) {
      var j :| 0 <= j < |st| && st[j].exported && Assertion(st[k].typeName, st[k].varName) == Assertion(st[j].typeName, st[j].varName);
      assert j == k;
    }
  }
}
