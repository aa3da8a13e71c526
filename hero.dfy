/** The hero scenario: `Name`, then `BadassSuperman` (which omits a key of
    `Superman`), then `Superman`, all inside the namespace path `ns`, with
    `Superman` exported or not, and documentation tags given by `tags`. */
module HeroScenario {
  import opened Naming
  import opened Declarations
  import opened Resolver
  import opened Selection
  import opened Shapes
  import opened Ordering
  import opened Generation
  import opened Scenarios

  function NameType(): Type
  {
    UnionOf([Lit(StringLit("superman")), Lit(StringLit("clark kent")), Lit(StringLit("kal-l"))])
  }

  function SupermanFields(): seq<Field>
  {
    [Prop("name", Ref("Name")),
     Prop("age", Prim(PNumber)),
     Field("underKryptonite", true, [], Prim(PBoolean)),
     Field("email", false, [Tag("format", "email")], Prim(PString))]
  }

  function HeroDecls(ns: seq<string>, supermanExported: bool, tags: string -> seq<Tag>): seq<Declaration>
  {
    [Declaration(ns, "Name", true, tags("Name"), Alias(NameType())),
     Declaration(ns, "BadassSuperman", true, tags("BadassSuperman"), Alias(Omit(Ref("Superman"), ["underKryptonite"]))),
     Declaration(ns, "Superman", supermanExported, tags("Superman"), Interface(SupermanFields()))]
  }

  /** The schema names under the default options. */
  function NameVar(ns: seq<string>): string { DefaultSchemaName(Flatten(ns, "Name")) }
  function BadassVar(ns: seq<string>): string { DefaultSchemaName(Flatten(ns, "BadassSuperman")) }
  function SupermanVar(ns: seq<string>): string { DefaultSchemaName(Flatten(ns, "Superman")) }

  function NameSchema(ns: seq<string>): Schema
  {
    Schema(Flatten(ns, "Name"), NameVar(ns), true, [],
           ZUnion([ZLiteral(StringLit("superman")), ZLiteral(StringLit("clark kent")), ZLiteral(StringLit("kal-l"))]))
  }

  function BadassSchema(ns: seq<string>): Schema
  {
    Schema(Flatten(ns, "BadassSuperman"), BadassVar(ns), true, [SupermanVar(ns)],
           ZOmit(ZRef(SupermanVar(ns)), ["underKryptonite"]))
  }

  function SupermanSchema(ns: seq<string>, supermanExported: bool): Schema
  {
    Schema(Flatten(ns, "Superman"), SupermanVar(ns), supermanExported, [NameVar(ns)],
           ZObject([Entry("name", ZRef(NameVar(ns))),
                    Entry("age", ZPrimitive(PNumber)),
                    Entry("underKryptonite", ZOptional(ZPrimitive(PBoolean))),
                    Entry("email", ZEmail(ZPrimitive(PString)))]))
  }

  lemma HeroIds(ns: seq<string>, supermanExported: bool, tags: string -> seq<Tag>)
    ensures Ids(HeroDecls(ns, supermanExported, tags)) == {Flatten(ns, "Name"), Flatten(ns, "BadassSuperman"), Flatten(ns, "Superman")}
  {
    var decls := HeroDecls(ns, supermanExported, tags);
    assert Id(decls[0]) == Flatten(ns, "Name");
    assert Id(decls[1]) == Flatten(ns, "BadassSuperman");
    assert Id(decls[2]) == Flatten(ns, "Superman");
  }

  /** The three schema names differ (their lengths do). */
  lemma HeroVarsDistinct(ns: seq<string>)
    ensures NameVar(ns) != SupermanVar(ns) && NameVar(ns) != BadassVar(ns) && SupermanVar(ns) != BadassVar(ns)
  {
    assert |NameVar(ns)| == |Concat(ns)| + 10;
    assert |SupermanVar(ns)| == |Concat(ns)| + 14;
    assert |BadassVar(ns)| == |Concat(ns)| + 20;
  }

  lemma HeroRef(ns: seq<string>, supermanExported: bool, tags: string -> seq<Tag>, token: string)
    requires token in {"Name", "Superman"}
    ensures TypeRefs(HeroDecls(ns, supermanExported, tags), ns, Ref(token)) == [Flatten(ns, token)]
    ensures CompileType(HeroDecls(ns, supermanExported, tags), ns, DefaultSchemaName, Ref(token)) == ZRef(DefaultSchemaName(Flatten(ns, token)))
  {
    HeroIds(ns, supermanExported, tags);
  }

  /** The literal union `Name` compiles to the union of its three literals,
      whatever the naming, and refers to nothing. */
  lemma NameExprCompiled(decls: seq<Declaration>, ns: seq<string>, name: string -> string)
    ensures CompileType(decls, ns, name, NameType()) == NameSchema(ns).expr
    ensures TypeRefs(decls, ns, NameType()) == []
  {
    var ts := NameType().options;
    LiteralUnion(decls, ns, name, ts);
    var es := seq(|ts|, k requires 0 <= k < |ts| => ZLiteral(ts[k].lit));
    Three(es, ZLiteral(StringLit("superman")), ZLiteral(StringLit("clark kent")), ZLiteral(StringLit("kal-l")));
    LiteralsHaveNoRefs(decls, ns, ts);
  }

  lemma NameCompiled(ns: seq<string>, supermanExported: bool, tags: string -> seq<Tag>)
    ensures CompileDecl(HeroDecls(ns, supermanExported, tags), DefaultOptions(), HeroDecls(ns, supermanExported, tags)[0]) == NameSchema(ns)
  {
    var decls := HeroDecls(ns, supermanExported, tags);
    NameExprCompiled(decls, ns, DefaultSchemaName);
    AliasCompiled(decls, DefaultOptions(), decls[0], [], NameSchema(ns).expr);
  }

  lemma BadassCompiled(ns: seq<string>, supermanExported: bool, tags: string -> seq<Tag>)
    ensures CompileDecl(HeroDecls(ns, supermanExported, tags), DefaultOptions(), HeroDecls(ns, supermanExported, tags)[1]) == BadassSchema(ns)
  {
    HeroRef(ns, supermanExported, tags, "Superman");
  }

  lemma SupermanDeps(ns: seq<string>, supermanExported: bool, tags: string -> seq<Tag>)
    ensures FieldsRefs(HeroDecls(ns, supermanExported, tags), ns, SupermanFields()) == [Flatten(ns, "Name")]
  {
    var fs := SupermanFields();
    HeroRef(ns, supermanExported, tags, "Name");
    FieldsOfFour(HeroDecls(ns, supermanExported, tags), ns, DefaultSchemaName, fs[0], fs[1], fs[2], fs[3]);
  }

  lemma EmailCompiled(ns: seq<string>, supermanExported: bool, tags: string -> seq<Tag>)
    ensures CompileField(HeroDecls(ns, supermanExported, tags), ns, DefaultSchemaName, SupermanFields()[3]) ==
      Entry("email", ZEmail(ZPrimitive(PString)))
  {
    var f := SupermanFields()[3];
    assert HasEmailFormat(f.tags) by {
      assert f.tags[0] == Tag("format", "email");
    }
  }

  lemma SupermanFieldsCompiled(ns: seq<string>, supermanExported: bool, tags: string -> seq<Tag>)
    ensures CompileFields(HeroDecls(ns, supermanExported, tags), ns, DefaultSchemaName, SupermanFields()) ==
      SupermanSchema(ns, supermanExported).expr.entries
  {
    var decls := HeroDecls(ns, supermanExported, tags);
    var fs := SupermanFields();
    HeroRef(ns, supermanExported, tags, "Name");
    EmailCompiled(ns, supermanExported, tags);
    FieldsOfFour(decls, ns, DefaultSchemaName, fs[0], fs[1], fs[2], fs[3]);
    assert CompileField(decls, ns, DefaultSchemaName, fs[2]) == Entry("underKryptonite", ZOptional(ZPrimitive(PBoolean)));
  }

  lemma SupermanCompiled(ns: seq<string>, supermanExported: bool, tags: string -> seq<Tag>)
    ensures CompileDecl(HeroDecls(ns, supermanExported, tags), DefaultOptions(), HeroDecls(ns, supermanExported, tags)[2]) ==
      SupermanSchema(ns, supermanExported)
  {
    SupermanDeps(ns, supermanExported, tags);
    SupermanFieldsCompiled(ns, supermanExported, tags);
  }

  lemma HeroSelected(ns: seq<string>, supermanExported: bool, tags: string -> seq<Tag>)
    ensures Select(HeroDecls(ns, supermanExported, tags), DefaultOptions()) == HeroDecls(ns, supermanExported, tags)
  {
    SelectAll(HeroDecls(ns, supermanExported, tags), DefaultOptions());
  }

  function HeroSchemaList(ns: seq<string>, supermanExported: bool): seq<Schema>
  {
    [NameSchema(ns), BadassSchema(ns), SupermanSchema(ns, supermanExported)]
  }

  /** Every declaration is selected and compiled, in source order. */
  lemma HeroSchemas(ns: seq<string>, supermanExported: bool, tags: string -> seq<Tag>)
    ensures Schemas(HeroDecls(ns, supermanExported, tags), DefaultOptions()) == HeroSchemaList(ns, supermanExported)
  {
    var decls := HeroDecls(ns, supermanExported, tags);
    HeroSelected(ns, supermanExported, tags);
    NameCompiled(ns, supermanExported, tags);
    BadassCompiled(ns, supermanExported, tags);
    SupermanCompiled(ns, supermanExported, tags);
    var r := CompileAll(decls, DefaultOptions(), decls);
    assert Schemas(decls, DefaultOptions()) == r;
    Three(r, NameSchema(ns), BadassSchema(ns), SupermanSchema(ns, supermanExported));
  }

  lemma Names3(x: Statement, y: Statement, z: Statement)
    ensures Names([x]) == {x.varName}
    ensures Names([x, y]) == {x.varName, y.varName}
    ensures Names([x, y, z]) == {x.varName, y.varName, z.varName}
  {
    NamesAppend([], x);
    assert [x] + [y] == [x, y];
    NamesAppend([x], y);
    assert [x, y] + [z] == [x, y, z];
    NamesAppend([x, y], z);
  }

  lemma PassOfThree(a: Schema, b: Schema, c: Schema, st: seq<Statement>)
    ensures Pass([a, b, c], st) == Visit(c, Visit(b, Visit(a, st)))
  {
    assert [a, b, c][1..] == [b, c];
    assert [b, c][1..] == [c];
    assert [c][1..] == [];
    var s1 := Visit(a, st);
    var s2 := Visit(b, s1);
    assert Pass([a, b, c], st) == Pass([b, c], s1);
    assert Pass([b, c], s1) == Pass([c], s2);
    assert Pass([c], s2) == Pass([], Visit(c, s2));
  }

  /** The first pass over `a`, `b`, `c` emits `a`, skips `b` (it needs `c`)
      and emits `c`. */
  lemma FirstPassOfThree(a: Schema, b: Schema, c: Schema)
    requires a.deps == [] && b.deps == [c.varName] && c.deps == [a.varName]
    requires a.varName != b.varName && a.varName != c.varName && b.varName != c.varName
    ensures Pass([a, b, c], []) == [Emit(a), Emit(c)]
  {
    Names3(Emit(a), Emit(c), Emit(b));
    assert Visit(a, []) == [Emit(a)];
    assert !Ready(b, {a.varName}) by {
      assert c.varName in b.deps;
    }
    assert Visit(b, [Emit(a)]) == [Emit(a)];
    assert Visit(c, [Emit(a)]) == [Emit(a)] + [Emit(c)] == [Emit(a), Emit(c)];
    PassOfThree(a, b, c, []);
  }

  /** The second pass emits `b`. */
  lemma SecondPassOfThree(a: Schema, b: Schema, c: Schema)
    requires a.deps == [] && b.deps == [c.varName] && c.deps == [a.varName]
    requires a.varName != b.varName && a.varName != c.varName && b.varName != c.varName
    ensures Pass([a, b, c], [Emit(a), Emit(c)]) == [Emit(a), Emit(c), Emit(b)]
  {
    Names3(Emit(a), Emit(c), Emit(b));
    assert Visit(a, [Emit(a), Emit(c)]) == [Emit(a), Emit(c)];
    assert Visit(b, [Emit(a), Emit(c)]) == [Emit(a), Emit(c)] + [Emit(b)] == [Emit(a), Emit(c), Emit(b)];
    assert Visit(c, [Emit(a), Emit(c), Emit(b)]) == [Emit(a), Emit(c), Emit(b)];
    PassOfThree(a, b, c, [Emit(a), Emit(c)]);
  }

  lemma RunOfThree(a: Schema, b: Schema, c: Schema, passes: nat)
    requires a.deps == [] && b.deps == [c.varName] && c.deps == [a.varName]
    requires a.varName != b.varName && a.varName != c.varName && b.varName != c.varName
    requires passes >= 2
    ensures Run([a, b, c], passes, []) == [Emit(a), Emit(c), Emit(b)]
    ensures Missing([a, b, c], Names([Emit(a), Emit(c), Emit(b)])) == []
  {
    FirstPassOfThree(a, b, c);
    SecondPassOfThree(a, b, c);
    Names3(Emit(a), Emit(c), Emit(b));
    assert Run([a, b, c], passes, []) == Run([a, b, c], passes - 1, [Emit(a), Emit(c)]);
    assert Run([a, b, c], passes - 1, [Emit(a), Emit(c)]) == Run([a, b, c], passes - 2, [Emit(a), Emit(c), Emit(b)]);
    var e := Names([Emit(a), Emit(c), Emit(b)]);
    assert [a, b, c][1..] == [b, c];
    assert [b, c][1..] == [c];
    assert [c][1..] == [];
    assert Missing([c], e) == [];
    assert Missing([b, c], e) == [];
  }

  lemma IntegrationOfThree(x: Statement, y: Statement, z: Statement)
    requires x.exported && z.exported
    ensures Integration([x, y, z]) ==
      [Assertion(x.typeName, x.varName)] + (if y.exported then [Assertion(y.typeName, y.varName)] else []) + [Assertion(z.typeName, z.varName)]
  {
    assert [x, y, z][1..] == [y, z];
    assert [y, z][1..] == [z];
    assert [z][1..] == [];
    assert Integration([z]) == [Assertion(z.typeName, z.varName)];
    assert Integration([y, z]) == (if y.exported then [Assertion(y.typeName, y.varName)] else []) + Integration([z]);
  }

  function HeroStatements(ns: seq<string>, supermanExported: bool): seq<Statement>
  {
    [Emit(NameSchema(ns)), Emit(SupermanSchema(ns, supermanExported)), Emit(BadassSchema(ns))]
  }

  lemma HeroRun(ns: seq<string>, supermanExported: bool)
    ensures Run(HeroSchemaList(ns, supermanExported), 10, []) == HeroStatements(ns, supermanExported)
    ensures Missing(HeroSchemaList(ns, supermanExported), Names(HeroStatements(ns, supermanExported))) == []
  {
    HeroVarsDistinct(ns);
    RunOfThree(NameSchema(ns), BadassSchema(ns), SupermanSchema(ns, supermanExported), 10);
  }

  lemma HeroEmission(ns: seq<string>, supermanExported: bool, tags: string -> seq<Tag>)
    ensures Run(Schemas(HeroDecls(ns, supermanExported, tags), DefaultOptions()), DefaultOptions().maxRun, []) ==
      HeroStatements(ns, supermanExported)
    ensures Missing(Schemas(HeroDecls(ns, supermanExported, tags), DefaultOptions()), Names(HeroStatements(ns, supermanExported))) == []
  {
    HeroSchemas(ns, supermanExported, tags);
    HeroRun(ns, supermanExported);
  }

  /** Under the default options the schemas come out as `Name`, `Superman`,
      `BadassSuperman`: a dependency declared later in the source is emitted
      first. None is lazy and nothing is reported. */
  lemma HeroGenerated(ns: seq<string>, supermanExported: bool, tags: string -> seq<Tag>)
    ensures Run(Schemas(HeroDecls(ns, supermanExported, tags), DefaultOptions()), DefaultOptions().maxRun, []) ==
      [Emit(NameSchema(ns)), Emit(SupermanSchema(ns, supermanExported)), Emit(BadassSchema(ns))]
    ensures forall k :: 0 <= k < 3 ==> !HeroStatements(ns, supermanExported)[k].expr.ZLazy?
    ensures CycleErrors(Missing(Schemas(HeroDecls(ns, supermanExported, tags), DefaultOptions()),
                                Names(Run(Schemas(HeroDecls(ns, supermanExported, tags), DefaultOptions()), DefaultOptions().maxRun, [])))) == []
  {
    HeroEmission(ns, supermanExported, tags);
    HeroNotLazy(ns, supermanExported);
  }

  lemma HeroNotLazy(ns: seq<string>, supermanExported: bool)
    ensures forall k :: 0 <= k < 3 ==> !HeroStatements(ns, supermanExported)[k].expr.ZLazy?
  {
    HeroVarsDistinct(ns);
    NotLazyOfThree(NameSchema(ns), SupermanSchema(ns, supermanExported), BadassSchema(ns));
  }

  /** Schemas that do not refer to themselves are emitted without a lazy wrapper. */
  lemma NotLazyOfThree(a: Schema, b: Schema, c: Schema)
    requires a.varName !in a.deps && b.varName !in b.deps && c.varName !in c.deps
    requires !a.expr.ZLazy? && !b.expr.ZLazy? && !c.expr.ZLazy?
    ensures forall k :: 0 <= k < 3 ==> ![Emit(a), Emit(b), Emit(c)][k].expr.ZLazy?
  {
  }

  /** Every exported type gets a type-equivalence assertion, in emission
      order; a non-exported `Superman` gets none although `BadassSuperman`
      depends on it. */
  lemma HeroAssertions(ns: seq<string>, supermanExported: bool, tags: string -> seq<Tag>)
    ensures Integration(Run(Schemas(HeroDecls(ns, supermanExported, tags), DefaultOptions()), DefaultOptions().maxRun, [])) ==
      [Assertion(Flatten(ns, "Name"), NameVar(ns))]
      + (if supermanExported then [Assertion(Flatten(ns, "Superman"), SupermanVar(ns))] else [])
      + [Assertion(Flatten(ns, "BadassSuperman"), BadassVar(ns))]
  {
    HeroEmission(ns, supermanExported, tags);
    var st := HeroStatements(ns, supermanExported);
    IntegrationOfThree(st[0], st[1], st[2]);
  }

  lemma FlattenOne(segment: string, name: string)
    ensures Flatten([segment], name) == segment + name
  {
    assert [segment][..0] == [];
    assert Concat([segment]) == Concat([]) + segment;
  }

  lemma NameVarRoot()
    ensures NameVar([]) == "nameSchema"
  {
    DefaultNameOf("Name", 'n', "ame", "nameSchema");
  }

  lemma SupermanVarRoot()
    ensures SupermanVar([]) == "supermanSchema"
  {
    DefaultNameOf("Superman", 's', "uperman", "supermanSchema");
  }

  lemma BadassVarRoot()
    ensures BadassVar([]) == "badassSupermanSchema"
  {
    DefaultNameOf("BadassSuperman", 'b', "adassSuperman", "badassSupermanSchema");
  }

  lemma FlattenedName()
    ensures Flatten(["Metropolis"], "Name") == "MetropolisName"
  {
    FlattenOne("Metropolis", "Name");
  }

  lemma DefaultMetropolisName()
    ensures DefaultSchemaName("MetropolisName") == "metropolisNameSchema"
  {
    DefaultNameOf("MetropolisName", 'm', "etropolisName", "metropolisNameSchema");
  }

  lemma NameVarMetropolis()
    ensures NameVar(["Metropolis"]) == "metropolisNameSchema"
  {
    FlattenedName();
    DefaultMetropolisName();
  }

  lemma FlattenedSuperman()
    ensures Flatten(["Metropolis"], "Superman") == "MetropolisSuperman"
  {
    FlattenOne("Metropolis", "Superman");
  }

  lemma DefaultMetropolisSuperman()
    ensures DefaultSchemaName("MetropolisSuperman") == "metropolisSupermanSchema"
  {
    DefaultNameOf("MetropolisSuperman", 'm', "etropolisSuperman", "metropolisSupermanSchema");
  }

  lemma SupermanVarMetropolis()
    ensures SupermanVar(["Metropolis"]) == "metropolisSupermanSchema"
  {
    FlattenedSuperman();
    DefaultMetropolisSuperman();
  }

  lemma FlattenedBadassSuperman()
    ensures Flatten(["Metropolis"], "BadassSuperman") == "MetropolisBadassSuperman"
  {
    FlattenOne("Metropolis", "BadassSuperman");
  }

  lemma DefaultMetropolisBadassSuperman()
    ensures DefaultSchemaName("MetropolisBadassSuperman") == "metropolisBadassSupermanSchema"
  {
    DefaultNameOf("MetropolisBadassSuperman", 'm', "etropolisBadassSuperman", "metropolisBadassSupermanSchema");
  }

  lemma BadassVarMetropolis()
    ensures BadassVar(["Metropolis"]) == "metropolisBadassSupermanSchema"
  {
    FlattenedBadassSuperman();
    DefaultMetropolisBadassSuperman();
  }

  /** The schema names of the scenario in the root namespace. */
  lemma HeroNames()
    ensures NameVar([]) == "nameSchema"
    ensures SupermanVar([]) == "supermanSchema"
    ensures BadassVar([]) == "badassSupermanSchema"
  {
    NameVarRoot();
    SupermanVarRoot();
    BadassVarRoot();
  }

  /** The schema names of the scenario in the `Metropolis` namespace: the
      namespace path is flattened into the identifier before the default
      naming applies. */
  lemma MetropolisNames()
    ensures Flatten(["Metropolis"], "Superman") == "MetropolisSuperman"
    ensures NameVar(["Metropolis"]) == "metropolisNameSchema"
    ensures SupermanVar(["Metropolis"]) == "metropolisSupermanSchema"
    ensures BadassVar(["Metropolis"]) == "metropolisBadassSupermanSchema"
  {
    FlattenedSuperman();
    NameVarMetropolis();
    SupermanVarMetropolis();
    BadassVarMetropolis();
  }
}
