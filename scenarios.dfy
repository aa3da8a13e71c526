/** The generator on the declaration sets of the documented scenarios, worked
    out from the declarations to the emitted definitions, the type-equivalence
    list and the diagnostics. */
module Scenarios {
  import opened Naming
  import opened Declarations
  import opened Resolver
  import opened Selection
  import opened Shapes
  import opened Ordering
  import opened Generation

  function Prop(name: string, ty: Type): Field
  {
    Field(name, false, [], ty)
  }

  function Exported(name: string, body: Body): Declaration
  {
    Declaration([], name, true, [], body)
  }

  /** A reference to a declared root-namespace type compiles to a reference to
      that type's schema. */
  lemma RefCompiled(decls: seq<Declaration>, name: string -> string, token: string)
    requires token in Ids(decls)
    ensures TypeRefs(decls, [], Ref(token)) == [token]
    ensures CompileType(decls, [], name, Ref(token)) == ZRef(name(token))
  {
  }

  // ---------------------------------------------------------------------------
  // Small emission runs

  /** A single schema that depends on nothing is emitted by the first pass. */
  lemma RunOfOne(schemas: seq<Schema>, passes: nat)
    requires |schemas| == 1 && passes >= 1 && schemas[0].deps == []
    ensures Run(schemas, passes, []) == [Emit(schemas[0])]
    ensures CycleErrors(Missing(schemas, Names(Run(schemas, passes, [])))) == []
  {
    var a := schemas[0];
    assert schemas == [a] && [a][1..] == [];
    assert Names([]) == {};
    assert Visit(a, []) == [Emit(a)];
    assert Pass(schemas, []) == Pass([], [Emit(a)]);
    assert Run(schemas, passes, []) == Run(schemas, passes - 1, [Emit(a)]);
    NamesAppend([], Emit(a));
    assert [] + [Emit(a)] == [Emit(a)];
    MissingNone(schemas, Names([Emit(a)]));
  }

  /** Two schemas, the first depending on nothing and the second on nothing
      or on the first only: one pass emits both, in source order, and nothing
      is left pending. */
  lemma RunOfTwo(schemas: seq<Schema>, passes: nat)
    requires |schemas| == 2 && passes >= 1
    requires schemas[0].deps == [] && (schemas[1].deps == [] || schemas[1].deps == [schemas[0].varName])
    requires schemas[0].varName != schemas[1].varName
    ensures Run(schemas, passes, []) == [Emit(schemas[0]), Emit(schemas[1])]
    ensures CycleErrors(Missing(schemas, Names(Run(schemas, passes, [])))) == []
  {
    var a, b := schemas[0], schemas[1];
    var st := [Emit(a), Emit(b)];
    assert schemas == [a, b];
    PassOfTwo(a, b);
    assert Run(schemas, passes, []) == Run(schemas, passes - 1, st);
    NamesAppend([Emit(a)], Emit(b));
    assert [Emit(a)] + [Emit(b)] == st;
    forall v | v in VarNames(schemas) ensures v in Names(st) {
      assert Emit(a).varName == a.varName && Emit(b).varName == b.varName;
    }
    MissingNone(schemas, Names(st));
  }

  lemma PassOfTwo(a: Schema, b: Schema)
    requires a.deps == [] && (b.deps == [] || b.deps == [a.varName]) && a.varName != b.varName
    ensures Pass([a, b], []) == [Emit(a), Emit(b)]
  {
    var st1 := [Emit(a)];
    assert Names([]) == {};
    NamesAppend([], Emit(a));
    assert [] + [Emit(a)] == st1;
    assert Visit(a, []) == st1;
    assert Names(st1) == {a.varName};
    assert Ready(b, Names(st1));
    assert Visit(b, st1) == st1 + [Emit(b)] == [Emit(a), Emit(b)];
    assert [a, b][1..] == [b] && [b][1..] == [];
    assert Pass([a, b], []) == Pass([b], st1);
    assert Pass([b], st1) == Pass([], Visit(b, st1));
  }

  /** Two exported definitions give two assertions, in order. */
  lemma IntegrationOfTwo(x: Statement, y: Statement)
    requires x.exported && y.exported
    ensures Integration([x, y]) == [Assertion(x.typeName, x.varName), Assertion(y.typeName, y.varName)]
  {
    assert [x, y][1..] == [y] && [y][1..] == [];
  }

  // ---------------------------------------------------------------------------
  // Circular references: `Villain` refers to itself, `EvilPlan` and
  // `EvilPlanDetails` refer to each other; three passes.

  function VillainFields(): seq<Field>
  {
    [Prop("name", Prim(PString)), Prop("powers", ArrayOf(Prim(PString))), Prop("friends", ArrayOf(Ref("Villain")))]
  }

  function EvilPlanFields(): seq<Field>
  {
    [Prop("owner", Ref("Villain")), Prop("description", Prim(PString)), Prop("details", Ref("EvilPlanDetails"))]
  }

  function EvilPlanDetailsFields(): seq<Field>
  {
    [Prop("parent", Ref("EvilPlan")), Prop("steps", ArrayOf(Prim(PString)))]
  }

  function CircularDecls(): seq<Declaration>
  {
    [Exported("Villain", Interface(VillainFields())),
     Exported("EvilPlan", Interface(EvilPlanFields())),
     Exported("EvilPlanDetails", Interface(EvilPlanDetailsFields()))]
  }

  function CircularOptions(): Options
  {
    DefaultOptions().(maxRun := 3)
  }

  function VillainSchema(): Schema
  {
    Schema("Villain", "villainSchema", true, ["villainSchema"],
           ZObject([Entry("name", ZPrimitive(PString)),
                    Entry("powers", ZArray(ZPrimitive(PString))),
                    Entry("friends", ZArray(ZRef("villainSchema")))]))
  }

  function EvilPlanSchema(): Schema
  {
    Schema("EvilPlan", "evilPlanSchema", true, ["villainSchema", "evilPlanDetailsSchema"],
           ZObject([Entry("owner", ZRef("villainSchema")),
                    Entry("description", ZPrimitive(PString)),
                    Entry("details", ZRef("evilPlanDetailsSchema"))]))
  }

  function EvilPlanDetailsSchema(): Schema
  {
    Schema("EvilPlanDetails", "evilPlanDetailsSchema", true, ["evilPlanSchema"],
           ZObject([Entry("parent", ZRef("evilPlanSchema")),
                    Entry("steps", ZArray(ZPrimitive(PString)))]))
  }

  /** A declaration with an object body compiles to an object schema whose
      dependencies are those of its properties. */
  lemma InterfaceCompiled(decls: seq<Declaration>, opts: Options, d: Declaration, ids: seq<string>, entries: seq<Entry>)
    requires d.body.Interface?
    requires FieldsRefs(decls, d.namespace, d.body.fields) == ids
    requires CompileFields(decls, d.namespace, opts.schemaName, d.body.fields) == entries
    ensures CompileDecl(decls, opts, d) ==
      Schema(Id(d), opts.schemaName(Id(d)), d.exported, MapNames(opts.schemaName, ids), ZObject(entries))
  {
  }

  lemma AliasCompiled(decls: seq<Declaration>, opts: Options, d: Declaration, ids: seq<string>, e: Expr)
    requires d.body.Alias?
    requires TypeRefs(decls, d.namespace, d.body.ty) == ids
    requires CompileType(decls, d.namespace, opts.schemaName, d.body.ty) == e
    ensures CompileDecl(decls, opts, d) ==
      Schema(Id(d), opts.schemaName(Id(d)), d.exported, MapNames(opts.schemaName, ids), e)
  {
  }

  /** Literal types refer to no declaration. */
  lemma {:induction false} LiteralsHaveNoRefs(decls: seq<Declaration>, ns: seq<string>, ts: seq<Type>)
    requires forall k :: 0 <= k < |ts| ==> ts[k].Lit?
    ensures TypesRefs(decls, ns, ts) == []
    decreases ts
  {
    if ts != [] {
      LiteralsHaveNoRefs(decls, ns, ts[1..]);
    }
  }

  lemma MapNamesTwo(name: string -> string, x: string, y: string)
    ensures MapNames(name, [x, y]) == [name(x), name(y)]
  {
  }

  /** A four-property object: its dependencies are those of its properties,
      in order, and it compiles property by property. */
  lemma FieldsOfFour(decls: seq<Declaration>, ns: seq<string>, name: string -> string, f0: Field, f1: Field, f2: Field, f3: Field)
    ensures FieldsRefs(decls, ns, [f0, f1, f2, f3]) ==
      TypeRefs(decls, ns, f0.ty) + (TypeRefs(decls, ns, f1.ty) + (TypeRefs(decls, ns, f2.ty) + TypeRefs(decls, ns, f3.ty)))
    ensures CompileFields(decls, ns, name, [f0, f1, f2, f3]) ==
      [CompileField(decls, ns, name, f0), CompileField(decls, ns, name, f1),
       CompileField(decls, ns, name, f2), CompileField(decls, ns, name, f3)]
  {
    var fs := [f0, f1, f2, f3];
    assert fs[1..] == [f1, f2, f3];
    FieldsOfThree(decls, ns, name, f1, f2, f3);
  }

  lemma FieldsOfThree(decls: seq<Declaration>, ns: seq<string>, name: string -> string, f0: Field, f1: Field, f2: Field)
    ensures FieldsRefs(decls, ns, [f0, f1, f2]) ==
      TypeRefs(decls, ns, f0.ty) + (TypeRefs(decls, ns, f1.ty) + TypeRefs(decls, ns, f2.ty))
    ensures CompileFields(decls, ns, name, [f0, f1, f2]) ==
      [CompileField(decls, ns, name, f0), CompileField(decls, ns, name, f1), CompileField(decls, ns, name, f2)]
  {
    var fs := [f0, f1, f2];
    assert fs[1..] == [f1, f2];
    FieldsOfTwo(decls, ns, name, f1, f2);
  }

  /** When two declarations are selected, the schemas are their compiled forms in order. */
  lemma SchemasOfTwo(decls: seq<Declaration>, opts: Options, x: Declaration, y: Declaration, a: Schema, b: Schema)
    requires Select(decls, opts) == [x, y]
    requires CompileDecl(decls, opts, x) == a && CompileDecl(decls, opts, y) == b
    ensures Schemas(decls, opts) == [a, b]
  {
    var r := Schemas(decls, opts);
    assert |r| == 2 && r[0] == a && r[1] == b;
  }

  /** Compilation reads only the naming option. */
  lemma CompileDeclNaming(decls: seq<Declaration>, opts: Options, other: Options, d: Declaration)
    requires opts.schemaName == other.schemaName
    ensures CompileDecl(decls, opts, d) == CompileDecl(decls, other, d)
  {
  }

  lemma FieldsOfOne(decls: seq<Declaration>, ns: seq<string>, name: string -> string, f0: Field)
    ensures FieldsRefs(decls, ns, [f0]) == TypeRefs(decls, ns, f0.ty)
    ensures CompileFields(decls, ns, name, [f0]) == [CompileField(decls, ns, name, f0)]
  {
    assert [f0][1..] == [];
  }

  lemma FieldsOfTwo(decls: seq<Declaration>, ns: seq<string>, name: string -> string, f0: Field, f1: Field)
    ensures FieldsRefs(decls, ns, [f0, f1]) == TypeRefs(decls, ns, f0.ty) + TypeRefs(decls, ns, f1.ty)
    ensures CompileFields(decls, ns, name, [f0, f1]) == [CompileField(decls, ns, name, f0), CompileField(decls, ns, name, f1)]
  {
    var fs := [f0, f1];
    assert fs[1..] == [f1];
    assert fs[1..][1..] == [];
    assert FieldsRefs(decls, ns, fs[1..]) == TypeRefs(decls, ns, f1.ty);
    assert CompileFields(decls, ns, name, fs[1..]) == [CompileField(decls, ns, name, f1)];
  }

  lemma CircularIds()
    ensures "Villain" in Ids(CircularDecls())
    ensures "EvilPlan" in Ids(CircularDecls())
    ensures "EvilPlanDetails" in Ids(CircularDecls())
  {
    var decls := CircularDecls();
    assert Id(decls[0]) == "Villain";
    assert Id(decls[1]) == "EvilPlan";
    assert Id(decls[2]) == "EvilPlanDetails";
  }

  /** The default schema name of a capitalised identifier, spelled out. */
  lemma DefaultNameOf(id: string, lower: char, tail: string, name: string)
    requires |id| > 0 && 'A' <= id[0] <= 'Z' && lower as int == id[0] as int + 32
    requires id[1..] == tail && name == [lower] + tail + "Schema"
    ensures DefaultSchemaName(id) == name
  {
  }

  lemma CircularNames()
    ensures DefaultSchemaName("Villain") == "villainSchema"
    ensures DefaultSchemaName("EvilPlan") == "evilPlanSchema"
    ensures DefaultSchemaName("EvilPlanDetails") == "evilPlanDetailsSchema"
  {
    VillainName();
    EvilPlanName();
    EvilPlanDetailsName();
  }

  lemma VillainName()
    ensures DefaultSchemaName("Villain") == "villainSchema"
  {
    DefaultNameOf("Villain", 'v', "illain", "villainSchema");
  }

  lemma EvilPlanName()
    ensures DefaultSchemaName("EvilPlan") == "evilPlanSchema"
  {
    DefaultNameOf("EvilPlan", 'e', "vilPlan", "evilPlanSchema");
  }

  lemma EvilPlanDetailsName()
    ensures DefaultSchemaName("EvilPlanDetails") == "evilPlanDetailsSchema"
  {
    DefaultNameOf("EvilPlanDetails", 'e', "vilPlanDetails", "evilPlanDetailsSchema");
  }

  lemma VillainDeps()
    ensures FieldsRefs(CircularDecls(), [], VillainFields()) == ["Villain"]
  {
    var fs := VillainFields();
    CircularIds();
    RefCompiled(CircularDecls(), DefaultSchemaName, "Villain");
    FieldsOfThree(CircularDecls(), [], DefaultSchemaName, fs[0], fs[1], fs[2]);
  }

  lemma VillainFieldsCompiled()
    ensures CompileFields(CircularDecls(), [], DefaultSchemaName, VillainFields()) == VillainSchema().expr.entries
  {
    var fs := VillainFields();
    CircularIds();
    CircularNames();
    RefCompiled(CircularDecls(), DefaultSchemaName, "Villain");
    FieldsOfThree(CircularDecls(), [], DefaultSchemaName, fs[0], fs[1], fs[2]);
  }

  lemma EvilPlanDeps()
    ensures FieldsRefs(CircularDecls(), [], EvilPlanFields()) == ["Villain", "EvilPlanDetails"]
  {
    var fs := EvilPlanFields();
    CircularIds();
    RefCompiled(CircularDecls(), DefaultSchemaName, "Villain");
    RefCompiled(CircularDecls(), DefaultSchemaName, "EvilPlanDetails");
    FieldsOfThree(CircularDecls(), [], DefaultSchemaName, fs[0], fs[1], fs[2]);
  }

  lemma EvilPlanFieldsCompiled()
    ensures CompileFields(CircularDecls(), [], DefaultSchemaName, EvilPlanFields()) == EvilPlanSchema().expr.entries
  {
    var fs := EvilPlanFields();
    CircularIds();
    CircularNames();
    RefCompiled(CircularDecls(), DefaultSchemaName, "Villain");
    RefCompiled(CircularDecls(), DefaultSchemaName, "EvilPlanDetails");
    FieldsOfThree(CircularDecls(), [], DefaultSchemaName, fs[0], fs[1], fs[2]);
  }

  lemma EvilPlanDetailsDeps()
    ensures FieldsRefs(CircularDecls(), [], EvilPlanDetailsFields()) == ["EvilPlan"]
  {
    var fs := EvilPlanDetailsFields();
    CircularIds();
    RefCompiled(CircularDecls(), DefaultSchemaName, "EvilPlan");
    FieldsOfTwo(CircularDecls(), [], DefaultSchemaName, fs[0], fs[1]);
  }

  lemma EvilPlanDetailsFieldsCompiled()
    ensures CompileFields(CircularDecls(), [], DefaultSchemaName, EvilPlanDetailsFields()) == EvilPlanDetailsSchema().expr.entries
  {
    var fs := EvilPlanDetailsFields();
    CircularIds();
    CircularNames();
    RefCompiled(CircularDecls(), DefaultSchemaName, "EvilPlan");
    FieldsOfTwo(CircularDecls(), [], DefaultSchemaName, fs[0], fs[1]);
  }

  lemma VillainCompiled()
    ensures CompileDecl(CircularDecls(), CircularOptions(), CircularDecls()[0]) == VillainSchema()
  {
    CircularNames();
    VillainDeps();
    VillainFieldsCompiled();
  }

  lemma EvilPlanCompiled()
    ensures CompileDecl(CircularDecls(), CircularOptions(), CircularDecls()[1]) == EvilPlanSchema()
  {
    var ids := ["Villain", "EvilPlanDetails"];
    EvilPlanDeps();
    EvilPlanFieldsCompiled();
    InterfaceCompiled(CircularDecls(), CircularOptions(), CircularDecls()[1], ids, EvilPlanSchema().expr.entries);
    VillainName();
    EvilPlanName();
    EvilPlanDetailsName();
    MapNamesTwo(DefaultSchemaName, "Villain", "EvilPlanDetails");
  }

  lemma EvilPlanDetailsCompiled()
    ensures CompileDecl(CircularDecls(), CircularOptions(), CircularDecls()[2]) == EvilPlanDetailsSchema()
  {
    CircularNames();
    EvilPlanDetailsDeps();
    EvilPlanDetailsFieldsCompiled();
  }

  lemma CircularSelected()
    ensures Select(CircularDecls(), CircularOptions()) == CircularDecls()
  {
    SelectAll(CircularDecls(), CircularOptions());
  }

  /** Every declaration is selected and compiled, in source order. */
  lemma CircularSchemas()
    ensures Schemas(CircularDecls(), CircularOptions()) == [VillainSchema(), EvilPlanSchema(), EvilPlanDetailsSchema()]
  {
    var decls := CircularDecls();
    var opts := CircularOptions();
    CircularSelected();
    VillainCompiled();
    EvilPlanCompiled();
    EvilPlanDetailsCompiled();
    var r := CompileAll(decls, opts, decls);
    assert Schemas(decls, opts) == r;
    Three(r, VillainSchema(), EvilPlanSchema(), EvilPlanDetailsSchema());
  }

  lemma Three<T>(r: seq<T>, a: T, b: T, c: T)
    requires |r| == 3 && r[0] == a && r[1] == b && r[2] == c
    ensures r == [a, b, c]
  {
  }

  function CircularSchemaList(): seq<Schema>
  {
    [VillainSchema(), EvilPlanSchema(), EvilPlanDetailsSchema()]
  }

  /** The first pass emits the self-referencing schema only; the mutual pair
      waits on each other. */
  lemma CircularFirstPass()
    ensures Pass(CircularSchemaList(), []) == [Emit(VillainSchema())]
  {
    var schemas := CircularSchemaList();
    var v := Emit(VillainSchema());
    assert Visit(schemas[0], []) == [v];
    NamesAppend([], v);
    assert Names([v]) == {"villainSchema"};
    assert !Ready(schemas[1], {"villainSchema"}) by {
      assert "evilPlanDetailsSchema" in schemas[1].deps;
    }
    assert !Ready(schemas[2], {"villainSchema"}) by {
      assert "evilPlanSchema" in schemas[2].deps;
    }
    assert schemas[1..][1..] == [schemas[2]];
  }

  /** The later passes change nothing. */
  lemma CircularLaterPasses()
    ensures Pass(CircularSchemaList(), [Emit(VillainSchema())]) == [Emit(VillainSchema())]
  {
    var schemas := CircularSchemaList();
    var v := Emit(VillainSchema());
    NamesAppend([], v);
    assert Names([v]) == {"villainSchema"};
    assert !Ready(schemas[1], {"villainSchema"}) by {
      assert "evilPlanDetailsSchema" in schemas[1].deps;
    }
    assert !Ready(schemas[2], {"villainSchema"}) by {
      assert "evilPlanSchema" in schemas[2].deps;
    }
    assert schemas[1..][1..] == [schemas[2]];
  }

  lemma CircularRun()
    ensures Run(CircularSchemaList(), 3, []) == [Emit(VillainSchema())]
  {
    CircularFirstPass();
    CircularLaterPasses();
    RunIdle(CircularSchemaList(), 2, [Emit(VillainSchema())]);
  }

  /** With three passes, `Villain` is emitted behind a lazy wrapper and is the
      only type-equivalence assertion; `EvilPlan` and `EvilPlanDetails` are not
      emitted, and one diagnostic names their schemas in source order. */
  lemma CircularReferences()
    ensures Run(Schemas(CircularDecls(), CircularOptions()), CircularOptions().maxRun, []) ==
      [Statement("Villain", "villainSchema", true, ["villainSchema"], ZLazy(VillainSchema().expr))]
    ensures Integration(Run(Schemas(CircularDecls(), CircularOptions()), CircularOptions().maxRun, [])) ==
      [Assertion("Villain", "villainSchema")]
    ensures CycleErrors(Missing(Schemas(CircularDecls(), CircularOptions()),
                                Names(Run(Schemas(CircularDecls(), CircularOptions()), CircularOptions().maxRun, [])))) ==
      [CycleHeader + ("evilPlanSchema" + "\n" + "evilPlanDetailsSchema")]
  {
    CircularSchemas();
    CircularRun();
    CircularEmitted();
    CircularMissing();
    CircularDiagnostic();
  }

  lemma CircularEmitted()
    ensures Names([Emit(VillainSchema())]) == {"villainSchema"}
  {
    NamesAppend([], Emit(VillainSchema()));
  }

  lemma CircularMissing()
    ensures Missing(CircularSchemaList(), {"villainSchema"}) == ["evilPlanSchema", "evilPlanDetailsSchema"]
  {
    var schemas := CircularSchemaList();
    var emitted := {"villainSchema"};
    assert "evilPlanSchema" !in emitted && "evilPlanDetailsSchema" !in emitted;
    assert schemas[1..][1..] == [schemas[2]] && schemas[1..][1..][1..] == [];
    assert Missing(schemas[1..][1..], emitted) == ["evilPlanDetailsSchema"];
    assert Missing(schemas[1..], emitted) == ["evilPlanSchema"] + ["evilPlanDetailsSchema"];
  }

  lemma JoinTwo(a: string, b: string, sep: string)
    ensures Join([a, b], sep) == a + sep + b
  {
    assert [a, b][1..] == [b];
  }

  lemma CircularDiagnostic()
    ensures CycleErrors(["evilPlanSchema", "evilPlanDetailsSchema"]) ==
      [CycleHeader + ("evilPlanSchema" + "\n" + "evilPlanDetailsSchema")]
  {
    JoinTwo("evilPlanSchema", "evilPlanDetailsSchema", "\n");
  }

  // ---------------------------------------------------------------------------
  // Enumerations: `Superhero` is an enumeration, `FavoriteSuperhero` has a
  // property typed by one of its members.

  function EnumDecls(): seq<Declaration>
  {
    [Exported("Superhero", Enum(["Superman", "ClarkKent"])),
     Exported("FavoriteSuperhero", Alias(ObjectOf([Prop("superhero", EnumMember("Superhero", "Superman"))])))]
  }

  function FavoriteFields(): seq<Field>
  {
    EnumDecls()[1].body.ty.fields
  }

  lemma FavoriteFieldsCompiled()
    ensures FieldsRefs(EnumDecls(), [], FavoriteFields()) == []
    ensures CompileFields(EnumDecls(), [], DefaultSchemaName, FavoriteFields()) ==
      [Entry("superhero", ZEnumLiteral("Superhero", "Superman"))]
  {
    var fs := FavoriteFields();
    assert fs == [Prop("superhero", EnumMember("Superhero", "Superman"))];
    assert fs[1..] == [];
  }

  /** The enumeration is bound to its runtime object; the member type becomes
      an exact match on that member and adds no dependency. */
  lemma EnumsCompiled()
    ensures CompileDecl(EnumDecls(), DefaultOptions(), EnumDecls()[0]).expr == ZNativeEnum("Superhero")
    ensures CompileDecl(EnumDecls(), DefaultOptions(), EnumDecls()[1]).expr ==
      ZObject([Entry("superhero", ZEnumLiteral("Superhero", "Superman"))])
    ensures CompileDecl(EnumDecls(), DefaultOptions(), EnumDecls()[1]).deps == []
  {
    FavoriteFieldsCompiled();
  }

  function SuperheroDefinition(): Statement
  {
    Statement("Superhero", "superheroSchema", true, [], ZNativeEnum("Superhero"))
  }

  function FavoriteSuperheroDefinition(): Statement
  {
    Statement("FavoriteSuperhero", "favoriteSuperheroSchema", true, [],
              ZObject([Entry("superhero", ZEnumLiteral("Superhero", "Superman"))]))
  }

  lemma EnumNames()
    ensures DefaultSchemaName("Superhero") == "superheroSchema"
    ensures DefaultSchemaName("FavoriteSuperhero") == "favoriteSuperheroSchema"
  {
    DefaultNameOf("Superhero", 's', "uperhero", "superheroSchema");
    DefaultNameOf("FavoriteSuperhero", 'f', "avoriteSuperhero", "favoriteSuperheroSchema");
  }

  function SuperheroSchema(): Schema
  {
    Schema("Superhero", "superheroSchema", true, [], ZNativeEnum("Superhero"))
  }

  function FavoriteSuperheroSchema(): Schema
  {
    Schema("FavoriteSuperhero", "favoriteSuperheroSchema", true, [], FavoriteSuperheroDefinition().expr)
  }

  lemma EnumDeclCompiled(decls: seq<Declaration>, opts: Options)
    requires decls == EnumDecls() && opts == DefaultOptions()
    ensures CompileDecl(decls, opts, decls[0]) == SuperheroSchema()
    ensures CompileDecl(decls, opts, decls[1]) == FavoriteSuperheroSchema()
  {
    EnumsCompiled();
    EnumNames();
    assert Id(decls[0]) == "Superhero" && Id(decls[1]) == "FavoriteSuperhero";
  }

  lemma EnumSchemas()
    ensures Schemas(EnumDecls(), DefaultOptions()) == [SuperheroSchema(), FavoriteSuperheroSchema()]
  {
    var decls := EnumDecls();
    var opts := DefaultOptions();
    SelectAll(decls, opts);
    EnumDeclCompiled(decls, opts);
    assert decls == [decls[0], decls[1]];
    SchemasOfTwo(decls, opts, decls[0], decls[1], SuperheroSchema(), FavoriteSuperheroSchema());
  }

  /** Both declarations are emitted in source order, `superheroSchema` bound
      to the enumeration and `favoriteSuperheroSchema` an object matching its
      `Superman` member, each with a type-equivalence assertion; nothing is
      reported. */
  lemma EnumsGenerated()
    ensures Run(Schemas(EnumDecls(), DefaultOptions()), DefaultOptions().maxRun, []) ==
      [SuperheroDefinition(), FavoriteSuperheroDefinition()]
    ensures Integration(Run(Schemas(EnumDecls(), DefaultOptions()), DefaultOptions().maxRun, [])) ==
      [Assertion("Superhero", "superheroSchema"), Assertion("FavoriteSuperhero", "favoriteSuperheroSchema")]
    ensures CycleErrors(Missing(Schemas(EnumDecls(), DefaultOptions()),
                                Names(Run(Schemas(EnumDecls(), DefaultOptions()), DefaultOptions().maxRun, [])))) == []
  {
    var schemas := [SuperheroSchema(), FavoriteSuperheroSchema()];
    EnumSchemas();
    RunOfTwo(schemas, DefaultOptions().maxRun);
    assert Emit(schemas[0]) == SuperheroDefinition();
    assert Emit(schemas[1]) == FavoriteSuperheroDefinition();
    IntegrationOfTwo(SuperheroDefinition(), FavoriteSuperheroDefinition());
  }
}
