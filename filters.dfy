/** Declaration sets under filtering and naming options: the hero
    declarations under a documentation-tag filter, a `Name`/`Superman` pair
    under a name filter with lower-cased schema names (a declaration that fails
    the filters is still selected when a selected one depends on it), and a
    `Superman`/`Villain` pair where the declaration nothing needs is dropped. */
module FilterScenarios {
  import opened Naming
  import opened Declarations
  import opened Resolver
  import opened Selection
  import opened Shapes
  import opened Ordering
  import opened Generation
  import opened Scenarios
  import opened HeroScenario

  function EdgesOf(all: seq<Declaration>, d: Declaration, id: string): seq<string>
  {
    if Id(d) == id then DependencyIds(all, d) else []
  }

  lemma EdgesFromStep(decls: seq<Declaration>, all: seq<Declaration>, id: string)
    requires decls != []
    ensures EdgesFrom(decls, all, id) == EdgesOf(all, decls[0], id) + EdgesFrom(decls[1..], all, id)
  {
  }

  lemma EdgesOfThree(all: seq<Declaration>, id: string)
    requires |all| == 3
    ensures Edges(all, id) == EdgesOf(all, all[0], id) + (EdgesOf(all, all[1], id) + EdgesOf(all, all[2], id))
  {
    var rest := all[1..];
    var last := rest[1..];
    assert last == [all[2]] && last[1..] == [];
    assert EdgesFrom(last, all, id) == EdgesOf(all, all[2], id) by {
      EdgesFromStep(last, all, id);
    }
    EdgesFromStep(rest, all, id);
    EdgesFromStep(all, all, id);
  }

  lemma NameDeps(ns: seq<string>, supermanExported: bool, tags: string -> seq<Tag>)
    ensures DependencyIds(HeroDecls(ns, supermanExported, tags), HeroDecls(ns, supermanExported, tags)[0]) == []
  {
    var decls := HeroDecls(ns, supermanExported, tags);
    var ts := NameType().options;
    assert TypesRefs(decls, ns, ts[1..][1..]) == [];
    assert TypesRefs(decls, ns, ts[1..]) == [];
  }

  lemma BadassDeps(ns: seq<string>, supermanExported: bool, tags: string -> seq<Tag>)
    ensures DependencyIds(HeroDecls(ns, supermanExported, tags), HeroDecls(ns, supermanExported, tags)[1]) == [Flatten(ns, "Superman")]
  {
    HeroRef(ns, supermanExported, tags, "Superman");
  }

  lemma HeroDeps(ns: seq<string>, supermanExported: bool, tags: string -> seq<Tag>)
    ensures DependencyIds(HeroDecls(ns, supermanExported, tags), HeroDecls(ns, supermanExported, tags)[0]) == []
    ensures DependencyIds(HeroDecls(ns, supermanExported, tags), HeroDecls(ns, supermanExported, tags)[1]) == [Flatten(ns, "Superman")]
    ensures DependencyIds(HeroDecls(ns, supermanExported, tags), HeroDecls(ns, supermanExported, tags)[2]) == [Flatten(ns, "Name")]
  {
    NameDeps(ns, supermanExported, tags);
    BadassDeps(ns, supermanExported, tags);
    SupermanDeps(ns, supermanExported, tags);
  }

  /** The dependency edges of the hero declarations: `Superman` needs `Name`,
      `BadassSuperman` needs `Superman`, `Name` needs nothing. */
  lemma HeroEdges(ns: seq<string>, supermanExported: bool, tags: string -> seq<Tag>)
    ensures Edges(HeroDecls(ns, supermanExported, tags), Flatten(ns, "Name")) == []
    ensures Edges(HeroDecls(ns, supermanExported, tags), Flatten(ns, "Superman")) == [Flatten(ns, "Name")]
    ensures Edges(HeroDecls(ns, supermanExported, tags), Flatten(ns, "BadassSuperman")) == [Flatten(ns, "Superman")]
  {
    var decls := HeroDecls(ns, supermanExported, tags);
    var n, b, s := Flatten(ns, "Name"), Flatten(ns, "BadassSuperman"), Flatten(ns, "Superman");
    assert |n| == |Concat(ns)| + 4 && |s| == |Concat(ns)| + 8 && |b| == |Concat(ns)| + 14;
    HeroDeps(ns, supermanExported, tags);
    EdgesOfThree(decls, n);
    EdgesOfThree(decls, s);
    EdgesOfThree(decls, b);
  }

  /** Of three declarations, keeping the first and the last. */
  lemma SelectFromFirstAndLast(decls: seq<Declaration>, keep: set<string>)
    requires |decls| == 3
    requires Id(decls[0]) in keep && Id(decls[1]) !in keep && Id(decls[2]) in keep
    ensures SelectFrom(decls, keep) == [decls[0], decls[2]]
  {
    assert decls[1..][1..] == [decls[2]];
    assert decls[1..][1..][1..] == [];
    assert SelectFrom(decls[1..][1..], keep) == [decls[2]];
    assert SelectFrom(decls[1..], keep) == [decls[2]];
  }

  lemma NameAndSupermanNeeded(ns: seq<string>, supermanExported: bool, tags: string -> seq<Tag>, opts: Options)
    requires forall id :: IsRoot(HeroDecls(ns, supermanExported, tags), opts, id) ==> id == Flatten(ns, "Name") || id == Flatten(ns, "Superman")
    requires opts.tagFilter(tags("Superman")) && opts.nameFilter(Flatten(ns, "Superman"))
    ensures Needed(HeroDecls(ns, supermanExported, tags), opts) == {Flatten(ns, "Name"), Flatten(ns, "Superman")}
  {
    var decls := HeroDecls(ns, supermanExported, tags);
    var n, s := Flatten(ns, "Name"), Flatten(ns, "Superman");
    HeroEdges(ns, supermanExported, tags);
    HeroIds(ns, supermanExported, tags);
    NeededIsLeast(decls, opts, {n, s});
    RootsAreNeeded(decls, opts, decls[2]);
    NeededIsClosed(decls, opts);
    assert n in Edges(decls, s);
  }

  /** Whenever `Superman` is a root and `BadassSuperman` is not, exactly
      `Name` and `Superman` are selected, in source order. */
  lemma NameAndSupermanSelected(ns: seq<string>, supermanExported: bool, tags: string -> seq<Tag>, opts: Options)
    requires forall id :: IsRoot(HeroDecls(ns, supermanExported, tags), opts, id) ==> id == Flatten(ns, "Name") || id == Flatten(ns, "Superman")
    requires opts.tagFilter(tags("Superman")) && opts.nameFilter(Flatten(ns, "Superman"))
    ensures Select(HeroDecls(ns, supermanExported, tags), opts) ==
      [HeroDecls(ns, supermanExported, tags)[0], HeroDecls(ns, supermanExported, tags)[2]]
  {
    var decls := HeroDecls(ns, supermanExported, tags);
    var n, b, s := Flatten(ns, "Name"), Flatten(ns, "BadassSuperman"), Flatten(ns, "Superman");
    assert |n| == |Concat(ns)| + 4 && |s| == |Concat(ns)| + 8 && |b| == |Concat(ns)| + 14;
    NameAndSupermanNeeded(ns, supermanExported, tags, opts);
    assert Id(decls[0]) == n && Id(decls[1]) == b && Id(decls[2]) == s;
    SelectFromFirstAndLast(decls, {n, s});
  }

  function ZodTags(name: string): seq<Tag>
  {
    if name == "BadassSuperman" then [Tag("nop", "")] else [Tag("zod", "")]
  }

  /** Only the declarations tagged `@zod` are roots. */
  function ZodOptions(): Options
  {
    DefaultOptions().(tagFilter := tags => HasTagNamed(tags, "zod"))
  }

  lemma ZodTagged()
    ensures ZodOptions().tagFilter(ZodTags("Superman"))
  {
    assert ZodTags("Superman") == [Tag("zod", "")];
    assert ZodTags("Superman")[0].name == "zod";
  }

  lemma NopNotTagged()
    ensures !ZodOptions().tagFilter(HeroDecls([], true, ZodTags)[1].tags)
  {
    assert HeroDecls([], true, ZodTags)[1].tags == [Tag("nop", "")];
  }

  /** Of three declarations, when the middle one fails a filter, the roots
      are among the other two. */
  lemma RootsOutsideMiddle(decls: seq<Declaration>, opts: Options)
    requires |decls| == 3
    requires !(opts.tagFilter(decls[1].tags) && opts.nameFilter(Id(decls[1])))
    ensures forall id :: IsRoot(decls, opts, id) ==> id == Id(decls[0]) || id == Id(decls[2])
  {
    forall id | IsRoot(decls, opts, id) ensures id == Id(decls[0]) || id == Id(decls[2]) {
      var d :| d in decls && Id(d) == id && opts.tagFilter(d.tags) && opts.nameFilter(id);
      var k :| 0 <= k < 3 && decls[k] == d;
      assert k != 1;
    }
  }

  lemma ZodRoots()
    ensures forall id :: IsRoot(HeroDecls([], true, ZodTags), ZodOptions(), id) ==> id == "Name" || id == "Superman"
  {
    var decls := HeroDecls([], true, ZodTags);
    NopNotTagged();
    RootsOutsideMiddle(decls, ZodOptions());
    assert Id(decls[0]) == "Name" && Id(decls[2]) == "Superman";
  }

  /** With `Name` and `Superman` tagged `@zod` and `BadassSuperman` tagged
      `@nop`, the tag filter keeps `Name` and `Superman` and drops
      `BadassSuperman`. */
  lemma TagFilterSelection()
    ensures Select(HeroDecls([], true, ZodTags), ZodOptions()) ==
      [HeroDecls([], true, ZodTags)[0], HeroDecls([], true, ZodTags)[2]]
  {
    ZodRoots();
    ZodTagged();
    NameAndSupermanSelected([], true, ZodTags, ZodOptions());
  }

  /** The two `@zod` declarations compile as under the default options: the
      tag filter changes what is selected, not how it is compiled. */
  lemma TagFilterSchemas()
    ensures Schemas(HeroDecls([], true, ZodTags), ZodOptions()) == [NameSchema([]), SupermanSchema([], true)]
  {
    var decls := HeroDecls([], true, ZodTags);
    var opts := ZodOptions();
    TagFilterSelection();
    NameCompiled([], true, ZodTags);
    SupermanCompiled([], true, ZodTags);
    CompileDeclNaming(decls, opts, DefaultOptions(), decls[0]);
    CompileDeclNaming(decls, opts, DefaultOptions(), decls[2]);
    SchemasOfTwo(decls, opts, decls[0], decls[2], NameSchema([]), SupermanSchema([], true));
  }

  /** `nameSchema` (the literal union) is emitted, then `supermanSchema` with
      its four properties, the reference to `nameSchema` and the e-mail
      refinement included; `badassSupermanSchema` is not. Nothing is reported. */
  lemma TagFilterGenerated()
    ensures Run(Schemas(HeroDecls([], true, ZodTags), ZodOptions()), ZodOptions().maxRun, []) ==
      [Emit(NameSchema([])), Emit(SupermanSchema([], true))]
    ensures Emit(NameSchema([])).expr == NameSchema([]).expr
    ensures Emit(SupermanSchema([], true)).expr == SupermanSchema([], true).expr
    ensures CycleErrors(Missing(Schemas(HeroDecls([], true, ZodTags), ZodOptions()),
                                Names(Run(Schemas(HeroDecls([], true, ZodTags), ZodOptions()), ZodOptions().maxRun, [])))) == []
  {
    TagFilterSchemas();
    RunOfTwo([NameSchema([]), SupermanSchema([], true)], ZodOptions().maxRun);
  }

  /** Only `Superman` passes the name filter; schema names are the lower-cased
      identifiers. */
  function SupermanOnlyOptions(): Options
  {
    DefaultOptions().(nameFilter := id => id == "Superman", schemaName := Lowercase)
  }

  lemma LowercaseNames()
    ensures Lowercase("Name") == "name"
    ensures Lowercase("Superman") == "superman"
  {
  }

  // ---------------------------------------------------------------------------
  // Reference type search: `Name` and a `Superman` whose one property refers
  // to it, under the `Superman` name filter with lower-cased schema names.

  function ReferenceDecls(): seq<Declaration>
  {
    [Exported("Name", Alias(NameType())),
     Exported("Superman", Interface([Prop("name", Ref("Name"))]))]
  }

  function NameDefinition(): Statement
  {
    Statement("Name", "name", true, [], NameSchema([]).expr)
  }

  function SupermanDefinition(): Statement
  {
    Statement("Superman", "superman", true, ["name"], ZObject([Entry("name", ZRef("name"))]))
  }

  lemma ReferenceDeps()
    ensures DependencyIds(ReferenceDecls(), ReferenceDecls()[0]) == []
    ensures DependencyIds(ReferenceDecls(), ReferenceDecls()[1]) == ["Name"]
  {
    var decls := ReferenceDecls();
    NameExprCompiled(decls, [], Lowercase);
    assert Id(decls[0]) == "Name";
    RefCompiled(decls, Lowercase, "Name");
    var fs := decls[1].body.fields;
    assert fs[1..] == [];
  }

  lemma ReferenceEdges()
    ensures Edges(ReferenceDecls(), "Name") == []
    ensures Edges(ReferenceDecls(), "Superman") == ["Name"]
  {
    var decls := ReferenceDecls();
    ReferenceDeps();
    assert Id(decls[0]) == "Name" && Id(decls[1]) == "Superman";
    assert decls[1..] == [decls[1]] && decls[1..][1..] == [];
    EdgesFromStep(decls, decls, "Name");
    EdgesFromStep(decls[1..], decls, "Name");
    EdgesFromStep(decls, decls, "Superman");
    EdgesFromStep(decls[1..], decls, "Superman");
  }

  /** `Superman` is the only root; `Name` is needed because `Superman` refers
      to it; both are selected, in source order. */
  lemma ReferenceSelection()
    ensures Needed(ReferenceDecls(), SupermanOnlyOptions()) == {"Name", "Superman"}
    ensures Select(ReferenceDecls(), SupermanOnlyOptions()) == ReferenceDecls()
  {
    var decls := ReferenceDecls();
    var opts := SupermanOnlyOptions();
    var s := {"Name", "Superman"};
    ReferenceEdges();
    forall id | IsRoot(decls, opts, id) ensures id in s {
    }
    NeededIsLeast(decls, opts, s);
    assert Id(decls[1]) == "Superman";
    RootsAreNeeded(decls, opts, decls[1]);
    NeededIsClosed(decls, opts);
    assert "Name" in Edges(decls, "Superman");
    assert Id(decls[0]) == "Name";
    SelectFromAll(decls, Needed(decls, opts));
  }

  function NameSchemaOf(): Schema
  {
    Schema("Name", "name", true, [], NameSchema([]).expr)
  }

  function SupermanSchemaOf(): Schema
  {
    Schema("Superman", "superman", true, ["name"], ZObject([Entry("name", ZRef("name"))]))
  }

  lemma ReferenceNameCompiled(decls: seq<Declaration>, opts: Options)
    requires decls == ReferenceDecls() && opts == SupermanOnlyOptions()
    ensures CompileDecl(decls, opts, decls[0]) == NameSchemaOf()
  {
    LowercaseNames();
    NameExprCompiled(decls, [], Lowercase);
    AliasCompiled(decls, opts, decls[0], [], NameSchema([]).expr);
  }

  lemma ReferenceSupermanCompiled(decls: seq<Declaration>, opts: Options)
    requires decls == ReferenceDecls() && opts == SupermanOnlyOptions()
    ensures CompileDecl(decls, opts, decls[1]) == SupermanSchemaOf()
  {
    var f := Prop("name", Ref("Name"));
    LowercaseNames();
    assert Id(decls[0]) == "Name";
    RefCompiled(decls, Lowercase, "Name");
    FieldsOfOne(decls, [], Lowercase, f);
    assert CompileField(decls, [], Lowercase, f) == Entry("name", ZRef("name"));
    InterfaceCompiled(decls, opts, decls[1], ["Name"], [Entry("name", ZRef("name"))]);
  }

  lemma ReferenceSchemas()
    ensures Schemas(ReferenceDecls(), SupermanOnlyOptions()) == [NameSchemaOf(), SupermanSchemaOf()]
  {
    var decls := ReferenceDecls();
    var opts := SupermanOnlyOptions();
    ReferenceSelection();
    ReferenceNameCompiled(decls, opts);
    ReferenceSupermanCompiled(decls, opts);
    assert decls == [decls[0], decls[1]];
    SchemasOfTwo(decls, opts, decls[0], decls[1], NameSchemaOf(), SupermanSchemaOf());
  }

  /** With only `Superman` passing the name filter, `name` (the literal
      union) is emitted first and `superman`, an object whose property refers
      to `name`, second: the custom naming is used at both definitions and at
      the reference. Nothing is reported. */
  lemma ReferenceGenerated()
    ensures Run(Schemas(ReferenceDecls(), SupermanOnlyOptions()), SupermanOnlyOptions().maxRun, []) ==
      [NameDefinition(), SupermanDefinition()]
    ensures CycleErrors(Missing(Schemas(ReferenceDecls(), SupermanOnlyOptions()),
                                Names(Run(Schemas(ReferenceDecls(), SupermanOnlyOptions()), SupermanOnlyOptions().maxRun, [])))) == []
  {
    var schemas := [NameSchemaOf(), SupermanSchemaOf()];
    ReferenceSchemas();
    RunOfTwo(schemas, SupermanOnlyOptions().maxRun);
    assert Emit(schemas[0]) == NameDefinition();
    assert Emit(schemas[1]) == SupermanDefinition();
  }

  // ---------------------------------------------------------------------------
  // `Superman` and an unrelated `Villain` under the same name filter: the
  // declaration nobody needs is dropped.

  function OptionsDecls(): seq<Declaration>
  {
    [Exported("Superman", Interface([Prop("name", Prim(PString))])),
     Exported("Villain", Interface([Prop("name", Prim(PString)), Prop("didKillSuperman", Lit(BoolLit(true)))]))]
  }

  lemma OptionsEdges()
    ensures Edges(OptionsDecls(), "Superman") == []
  {
    var decls := OptionsDecls();
    assert Id(decls[0]) == "Superman" && Id(decls[1]) == "Villain";
    assert DependencyIds(decls, decls[0]) == [] by {
      var fs := decls[0].body.fields;
      assert fs[1..] == [];
    }
    assert decls[1..][1..] == [];
    assert EdgesFrom(decls[1..], decls, "Superman") == [];
  }

  lemma OptionsNeeded()
    ensures Needed(OptionsDecls(), SupermanOnlyOptions()) == {"Superman"}
  {
    var decls := OptionsDecls();
    var opts := SupermanOnlyOptions();
    forall id | IsRoot(decls, opts, id) ensures id == "Superman" {
    }
    OptionsEdges();
    NeededIsLeast(decls, opts, {"Superman"});
    assert Id(decls[0]) == "Superman";
    RootsAreNeeded(decls, opts, decls[0]);
  }

  /** Only `Superman` passes the name filter and it refers to nothing, so
      `Villain` gets no schema; the one schema is named by the custom naming. */
  lemma OptionsSelection()
    ensures Select(OptionsDecls(), SupermanOnlyOptions()) == [OptionsDecls()[0]]
    ensures |Schemas(OptionsDecls(), SupermanOnlyOptions())| == 1
    ensures Schemas(OptionsDecls(), SupermanOnlyOptions())[0].varName == Lowercase("Superman")
    ensures Schemas(OptionsDecls(), SupermanOnlyOptions())[0].deps == []
  {
    var decls := OptionsDecls();
    OptionsNeeded();
    assert Id(decls[0]) == "Superman" && Id(decls[1]) == "Villain";
    assert decls[1..][1..] == [];
    assert SelectFrom(decls[1..], {"Superman"}) == [];
    OptionsEdges();
    assert DependencyIds(decls, decls[0]) == [] by {
      var fs := decls[0].body.fields;
      assert fs[1..] == [];
    }
  }

  function OptionsSupermanSchema(): Schema
  {
    Schema("Superman", "superman", true, [], ZObject([Entry("name", ZPrimitive(PString))]))
  }

  lemma OptionsSupermanCompiled(decls: seq<Declaration>, opts: Options)
    requires decls == OptionsDecls() && opts == SupermanOnlyOptions()
    ensures CompileDecl(decls, opts, decls[0]) == OptionsSupermanSchema()
  {
    var f := Prop("name", Prim(PString));
    LowercaseNames();
    FieldsOfOne(decls, [], Lowercase, f);
    assert CompileField(decls, [], Lowercase, f) == Entry("name", ZPrimitive(PString));
    InterfaceCompiled(decls, opts, decls[0], [], [Entry("name", ZPrimitive(PString))]);
  }

  /** Only `superman`, an object with a string `name`, is emitted; `Villain`
      is neither emitted nor reported. */
  lemma OptionsEmission()
    ensures Run(Schemas(OptionsDecls(), SupermanOnlyOptions()), SupermanOnlyOptions().maxRun, []) ==
      [Statement("Superman", "superman", true, [], ZObject([Entry("name", ZPrimitive(PString))]))]
    ensures CycleErrors(Missing(Schemas(OptionsDecls(), SupermanOnlyOptions()),
                                Names(Run(Schemas(OptionsDecls(), SupermanOnlyOptions()), SupermanOnlyOptions().maxRun, [])))) == []
  {
    var decls := OptionsDecls();
    var opts := SupermanOnlyOptions();
    OptionsSelection();
    OptionsSupermanCompiled(decls, opts);
    var r := Schemas(decls, opts);
    assert r[0] == CompileDecl(decls, opts, decls[0]);
    assert r == [OptionsSupermanSchema()];
    RunOfOne(r, opts.maxRun);
  }
}
