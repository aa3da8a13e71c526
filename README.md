# ts-to-zod `generate`: selection, shape compilation and emission order

`generate` turns the type declarations of a TypeScript module into zod schemas.
It takes type aliases, interfaces, enumerations and declarations nested in
namespaces. Besides the schemas it produces a list of type-equivalence
assertions and a list of diagnostics. This project models that core after
parsing and before rendering. Its input is a sequence of declarations and the
options of one call.

- **Declarations** (`declarations.dfy`) are the parser's output. Each one has
  a namespace path, a name, an export flag, its documentation tags and a body:
  an alias of a type, an interface, or an enumeration. The options hold the pass
  budget `maxRun`, the name filter, the documentation-tag filter and the
  schema-naming function.
- **Naming** (`naming.dfy`) flattens namespaces: `Metropolis.Superman` becomes
  `MetropolisSuperman`. It also builds the default schema name, `Superman` →
  `supermanSchema`, and the line-joined text of the cycle diagnostic.
- **Resolution** (`resolver.dfy`) looks a reference token up in the referrer's
  own namespace first, then in the root namespace. A token found in neither
  names an external type. It yields the dependency edges of every declaration.
- **Selection** (`selection.dfy`): the declarations that pass both filters are
  the roots. Every declaration a root needs, transitively, is selected too.
  Nothing else is.
- **Shape compilation** (`shapes.dfy`) turns a type into a validator tree.
  Literal unions become unions of literals. Optional properties become
  optional. Arrays become arrays. An `@format email` string becomes an email
  refinement. An enumeration becomes a native-enum validator, and an
  enumeration member an exact-match literal. `Omit`/`Pick` apply to their base,
  and references become references by schema name.
- **Emission order** (`ordering.dfy`) is the imperative engine
  `ResolveOrder`. It makes up to `maxRun` passes over the schemas in source
  order. A pass emits every pending schema whose dependencies, other than
  itself, are already emitted. A schema that refers to itself is emitted
  behind a lazy wrapper. The schemas still pending at the end are named, in
  source order, in a single diagnostic. That diagnostic speaks of circular
  dependencies, yet a budget shorter than a chain declared dependents-first
  also leaves acyclic schemas pending: `[C -> B, B -> A, A]` with `maxRun` 2
  reports `cSchema`. This is why completeness is promised only for a budget
  of one pass per schema.
- **Generation** (`generation.dfy`) is the `generate` method. It composes the
  steps above and lists one type-equivalence assertion per exported emitted
  schema.
- **Scenarios** (`scenarios.dfy`, `hero.dfy`, `filters.dfy`) state and prove
  what the model yields on the declaration sets of `src/core/generate.test.ts`:
  for each of them, the emitted definitions in order (names and validators)
  and the absence or the text of the diagnostic; for the simple, enum,
  circular, non-exported and namespace sets, also the assertions. "## Left out" names what the scenarios
  leave unstated.

## Model

| member | source | states |
|---|---|---|
| Naming.LowerFirst | src/core/generate.test.ts:33-42 | the first letter is lower-cased, everything after it is kept, and the length is unchanged |
| Naming.Lowercase | src/core/generate.test.ts:230 | each ASCII capital letter becomes its small letter, every other character is kept, and the length is unchanged |
| Naming.DefaultSchemaName | src/core/generate.test.ts:33-42 | the default schema name is the lower-first identifier followed by exactly `Schema` |
| Naming.DefaultSchemaNameInjective | src/core/generate.test.ts:33-42 | two identifiers with the same default schema name agree everywhere except the case of their first letter |
| Naming.Flatten | src/core/generate.test.ts:409-418 | a flattened identifier ends with the declaration's own name, and a root-namespace name is unchanged |
| Naming.FlattenNested | src/core/generate.test.ts:380-397 | flattening is uniform across nesting: `A.B.T` is `A.(BT)` |
| Naming.SplitJoin | src/core/generate.test.ts:205-207 | splitting the line-joined list at line breaks gives back the list, when no name contains a line break |
| Declarations.Id | src/core/generate.test.ts:6-19 | a root-namespace declaration is known by its own name |
| Declarations.DefaultOptions | src/core/generate.test.ts:24-26 | a call without options accepts every declaration, names schemas by `DefaultSchemaName` and allows ten passes |
| Resolver.Resolve | src/core/generate.test.ts:384-394 | the same-namespace declaration wins, else the root-namespace one; nothing is found exactly when neither exists, and a found target is always declared |
| Resolver.DependencyIds | src/core/generate.test.ts:9-12 | every dependency edge of a declaration ends at a declared identifier |
| Resolver.TypeRefsDeclared | src/core/generate.test.ts:9-12 | every resolved reference inside a type names a declaration of the set |
| Selection.Roots | src/core/generate.test.ts:308-311 | an identifier is a root exactly when some declaration with it passes both the tag filter and the name filter |
| Selection.Select | src/core/generate.test.ts:280-327 | a declaration is selected exactly when its identifier is needed |
| Selection.SelectInOrder | src/core/generate.test.ts:280-327 | the selection is the declaration sequence with some entries dropped, so it keeps source order whatever the filters remove |
| Selection.RootsAreNeeded | src/core/generate.test.ts:257-262 | every declaration that passes both filters is selected |
| Selection.NeededIsClosed | src/core/generate.test.ts:269-273 | whatever a needed identifier depends on is needed too |
| Selection.NeededIsLeast | src/core/generate.test.ts:227-246 | the needed set lies inside every set that holds the roots and is closed under dependencies, so an unneeded declaration is dropped |
| Selection.SelectedDependenciesSelected | src/core/generate.test.ts:269-273 | every dependency of a selected declaration is the identifier of a selected declaration |
| Selection.SelectAll | src/core/generate.test.ts:24-44 | when every declaration passes both filters, all are selected, in source order |
| Shapes.CompileType | src/core/generate.test.ts:33-42 | a compiled type never has a lazy node and is never itself optional or email-refined |
| Shapes.CompileField | src/core/generate.test.ts:35-40 | the entry keeps the property's key; it is optional exactly when the property is; it is email-refined exactly when a `string` property carries `@format email` |
| Shapes.CompileBody | src/core/generate.test.ts:102-105 | a declaration compiles to the native-enum validator of its own identifier exactly when it is an enumeration, and never contains a lazy node |
| Shapes.TypeRefsCompiled | src/core/generate.test.ts:36 | a compiled type refers to the schema names of the type's resolved references, in the same order |
| Shapes.BodyRefsAreDependencies | src/core/generate.test.ts:36-42 | a compiled declaration refers to the schema names of exactly its dependency edges |
| Shapes.LiteralUnion | src/core/generate.test.ts:6-33 | a union of literal types compiles to the union of the same literals, in order |
| Ordering.Emit | src/core/generate.test.ts:172-176 | a definition is lazy exactly when its schema refers to itself, and otherwise is the schema's own validator unchanged |
| Ordering.Missing | src/core/generate.test.ts:202-209 | the pending names are exactly the schema names not emitted |
| Ordering.MissingInSourceOrder | src/core/generate.test.ts:205-207 | of two pending schemas, the one earlier in the schema sequence is listed first (Generation.PendingInDeclarationOrder ties that sequence to declaration order) |
| Ordering.MissingDistinct | src/core/generate.test.ts:205-207 | when schema names are distinct, no pending name is listed twice |
| Ordering.CycleErrors | src/core/generate.test.ts:202-209 | no diagnostic when nothing is pending, otherwise exactly one, which starts with the circular-dependency header |
| Ordering.CycleErrorsListMissing | src/core/generate.test.ts:205-207 | the diagnostic's lines after the header are exactly the pending schema names, in order |
| Ordering.ResolveOrder | src/core/generate.test.ts:161-164 | the bounded pass loop computes `Run` under the caller's `maxRun`; its definitions are well formed; its diagnostics name what is left pending |
| Ordering.RunWf | src/core/generate.test.ts:33-42 | every emitted definition is emitted once and comes after every other schema it depends on |
| Ordering.AcyclicEmitsAll | src/core/generate.test.ts:75-77 | with one pass per schema, a set with no cycle of two or more is emitted completely and without diagnostic |
| Ordering.EmittedModuloCycles | src/core/generate.test.ts:161-209 | with one pass per schema, every schema whose dependencies, followed transitively, reach no cycle of two or more is emitted and not reported, whatever cycles exist elsewhere |
| Ordering.CycleNotEmitted | src/core/generate.test.ts:149-158 | no member of a cycle of distinct schemas is ever emitted |
| Ordering.CycleReported | src/core/generate.test.ts:202-209 | the members of a cycle stay pending under any budget, and exactly one diagnostic is produced |
| Ordering.SelfReferenceEmittedLazily | src/core/generate.test.ts:172-176 | a schema that depends only on itself is emitted exactly once, lazily around its own validator, and is not reported |
| Ordering.IndependentInSourceOrder | src/core/generate.test.ts:6-33 | schemas that depend on nothing but themselves come out in source order |
| Ordering.RunExtends | src/core/generate.test.ts:161-164 | a larger pass budget only appends definitions to what a smaller one emits |
| Ordering.SamePassInSourceOrder | src/core/generate.test.ts:5-44 | two schemas emitted by the same pass, whichever pass that is, appear in source order in the final output |
| Ordering.DefinitionsReferBack | src/core/generate.test.ts:35-42 | every reference in an emitted definition names a definition emitted earlier, or is its own name behind its lazy wrapper |
| Generation.CompileDecl | src/core/generate.test.ts:269-273 | the schema is named by the naming option, and its references are that option applied to its dependency edges |
| Generation.Integration | src/core/generate.test.ts:61-71 | one assertion per exported definition and none other |
| Generation.IntegrationAppend | src/core/generate.test.ts:61-71 | the assertions follow the emission order |
| Generation.IntegrationSkipsNonExported | src/core/generate.test.ts:366-372 | a definition gets an assertion exactly when it is exported |
| Generation.Generate | src/core/generate.test.ts:24-26 | the result is the emission of the selected schemas, their assertions and diagnostics, and no definition refers forward except lazily to itself |
| Generation.ReferencesAreDefined | src/core/generate.test.ts:269-273 | every reference of a generated schema is the name of a generated schema |
| Generation.CycleDropped | src/core/generate.test.ts:161-209 | selected declarations whose schemas form a cycle get no definition and no assertion under any budget, stay pending and are named by exactly one diagnostic |
| Generation.SchemasInSourceOrder | src/core/generate.test.ts:251-275 | each schema is compiled from a declaration, and the declarations' positions increase along the schemas |
| Generation.PendingInDeclarationOrder | src/core/generate.test.ts:202-209 | of two pending schemas, each compiled from its declaration, the diagnostic lists first the one whose declaration comes first |
| Generation.AcyclicGeneratesAll | src/core/generate.test.ts:451-453 | with a budget of one pass per declaration, a declaration set with no cycle of two or more emits a definition under every selected declaration's schema name and no error; when schema names are distinct, the emitted definition is that declaration's own compiled schema |
| Generation.CompiledFrom | src/core/generate.test.ts:33-42 | when schema names are distinct, the schema bearing a selected declaration's name is that declaration's compiled schema |
| Generation.GeneratedModuloCycles | src/core/generate.test.ts:161-209 | with one pass per declaration and distinct schema names, a selected declaration whose dependencies, followed transitively, reach no cycle of two or more gets its compiled definition emitted and is not reported, whatever cycles exist elsewhere |
| Scenarios.CircularSchemas | src/core/generate.test.ts:142-159 | `Villain`, `EvilPlan` and `EvilPlanDetails` are all selected and compiled, in source order |
| Scenarios.CircularFirstPass | src/core/generate.test.ts:172-176 | the first pass emits only the self-referencing `Villain` |
| Scenarios.CircularReferences | src/core/generate.test.ts:161-209 | with `maxRun: 3`, only `villainSchema` is emitted, lazily, and it is the one assertion; one diagnostic names `evilPlanSchema` then `evilPlanDetailsSchema` |
| Scenarios.EnumsCompiled | src/core/generate.test.ts:80-107 | `Superhero` compiles to its native-enum validator, and `FavoriteSuperhero` compiles to an object whose property is the exact enumeration member, with no dependency |
| Scenarios.EnumSchemas | src/core/generate.test.ts:80-107 | both enum-test declarations are selected and compiled, in source order, as `superheroSchema` and `favoriteSuperheroSchema` |
| Scenarios.EnumsGenerated | src/core/generate.test.ts:80-133 | `superheroSchema` (the native enum) is emitted, then `favoriteSuperheroSchema` (the object with the exact member); the assertions are for `Superhero` then `FavoriteSuperhero`; there is no error |
| HeroScenario.SupermanCompiled | src/core/generate.test.ts:35-40 | `Superman` compiles to an object that refers to the name schema, with a number, an optional boolean and an email-refined string |
| HeroScenario.BadassCompiled | src/core/generate.test.ts:42 | `BadassSuperman` compiles to the Superman schema with `underKryptonite` omitted |
| HeroScenario.HeroGenerated | src/core/generate.test.ts:5-44 | the output is `name`, `superman`, `badassSuperman` even though `BadassSuperman` is declared before `Superman`; nothing is lazy and there is no error |
| HeroScenario.HeroAssertions | src/core/generate.test.ts:61-71 | the assertions list the exported types in emission order, and skip a non-exported `Superman` |
| HeroScenario.HeroNames | src/core/generate.test.ts:33-42 | the root-namespace schema names are `nameSchema`, `supermanSchema` and `badassSupermanSchema` |
| HeroScenario.MetropolisNames | src/core/generate.test.ts:437-447 | inside `Metropolis` the flattened type is `MetropolisSuperman` and the schema names carry the `metropolis` prefix |
| FilterScenarios.HeroEdges | src/core/generate.test.ts:9-12 | `Superman` needs `Name`, `BadassSuperman` needs `Superman`, and `Name` needs nothing |
| FilterScenarios.TagFilterSelection | src/core/generate.test.ts:280-327 | with the `@zod` tag filter, `Name` and `Superman` are selected and the `@nop` `BadassSuperman` is not |
| FilterScenarios.TagFilterSchemas | src/core/generate.test.ts:313-326 | the two selected declarations compile as without the filter: the literal union and the four-property `Superman` object |
| FilterScenarios.TagFilterGenerated | src/core/generate.test.ts:313-326 | `nameSchema` (the literal union) is emitted, then `supermanSchema` (referring to `nameSchema`, with a number, an optional boolean and an email-refined string), each with its validator unchanged; there is no error |
| FilterScenarios.LowercaseNames | src/core/generate.test.ts:230 | lower-casing gives `name` for `Name` and `superman` for `Superman` |
| FilterScenarios.ReferenceEdges | src/core/generate.test.ts:251-255 | `Superman` depends on `Name` once, and `Name` on nothing |
| FilterScenarios.ReferenceSelection | src/core/generate.test.ts:251-262 | with the `Superman` name filter, the needed set is `Name` and `Superman`, so `Name` is pulled in and both are selected in source order |
| FilterScenarios.ReferenceSchemas | src/core/generate.test.ts:251-275 | the schemas are `name`, the literal union, and `superman`, an object whose `name` property refers to `name` |
| FilterScenarios.ReferenceGenerated | src/core/generate.test.ts:264-275 | `name` is emitted before `superman`, with the lower-cased name used at both definitions and at the reference, and there is no error |
| FilterScenarios.OptionsSelection | src/core/generate.test.ts:227-246 | with the `Superman` name filter, the unrelated `Villain` gets no schema, and `superman` is the only one |
| FilterScenarios.OptionsEmission | src/core/generate.test.ts:234-246 | the only definition emitted is `superman`, an object with a `string` property `name`; there is no error |

## Left out

- `src/core/generate.ts`, the implementation of `generate`, is not part of this model. The model follows what `src/core/generate.test.ts` asserts.
- Parsing TypeScript source text into declarations: this is the compiler API's job. The declarations are an input datatype. The non-type `fly` constant (lines 21 and 396) therefore never reaches the model.
- Rendering: the zod source text, the import lines, the generated-file header, the `expectType` boilerplate, the `z.infer` aliases and the placement of retained comments (`keepComments`). Validators are a tree (`Shapes.Expr`), and assertions are (type name, schema name) pairs.
- File and module paths passed to the renderers (`"./hero"`, `"hero.zod"`): these are plumbing strings only.
- What zod validators accept at run time, and the type that `z.infer` computes: these belong to the zod library, and their nodes stay opaque constructors.
- Default naming is modelled as lower-casing the first ASCII letter and appending `Schema`. A fuller camel-case normalisation of identifiers (digits, underscores, runs of capitals) is not modelled, because no identifier here exercises it.
- Documentation-tag refinements other than `@format email`, nullable unions, interface heritage and generic declarations are not modelled, because nothing here exercises them.
- Declarations.DefaultOptions: the default budget of ten passes is the implementation's default. No assertion here shows it.
- A reference token that resolves to no declaration compiles to the catch-all `ZUnknown` and adds no dependency. No assertion here shows this case.
- The cycle diagnostic lists pending schema names in source order (`evilPlanSchema` before `evilPlanDetailsSchema`, lines 205-207). A sorted order is not modelled: the test fixes source order, which is not alphabetical here.
- Declarations.DefaultOptions: the name filter's default is to accept every declaration, not only exported ones. A non-exported declaration that an exported one needs is generated either way (lines 330-374).
- Selection.Select: a selected declaration pulls in its dependencies transitively, not just its direct dependencies.
- Dependency edges keep one entry per reference occurrence. Emission only asks whether a name is among them, so duplicates change nothing.
- Naming.Lowercase: only the ASCII capitals `A`–`Z` are folded. The full Unicode case mapping of `toLowerCase` (line 230) is not modelled. Every identifier in these declaration sets is ASCII.
- Two declarations whose schema names coincide (for example `Foo` and `foo`, both named `fooSchema` by default) are not reported as a conflict. Emission treats the name as emitted once the first of them is, so the later one's definition is silently dropped. This is why Generation.AcyclicGeneratesAll and Generation.GeneratedModuloCycles promise each declaration's own definition only when schema names are distinct (`SchemaNamesDistinct`).
- The scenarios state no type-equivalence assertions for the filter, options and reference-search sets, because those tests check only the schema file.
- The exact retry behaviour for chains of cycles that only become breakable one after another is not modelled beyond the bounded pass loop.
