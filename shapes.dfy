/** The shape compiler: a declaration's structural shape becomes a validator
    expression tree. Only the meaning of each validator constructor is kept,
    not its concrete syntax. */
module Shapes {
  import opened Declarations
  import opened Resolver

  datatype Expr =
    | ZPrimitive(p: Primitive)
    | ZLiteral(lit: Literal)
      /** An exact match on a member of a runtime enumeration. */
    | ZEnumLiteral(enumToken: string, member: string)
      /** A validator bound to the runtime enumeration itself. */
    | ZNativeEnum(enumId: string)
      /** A direct reference to another schema, by its schema name. */
    | ZRef(schema: string)
      /** The catch-all validator for a type outside the analysed set. */
    | ZUnknown
    | ZArray(elem: Expr)
    | ZUnion(options: seq<Expr>)
    | ZObject(entries: seq<Entry>)
    | ZOptional(inner: Expr)
      /** A string validator refined by the email format. */
    | ZEmail(inner: Expr)
    | ZOmit(base: Expr, keys: seq<string>)
    | ZPick(base: Expr, keys: seq<string>)
      /** Evaluation deferred until first use. */
    | ZLazy(body: Expr)

  datatype Entry = Entry(key: string, value: Expr)

  /** The schema names an expression refers to directly, in order of occurrence. */
  function ExprRefs(e: Expr): seq<string>
    decreases e
  {
    match e
    case ZRef(name) => [name]
    case ZArray(elem) => ExprRefs(elem)
    case ZUnion(options) => ExprsRefs(options)
    case ZObject(entries) => EntriesRefs(entries)
    case ZOptional(inner) => ExprRefs(inner)
    case ZEmail(inner) => ExprRefs(inner)
    case ZOmit(base, _) => ExprRefs(base)
    case ZPick(base, _) => ExprRefs(base)
    case ZLazy(body) => ExprRefs(body)
    case _ => []
  }

  function ExprsRefs(es: seq<Expr>): seq<string>
    decreases es
  {
    if es == [] then [] else ExprRefs(es[0]) + ExprsRefs(es[1..])
  }

  function EntriesRefs(es: seq<Entry>): seq<string>
    decreases es
  {
    if es == [] then [] else ExprRefs(es[0].value) + EntriesRefs(es[1..])
  }

  /** No deferred evaluation anywhere in the tree. */
  predicate Eager(e: Expr)
    decreases e
  {
    match e
    case ZLazy(_) => false
    case ZArray(elem) => Eager(elem)
    case ZUnion(options) => forall k :: 0 <= k < |options| ==> Eager(options[k])
    case ZObject(entries) => forall k :: 0 <= k < |entries| ==> Eager(entries[k].value)
    case ZOptional(inner) => Eager(inner)
    case ZEmail(inner) => Eager(inner)
    case ZOmit(base, _) => Eager(base)
    case ZPick(base, _) => Eager(base)
    case _ => true
  }

  /** `name` applied to every element. */
  function MapNames(name: string -> string, ids: seq<string>): (r: seq<string>)
    ensures |r| == |ids|
    ensures forall k :: 0 <= k < |ids| ==> r[k] == name(ids[k])
  {
    if ids == [] then [] else [name(ids[0])] + MapNames(name, ids[1..])
  }

  lemma MapNamesAppend(name: string -> string, a: seq<string>, b: seq<string>)
    ensures MapNames(name, a + b) == MapNames(name, a) + MapNames(name, b)
  {
  }

  /** The validator of a type written inside namespace `ns`; references are
      written with the schema name `name` gives their target. */
  function CompileType(decls: seq<Declaration>, ns: seq<string>, name: string -> string, t: Type): (r: Expr)
    ensures Eager(r)
    ensures !r.ZOptional? && !r.ZEmail?
    decreases t
  {
    match t
    case Prim(p) => ZPrimitive(p)
    case Lit(lit) => ZLiteral(lit)
    case Ref(token) =>
      (match Resolve(decls, ns, token)
       case Some(id) => ZRef(name(id))
       case None => ZUnknown)
    case EnumMember(enumToken, member) => ZEnumLiteral(enumToken, member)
    case ArrayOf(elem) => ZArray(CompileType(decls, ns, name, elem))
    case UnionOf(options) => ZUnion(CompileTypes(decls, ns, name, options))
    case ObjectOf(fields) => ZObject(CompileFields(decls, ns, name, fields))
    case Omit(base, keys) => ZOmit(CompileType(decls, ns, name, base), keys)
    case Pick(base, keys) => ZPick(CompileType(decls, ns, name, base), keys)
  }

  function CompileTypes(decls: seq<Declaration>, ns: seq<string>, name: string -> string, ts: seq<Type>): (r: seq<Expr>)
    ensures |r| == |ts|
    ensures forall k :: 0 <= k < |r| ==> Eager(r[k])
    decreases ts
  {
    if ts == [] then []
    else [CompileType(decls, ns, name, ts[0])] + CompileTypes(decls, ns, name, ts[1..])
  }

  /** One property of an object: the email refinement applies to a string
      carrying `@format email`, the optional wrapper to an optional property. */
  function CompileField(decls: seq<Declaration>, ns: seq<string>, name: string -> string, f: Field): (r: Entry)
    ensures r.key == f.name
    ensures Eager(r.value)
    ensures r.value.ZOptional? <==> f.optional
    ensures (if f.optional then r.value.inner else r.value).ZEmail?
        <==> f.ty == Prim(PString) && HasEmailFormat(f.tags)
    decreases f, 0
  {
    var e := CompileType(decls, ns, name, f.ty);
    var refined := if f.ty == Prim(PString) && HasEmailFormat(f.tags) then ZEmail(e) else e;
    Entry(f.name, if f.optional then ZOptional(refined) else refined)
  }

  function CompileFields(decls: seq<Declaration>, ns: seq<string>, name: string -> string, fs: seq<Field>): (r: seq<Entry>)
    ensures |r| == |fs|
    ensures forall k :: 0 <= k < |r| ==> r[k].key == fs[k].name && Eager(r[k].value)
    decreases fs
  {
    if fs == [] then []
    else [CompileField(decls, ns, name, fs[0])] + CompileFields(decls, ns, name, fs[1..])
  }

  /** The validator of a declaration registered as `id`: an enumeration is
      bound to its runtime object, anything else is compiled from its shape. */
  function CompileBody(decls: seq<Declaration>, d: Declaration, name: string -> string): (r: Expr)
    ensures Eager(r)
    ensures d.body.Enum? <==> r == ZNativeEnum(Id(d))
  {
    match d.body
    case Alias(ty) => CompileType(decls, d.namespace, name, ty)
    case Interface(fields) => ZObject(CompileFields(decls, d.namespace, name, fields))
    case Enum(_) => ZNativeEnum(Id(d))
  }

  // ---------------------------------------------------------------------------
  // Reference fidelity: a compiled expression refers to exactly the schemas of
  // the declarations its type depends on, in the same order, each under the
  // schema name its definition gets.

  lemma {:induction false} TypeRefsCompiled(decls: seq<Declaration>, ns: seq<string>, name: string -> string, t: Type)
    ensures ExprRefs(CompileType(decls, ns, name, t)) == MapNames(name, TypeRefs(decls, ns, t))
    decreases t
  {
    match t
    case Prim(_) =>
    case Lit(_) =>
    case Ref(token) => RefRefsCompiled(decls, ns, name, token);
    case EnumMember(_, _) =>
    case ArrayOf(elem) => TypeRefsCompiled(decls, ns, name, elem);
    case UnionOf(options) => TypesRefsCompiled(decls, ns, name, options);
    case ObjectOf(fields) => FieldsRefsCompiled(decls, ns, name, fields);
    case Omit(base, _) => TypeRefsCompiled(decls, ns, name, base);
    case Pick(base, _) => TypeRefsCompiled(decls, ns, name, base);
  }

  lemma RefRefsCompiled(decls: seq<Declaration>, ns: seq<string>, name: string -> string, token: string)
    ensures ExprRefs(CompileType(decls, ns, name, Ref(token))) == MapNames(name, TypeRefs(decls, ns, Ref(token)))
  {
    match Resolve(decls, ns, token)
    case Some(id) => assert MapNames(name, [id]) == [name(id)];
    case None =>
  }

  lemma {:induction false} TypesRefsCompiled(decls: seq<Declaration>, ns: seq<string>, name: string -> string, ts: seq<Type>)
    ensures ExprsRefs(CompileTypes(decls, ns, name, ts)) == MapNames(name, TypesRefs(decls, ns, ts))
    decreases ts
  {
    if ts != [] {
      TypeRefsCompiled(decls, ns, name, ts[0]);
      TypesRefsCompiled(decls, ns, name, ts[1..]);
      MapNamesAppend(name, TypeRefs(decls, ns, ts[0]), TypesRefs(decls, ns, ts[1..]));
    }
  }

  lemma {:induction false} FieldsRefsCompiled(decls: seq<Declaration>, ns: seq<string>, name: string -> string, fs: seq<Field>)
    ensures EntriesRefs(CompileFields(decls, ns, name, fs)) == MapNames(name, FieldsRefs(decls, ns, fs))
    decreases fs
  {
    if fs != [] {
      var f := fs[0];
      TypeRefsCompiled(decls, ns, name, f.ty);
      FieldsRefsCompiled(decls, ns, name, fs[1..]);
      MapNamesAppend(name, TypeRefs(decls, ns, f.ty), FieldsRefs(decls, ns, fs[1..]));
      FieldRefsCompiled(decls, ns, name, f);
    }
  }

  /** The optional wrapper and the email refinement add no reference. */
  lemma FieldRefsCompiled(decls: seq<Declaration>, ns: seq<string>, name: string -> string, f: Field)
    ensures ExprRefs(CompileField(decls, ns, name, f).value) == ExprRefs(CompileType(decls, ns, name, f.ty))
  {
  }

  /** A declaration's validator refers to the schema names of its dependencies. */
  lemma BodyRefsAreDependencies(decls: seq<Declaration>, d: Declaration, name: string -> string)
    ensures ExprRefs(CompileBody(decls, d, name)) == MapNames(name, DependencyIds(decls, d))
  {
    match d.body
    case Alias(ty) => TypeRefsCompiled(decls, d.namespace, name, ty);
    case Interface(fields) => FieldsRefsCompiled(decls, d.namespace, name, fields);
    case Enum(_) =>
  }

  /** A union of literal types becomes a union of exact-value validators. */
  lemma {:induction false} LiteralUnion(decls: seq<Declaration>, ns: seq<string>, name: string -> string, ts: seq<Type>)
    requires forall k :: 0 <= k < |ts| ==> ts[k].Lit?
    ensures CompileType(decls, ns, name, UnionOf(ts)) == ZUnion(seq(|ts|, k requires 0 <= k < |ts| => ZLiteral(ts[k].lit)))
  {
    LiteralsCompiled(decls, ns, name, ts);
  }

  lemma {:induction false} LiteralsCompiled(decls: seq<Declaration>, ns: seq<string>, name: string -> string, ts: seq<Type>)
    requires forall k :: 0 <= k < |ts| ==> ts[k].Lit?
    ensures CompileTypes(decls, ns, name, ts) == seq(|ts|, k requires 0 <= k < |ts| => ZLiteral(ts[k].lit))
    decreases ts
  {
    if ts != [] {
      LiteralsCompiled(decls, ns, name, ts[1..]);
    }
  }
}
