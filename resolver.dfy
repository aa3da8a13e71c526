/** The declaration table, the name resolver and the dependency graph builder. */
module Resolver {
  import opened Naming
  import opened Declarations

  datatype Option<T> = None | Some(value: T)

  /** The flattened identifiers of all declarations. */
  function Ids(decls: seq<Declaration>): set<string>
  {
    set d | d in decls :: Id(d)
  }

  /** The declaration a reference token written inside namespace `ns` denotes:
      the same-namespace declaration first, then the root-namespace one; a token
      denoting neither is an external type. */
  function Resolve(decls: seq<Declaration>, ns: seq<string>, token: string): (r: Option<string>)
    ensures r.Some? ==> r.value in Ids(decls)
    ensures Flatten(ns, token) in Ids(decls) ==> r == Some(Flatten(ns, token))
    ensures Flatten(ns, token) !in Ids(decls) && token in Ids(decls) ==> r == Some(token)
    ensures r.None? <==> Flatten(ns, token) !in Ids(decls) && token !in Ids(decls)
  {
    if Flatten(ns, token) in Ids(decls) then Some(Flatten(ns, token))
    else if token in Ids(decls) then Some(token)
    else None
  }

  /** The identifiers of the declarations a type refers to, in order of
      occurrence (an omit or pick refers to its base; an enumeration member
      and an unresolved token refer to none). */
  function TypeRefs(decls: seq<Declaration>, ns: seq<string>, t: Type): seq<string>
    decreases t
  {
    match t
    case Ref(token) => (match Resolve(decls, ns, token) case Some(id) => [id] case None => [])
    case ArrayOf(elem) => TypeRefs(decls, ns, elem)
    case UnionOf(options) => TypesRefs(decls, ns, options)
    case ObjectOf(fields) => FieldsRefs(decls, ns, fields)
    case Omit(base, _) => TypeRefs(decls, ns, base)
    case Pick(base, _) => TypeRefs(decls, ns, base)
    case _ => []
  }

  function TypesRefs(decls: seq<Declaration>, ns: seq<string>, ts: seq<Type>): seq<string>
    decreases ts
  {
    if ts == [] then [] else TypeRefs(decls, ns, ts[0]) + TypesRefs(decls, ns, ts[1..])
  }

  function FieldsRefs(decls: seq<Declaration>, ns: seq<string>, fs: seq<Field>): seq<string>
    decreases fs
  {
    if fs == [] then [] else TypeRefs(decls, ns, fs[0].ty) + FieldsRefs(decls, ns, fs[1..])
  }

  /** The dependency edges leaving `d`: one target per reference in its shape,
      resolved from `d`'s own namespace. An enumeration depends on nothing. */
  function DependencyIds(decls: seq<Declaration>, d: Declaration): (r: seq<string>)
    ensures forall k :: 0 <= k < |r| ==> r[k] in Ids(decls)
  {
    match d.body
    case Alias(ty) => TypeRefsDeclared(decls, d.namespace, ty); TypeRefs(decls, d.namespace, ty)
    case Interface(fields) => FieldsRefsDeclared(decls, d.namespace, fields); FieldsRefs(decls, d.namespace, fields)
    case Enum(_) => []
  }

  /** A resolved reference always denotes a declaration of the set. */
  lemma {:induction false} TypeRefsDeclared(decls: seq<Declaration>, ns: seq<string>, t: Type)
    ensures forall k :: 0 <= k < |TypeRefs(decls, ns, t)| ==> TypeRefs(decls, ns, t)[k] in Ids(decls)
    decreases t
  {
    match t
    case ArrayOf(elem) => TypeRefsDeclared(decls, ns, elem);
    case UnionOf(options) => TypesRefsDeclared(decls, ns, options);
    case ObjectOf(fields) => FieldsRefsDeclared(decls, ns, fields);
    case Omit(base, _) => TypeRefsDeclared(decls, ns, base);
    case Pick(base, _) => TypeRefsDeclared(decls, ns, base);
    case _ =>
  }

  lemma {:induction false} TypesRefsDeclared(decls: seq<Declaration>, ns: seq<string>, ts: seq<Type>)
    ensures forall k :: 0 <= k < |TypesRefs(decls, ns, ts)| ==> TypesRefs(decls, ns, ts)[k] in Ids(decls)
    decreases ts
  {
    if ts != [] {
      TypeRefsDeclared(decls, ns, ts[0]);
      TypesRefsDeclared(decls, ns, ts[1..]);
    }
  }

  lemma {:induction false} FieldsRefsDeclared(decls: seq<Declaration>, ns: seq<string>, fs: seq<Field>)
    ensures forall k :: 0 <= k < |FieldsRefs(decls, ns, fs)| ==> FieldsRefs(decls, ns, fs)[k] in Ids(decls)
    decreases fs
  {
    if fs != [] {
      TypeRefsDeclared(decls, ns, fs[0].ty);
      FieldsRefsDeclared(decls, ns, fs[1..]);
    }
  }
}
