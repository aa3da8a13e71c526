/** The declarations handed to the generator by the TypeScript parser, and the
    options of one `generate` call. */
module Declarations {
  import opened Naming

  /** A documentation tag such as `@format email`: its name and its raw text. */
  datatype Tag = Tag(name: string, text: string)

  datatype Literal = StringLit(s: string) | NumberLit(n: int) | BoolLit(b: bool)

  datatype Primitive = PString | PNumber | PBoolean | PNull | PUndefined | PAny | PUnknown

  /** The structural shape of a type, as written in a declaration. */
  datatype Type =
    | Prim(p: Primitive)
    | Lit(lit: Literal)
      /** A reference to a named type, as the token written at the use site. */
    | Ref(token: string)
      /** A member of an enumeration used as a type: `Superhero.Superman`. */
    | EnumMember(enumToken: string, member: string)
    | ArrayOf(elem: Type)
    | UnionOf(options: seq<Type>)
    | ObjectOf(fields: seq<Field>)
      /** `Omit<base, "k1" | ...>` */
    | Omit(base: Type, keys: seq<string>)
      /** `Pick<base, "k1" | ...>` */
    | Pick(base: Type, keys: seq<string>)

  /** A property of an object shape, with its optional marker and its own tags. */
  datatype Field = Field(name: string, optional: bool, tags: seq<Tag>, ty: Type)

  datatype Body =
    | Alias(ty: Type)
    | Interface(fields: seq<Field>)
    | Enum(members: seq<string>)

  /** One top-level declaration: its namespace path (outermost first), its name
      within that namespace, whether it is exported, its documentation tags. */
  datatype Declaration = Declaration(
    namespace: seq<string>,
    name: string,
    exported: bool,
    tags: seq<Tag>,
    body: Body)

  /** The flattened identifier under which a declaration is known. */
  function Id(d: Declaration): (r: string)
    ensures d.namespace == [] ==> r == d.name
  {
    Flatten(d.namespace, d.name)
  }

  predicate HasTagNamed(tags: seq<Tag>, name: string)
  {
    exists k :: 0 <= k < |tags| && tags[k].name == name
  }

  /** The field carries `@format email`. */
  predicate HasEmailFormat(tags: seq<Tag>)
  {
    exists k :: 0 <= k < |tags| && tags[k] == Tag("format", "email")
  }

  /** The options of one `generate` call. Comment retention is not modelled. */
  datatype Options = Options(
    maxRun: nat,
    nameFilter: string -> bool,
    tagFilter: seq<Tag> -> bool,
    schemaName: string -> string)

  /** The options of a call that sets none: every declaration is a root, names are
      derived by `DefaultSchemaName`, ten ordering passes. */
  function DefaultOptions(): (o: Options)
    ensures o.maxRun == 10
    ensures forall id :: o.nameFilter(id) && o.schemaName(id) == DefaultSchemaName(id)
    ensures forall tags :: o.tagFilter(tags)
  {
    Options(10, _ => true, _ => true, DefaultSchemaName)
  }
}
