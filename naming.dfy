/** Identifier policy: namespace flattening, default schema names, and the
    line-joined diagnostic text. */
module Naming {

  /** Lower-case form of an ASCII upper-case letter; every other character is kept. */
  function LowerChar(c: char): (r: char)
    ensures 'A' <= c <= 'Z' ==> 'a' <= r <= 'z' && r as int - c as int == 32
    ensures !('A' <= c <= 'Z') ==> r == c
  {
    if 'A' <= c <= 'Z' then (c as int + 32) as char else c
  }

  /** The identifier with its first letter lower-cased. */
  function LowerFirst(id: string): (r: string)
    ensures |r| == |id|
    ensures |id| > 0 ==> r[0] == LowerChar(id[0]) && r[1..] == id[1..]
  {
    if id == [] then [] else [LowerChar(id[0])] + id[1..]
  }

  /** Every character lower-cased; a custom schema-naming option. */
  function Lowercase(s: string): (r: string)
    ensures |r| == |s|
    ensures forall k :: 0 <= k < |s| ==> r[k] == LowerChar(s[k])
  {
    if s == [] then [] else [LowerChar(s[0])] + Lowercase(s[1..])
  }

  /** The default schema name: `Superman` becomes `supermanSchema`. */
  function DefaultSchemaName(id: string): (r: string)
    ensures |r| == |id| + 6
    ensures r[..|id|] == LowerFirst(id)
    ensures r[|id|..] == "Schema"
  {
    LowerFirst(id) + "Schema"
  }

  /** Two identifiers share a default schema name only when they differ at most
      in the case of their first letter. */
  lemma DefaultSchemaNameInjective(a: string, b: string)
    requires DefaultSchemaName(a) == DefaultSchemaName(b)
    ensures |a| == |b|
    ensures LowerFirst(a) == LowerFirst(b)
    ensures |a| > 0 ==> a[1..] == b[1..]
  {
    var r := DefaultSchemaName(a);
    assert |a| == |b|;
    assert LowerFirst(a) == r[..|a|] == LowerFirst(b);
    if |a| > 0 {
      assert a[1..] == LowerFirst(a)[1..] == LowerFirst(b)[1..] == b[1..];
    }
  }

  /** Concatenation of namespace segments, outermost first. */
  function Concat(segments: seq<string>): (r: string)
  {
    if segments == [] then "" else Concat(segments[..|segments| - 1]) + segments[|segments| - 1]
  }

  /** The flattened identifier of `name` declared inside the namespace path
      `namespace`: `Metropolis.Superman` becomes `MetropolisSuperman`. */
  function Flatten(namespace: seq<string>, name: string): (r: string)
    ensures |r| >= |name| && r[|r| - |name|..] == name
    ensures namespace == [] ==> r == name
  {
    Concat(namespace) + name
  }

  /** Flattening is uniform across nesting: `A.B.T` is `A.(BT)`. */
  lemma {:induction false} FlattenNested(outer: seq<string>, inner: string, name: string)
    ensures Flatten(outer + [inner], name) == Flatten(outer, inner + name)
  {
    assert (outer + [inner])[..|outer|] == outer;
  }

  /** `parts` joined with `sep` between consecutive parts. */
  function Join(parts: seq<string>, sep: string): (r: string)
  {
    if |parts| == 0 then ""
    else if |parts| == 1 then parts[0]
    else parts[0] + sep + Join(parts[1..], sep)
  }

  /** `s` cut at every occurrence of the character `c`. */
  function Split(s: string, c: char): (r: seq<string>)
    ensures |r| > 0
  {
    if s == [] then [""]
    else
      var rest := Split(s[1..], c);
      if s[0] == c then [""] + rest else [[s[0]] + rest[0]] + rest[1..]
  }

  lemma {:induction false} SplitNoSeparator(w: string, c: char)
    requires c !in w
    ensures Split(w, c) == [w]
  {
    if w != [] {
      SplitNoSeparator(w[1..], c);
      assert [w[0]] + w[1..] == w;
    }
  }

  lemma {:induction false} SplitAfterWord(w: string, c: char, rest: string)
    requires c !in w
    ensures Split(w + [c] + rest, c) == [w] + Split(rest, c)
  {
    if w == [] {
      assert w + [c] + rest == [c] + rest;
      assert ([c] + rest)[1..] == rest;
    } else {
      var s := w + [c] + rest;
      assert s[0] == w[0] && s[1..] == w[1..] + [c] + rest;
      SplitAfterWord(w[1..], c, rest);
      assert [w[0]] + w[1..] == w;
    }
  }

  /** Splitting a line-joined list at the separator gives the list back,
      provided no part contains the separator. */
  lemma {:induction false} SplitJoin(parts: seq<string>, c: char)
    requires |parts| > 0
    requires forall k :: 0 <= k < |parts| ==> c !in parts[k]
    ensures Split(Join(parts, [c]), c) == parts
  {
    if |parts| == 1 {
      SplitNoSeparator(parts[0], c);
    } else {
      SplitJoin(parts[1..], c);
      SplitAfterWord(parts[0], c, Join(parts[1..], [c]));
      assert [parts[0]] + parts[1..] == parts;
    }
  }
}
