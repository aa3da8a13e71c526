/** Which declarations get a schema: the roots chosen by the name filter and
    the tag filter, and everything the roots need, transitively. */
module Selection {
  import opened Declarations
  import opened Resolver

  predicate IsRoot(decls: seq<Declaration>, opts: Options, id: string)
  {
    exists d :: d in decls && Id(d) == id && opts.tagFilter(d.tags) && opts.nameFilter(id)
  }

  /** The identifiers of the declarations that pass both filters, in source order. */
  function Roots(decls: seq<Declaration>, opts: Options): (r: seq<string>)
    ensures forall id :: id in r <==> IsRoot(decls, opts, id)
  {
    if decls == [] then []
    else
      var d := decls[0];
      var rest := Roots(decls[1..], opts);
      assert forall e :: e in decls <==> e == d || e in decls[1..];
      if opts.tagFilter(d.tags) && opts.nameFilter(Id(d)) then [Id(d)] + rest else rest
  }

  /** Every declaration registered under `id` contributes its edges. */
  function EdgesFrom(decls: seq<Declaration>, all: seq<Declaration>, id: string): (r: seq<string>)
    ensures Within(r, Ids(all))
  {
    if decls == [] then []
    else
      var rest := EdgesFrom(decls[1..], all, id);
      if Id(decls[0]) == id then DependencyIds(all, decls[0]) + rest else rest
  }

  function Edges(decls: seq<Declaration>, id: string): (r: seq<string>)
    ensures Within(r, Ids(decls))
  {
    EdgesFrom(decls, decls, id)
  }

  lemma {:induction false} EdgesFromOf(decls: seq<Declaration>, all: seq<Declaration>, d: Declaration, x: string)
    requires d in decls && x in DependencyIds(all, d)
    ensures x in EdgesFrom(decls, all, Id(d))
  {
    if decls[0] != d {
      EdgesFromOf(decls[1..], all, d, x);
    }
  }

  /** A set of identifiers that contains the targets of every edge leaving it. */
  ghost predicate ClosedUnderEdges(decls: seq<Declaration>, s: set<string>)
  {
    forall id, x :: id in s && x in Edges(decls, id) ==> x in s
  }

  predicate Within(xs: seq<string>, s: set<string>)
  {
    forall k :: 0 <= k < |xs| ==> xs[k] in s
  }

  lemma WithinAppend(a: seq<string>, b: seq<string>, s: set<string>)
    requires Within(a, s) && Within(b, s)
    ensures Within(a + b, s)
  {
  }

  /** The worklist traversal: `visited` is done, `frontier` is still to visit. */
  function Closure(decls: seq<Declaration>, visited: set<string>, frontier: seq<string>): (r: set<string>)
    requires visited <= Ids(decls)
    requires Within(frontier, Ids(decls))
    ensures visited <= r <= Ids(decls)
    decreases |Ids(decls) - visited|, |frontier|
  {
    if frontier == [] then visited
    else if frontier[0] in visited then Closure(decls, visited, frontier[1..])
    else
      var id := frontier[0];
      assert Ids(decls) - (visited + {id}) < Ids(decls) - visited;
      WithinAppend(frontier[1..], Edges(decls, id), Ids(decls));
      Closure(decls, visited + {id}, frontier[1..] + Edges(decls, id))
  }

  lemma RootsWithin(decls: seq<Declaration>, opts: Options)
    ensures Within(Roots(decls, opts), Ids(decls))
  {
    var roots := Roots(decls, opts);
    forall k | 0 <= k < |roots| ensures roots[k] in Ids(decls) {
      assert IsRoot(decls, opts, roots[k]);
    }
  }

  /** The identifiers that get a schema. */
  function Needed(decls: seq<Declaration>, opts: Options): (r: set<string>)
  {
    var roots := Roots(decls, opts);
    RootsWithin(decls, opts);
    Closure(decls, {}, roots)
  }

  /** The declarations that get a schema, in source order. */
  function Select(decls: seq<Declaration>, opts: Options): (r: seq<Declaration>)
    ensures forall d :: d in r <==> d in decls && Id(d) in Needed(decls, opts)
  {
    SelectFrom(decls, Needed(decls, opts))
  }

  function SelectFrom(decls: seq<Declaration>, keep: set<string>): (r: seq<Declaration>)
    ensures forall d :: d in r <==> d in decls && Id(d) in keep
    ensures |r| <= |decls|
  {
    if decls == [] then []
    else
      var rest := SelectFrom(decls[1..], keep);
      assert forall e :: e in decls <==> e == decls[0] || e in decls[1..];
      if Id(decls[0]) in keep then [decls[0]] + rest else rest
  }

  /** `idx` places each element of `r` at a position of `decls`, with
      positions strictly increasing: `r` is `decls` with some entries dropped. */
  ghost predicate Embeds(idx: seq<nat>, r: seq<Declaration>, decls: seq<Declaration>)
  {
    |idx| == |r| &&
    (forall k :: 0 <= k < |r| ==> idx[k] < |decls| && decls[idx[k]] == r[k]) &&
    (forall k, l :: 0 <= k < l < |r| ==> idx[k] < idx[l])
  }

  ghost predicate InSourceOrder(r: seq<Declaration>, decls: seq<Declaration>)
  {
    exists idx :: Embeds(idx, r, decls)
  }

  /** An embedding into the tail, shifted by one, embeds into the whole
      sequence, with or without its head in front. */
  lemma EmbedsShift(idx0: seq<nat>, rest: seq<Declaration>, decls: seq<Declaration>)
    requires decls != [] && Embeds(idx0, rest, decls[1..])
    ensures InSourceOrder(rest, decls)
    ensures InSourceOrder([decls[0]] + rest, decls)
  {
    var shifted := seq(|idx0|, k requires 0 <= k < |idx0| => idx0[k] + 1);
    assert Embeds(shifted, rest, decls);
    var r := [decls[0]] + rest;
    var idx := [0] + shifted;
    forall k | 0 <= k < |r| ensures idx[k] < |decls| && decls[idx[k]] == r[k] {
      if k > 0 {
        assert idx[k] == shifted[k - 1] && r[k] == rest[k - 1];
      }
    }
    assert Embeds(idx, r, decls);
  }

  /** The kept declarations appear in the order they are declared. */
  lemma {:induction false} SelectFromInOrder(decls: seq<Declaration>, keep: set<string>)
    ensures InSourceOrder(SelectFrom(decls, keep), decls)
    decreases decls
  {
    if decls == [] {
      assert Embeds([], [], decls);
    } else {
      SelectFromInOrder(decls[1..], keep);
      var idx0 :| Embeds(idx0, SelectFrom(decls[1..], keep), decls[1..]);
      EmbedsShift(idx0, SelectFrom(decls[1..], keep), decls);
    }
  }

  /** The selection keeps the declarations' source order. */
  lemma SelectInOrder(decls: seq<Declaration>, opts: Options)
    ensures InSourceOrder(Select(decls, opts), decls)
  {
    SelectFromInOrder(decls, Needed(decls, opts));
  }

  // ---------------------------------------------------------------------------
  // What the selection is: the least set of identifiers that holds every root
  // and is closed under dependency edges.

  lemma {:induction false} ClosureContains(decls: seq<Declaration>, visited: set<string>, frontier: seq<string>, x: string)
    requires visited <= Ids(decls)
    requires Within(frontier, Ids(decls))
    requires x in frontier
    ensures x in Closure(decls, visited, frontier)
    decreases |Ids(decls) - visited|, |frontier|
  {
    var id := frontier[0];
    if id in visited {
      if x != id {
        ClosureContains(decls, visited, frontier[1..], x);
      }
    } else if x != id {
      assert Ids(decls) - (visited + {id}) < Ids(decls) - visited;
      var next := frontier[1..] + Edges(decls, id);
      assert x in next;
      WithinAppend(frontier[1..], Edges(decls, id), Ids(decls));
      ClosureContains(decls, visited + {id}, next, x);
    }
  }

  lemma {:induction false} ClosureIsClosed(decls: seq<Declaration>, visited: set<string>, frontier: seq<string>)
    requires visited <= Ids(decls)
    requires Within(frontier, Ids(decls))
    requires forall id, x :: id in visited && x in Edges(decls, id) ==> x in visited || x in frontier
    ensures ClosedUnderEdges(decls, Closure(decls, visited, frontier))
    decreases |Ids(decls) - visited|, |frontier|
  {
    if frontier != [] {
      var id := frontier[0];
      if id in visited {
        ClosureIsClosed(decls, visited, frontier[1..]);
      } else {
        assert Ids(decls) - (visited + {id}) < Ids(decls) - visited;
        var next := frontier[1..] + Edges(decls, id);
        forall v, x | v in visited + {id} && x in Edges(decls, v)
          ensures x in visited + {id} || x in next
        {
          if v != id && x !in visited && x != id {
            assert x in frontier;
            var k :| 0 <= k < |frontier| && frontier[k] == x;
            assert x == next[k - 1];
          }
        }
        WithinAppend(frontier[1..], Edges(decls, id), Ids(decls));
        ClosureIsClosed(decls, visited + {id}, next);
      }
    }
  }

  lemma {:induction false} ClosureIsLeast(decls: seq<Declaration>, visited: set<string>, frontier: seq<string>, s: set<string>)
    requires visited <= Ids(decls)
    requires Within(frontier, Ids(decls))
    requires visited <= s
    requires Within(frontier, s)
    requires ClosedUnderEdges(decls, s)
    ensures Closure(decls, visited, frontier) <= s
    decreases |Ids(decls) - visited|, |frontier|
  {
    if frontier != [] {
      var id := frontier[0];
      if id in visited {
        ClosureIsLeast(decls, visited, frontier[1..], s);
      } else {
        assert Ids(decls) - (visited + {id}) < Ids(decls) - visited;
        var next := frontier[1..] + Edges(decls, id);
        WithinAppend(frontier[1..], Edges(decls, id), s);
        WithinAppend(frontier[1..], Edges(decls, id), Ids(decls));
        ClosureIsLeast(decls, visited + {id}, next, s);
      }
    }
  }

  /** Every declaration that passes both filters is selected. */
  lemma RootsAreNeeded(decls: seq<Declaration>, opts: Options, d: Declaration)
    requires d in decls && opts.tagFilter(d.tags) && opts.nameFilter(Id(d))
    ensures d in Select(decls, opts)
  {
    var roots := Roots(decls, opts);
    assert IsRoot(decls, opts, Id(d));
    RootsWithin(decls, opts);
    ClosureContains(decls, {}, roots, Id(d));
  }

  /** Whatever a selected declaration refers to is selected as well. */
  lemma NeededIsClosed(decls: seq<Declaration>, opts: Options)
    ensures ClosedUnderEdges(decls, Needed(decls, opts))
  {
    var roots := Roots(decls, opts);
    RootsWithin(decls, opts);
    ClosureIsClosed(decls, {}, roots);
  }

  /** Nothing else is selected: any set holding the roots and closed under the
      edges holds every selected identifier. A declaration that fails the
      filters and that no selected declaration needs is dropped. */
  lemma NeededIsLeast(decls: seq<Declaration>, opts: Options, s: set<string>)
    requires forall id :: IsRoot(decls, opts, id) ==> id in s
    requires ClosedUnderEdges(decls, s)
    ensures Needed(decls, opts) <= s
  {
    var roots := Roots(decls, opts);
    RootsWithin(decls, opts);
    ClosureIsLeast(decls, {}, roots, s);
  }

  /** A selected declaration's dependencies are declarations that are selected too. */
  lemma SelectedDependenciesSelected(decls: seq<Declaration>, opts: Options, d: Declaration, x: string)
    requires d in Select(decls, opts)
    requires x in DependencyIds(decls, d)
    ensures exists e :: e in Select(decls, opts) && Id(e) == x
  {
    var needed := Needed(decls, opts);
    assert Id(d) in needed;
    NeededIsClosed(decls, opts);
    EdgesFromOf(decls, decls, d, x);
    assert x in Edges(decls, Id(d));
    assert x in needed;
    var k :| 0 <= k < |DependencyIds(decls, d)| && DependencyIds(decls, d)[k] == x;
    assert x in Ids(decls);
    var e :| e in decls && Id(e) == x;
    assert e in Select(decls, opts);
  }

  lemma {:induction false} SelectFromAll(decls: seq<Declaration>, keep: set<string>)
    requires forall d :: d in decls ==> Id(d) in keep
    ensures SelectFrom(decls, keep) == decls
  {
    if decls != [] {
      assert decls[0] in decls;
      SelectFromAll(decls[1..], keep);
    }
  }

  /** When every declaration passes both filters, as with the default options,
      every declaration is selected, in source order. */
  lemma SelectAll(decls: seq<Declaration>, opts: Options)
    requires forall d :: d in decls ==> opts.tagFilter(d.tags) && opts.nameFilter(Id(d))
    ensures Select(decls, opts) == decls
  {
    forall d | d in decls ensures Id(d) in Needed(decls, opts) {
      RootsAreNeeded(decls, opts, d);
    }
    SelectFromAll(decls, Needed(decls, opts));
  }
}
