/** The commit DAG as both generations of CommitGraph see it: parent maps,
    the child map derived from them, and reachability through commits that
    are not "interesting". */
module Dag {
  import opened Builtins

  /** A commit (or tagged object) id; in practice a 40-digit hexadecimal SHA-1. */
  type Id = string

  /** Commit id -> set of ids: a parent map, a child map, or a ref map. */
  type Graph = map<Id, set<Id>>

  function Lookup(m: Graph, k: Id): set<Id>
  {
    if k in m then m[k] else {}
  }

  /** Every id that occurs as a parent of some commit. */
  function ParentIds(parents: Graph): (r: set<Id>)
    ensures forall c, p :: c in parents && p in parents[c] ==> p in r
  {
    set c, p | c in parents && p in parents[c] :: p
  }

  // ---------------------------------------------------------------------
  // The child map

  /** The commits among `among` that list `k` as a parent. */
  function ChildrenAmong(parents: Graph, among: set<Id>, k: Id): set<Id>
  {
    set c | c in among && c in parents && k in parents[c]
  }

  /** The ids `_calculate_child_mapping` gives a children entry while it walks
      the commits of `among`: each walked commit and each of its parents. */
  function Touched(parents: Graph, among: set<Id>): set<Id>
  {
    among + set c, p | c in among && c in parents && p in parents[c] :: p
  }

  /** The child map once `_calculate_child_mapping` has walked the commits of
      `among`, starting from the child map `init`. */
  function AddChildren(init: Graph, parents: Graph, among: set<Id>): Graph
  {
    map k | k in init.Keys + Touched(parents, among) :: Lookup(init, k) + ChildrenAmong(parents, among, k)
  }

  /** `children` and `parents` describe the same edges, and every commit of
      `parents` has a (possibly empty) children entry. */
  ghost predicate Transposed(parents: Graph, children: Graph)
  {
    && parents.Keys <= children.Keys
    && (forall c, p :: c in parents && p in parents[c] ==> p in children && c in children[p])
    && (forall p, c :: p in children && c in children[p] ==> c in parents && p in parents[c])
  }

  /** The child map built from an empty start: the transpose of `parents`,
      keyed by the commits and their parents and nothing else. */
  function Transpose(parents: Graph): (children: Graph)
    ensures Transposed(parents, children)
    ensures children.Keys == parents.Keys + ParentIds(parents)
  {
    AddChildren(map[], parents, parents.Keys)
  }

  /** Every parent of a commit is itself a commit of the map (true of a
      parent map read from a whole repository). */
  ghost predicate Closed(parents: Graph)
  {
    forall c, p :: c in parents && p in parents[c] ==> p in parents
  }

  lemma TransposeOfClosed(parents: Graph)
    requires Closed(parents)
    ensures Transpose(parents).Keys == parents.Keys
  {
  }

  /** One pass of the inner loop of `_calculate_child_mapping`: record `c`
      as a child of each id in `ps`, creating an empty entry first where
      there is none. */
  function AddEdges(m: Graph, c: Id, ps: set<Id>): Graph
  {
    map k | k in m.Keys + ps :: Lookup(m, k) + (if k in ps then {c} else {})
  }

  /** The `if sha_one not in self.children` step: an empty entry for `k`. */
  function EnsureKey(m: Graph, k: Id): Graph
  {
    if k in m then m else m[k := {}]
  }

  lemma AddEdgesNone(m: Graph, c: Id)
    ensures AddEdges(m, c, {}) == m
  {
    var n := AddEdges(m, c, {});
    assert n.Keys == m.Keys;
    forall k | k in n
      ensures n[k] == m[k]
    {
    }
  }

  lemma AddEdgesStep(m: Graph, c: Id, ps: set<Id>, p: Id)
    ensures AddEdges(m, c, ps + {p}) == var n := AddEdges(m, c, ps); n[p := Lookup(n, p) + {c}]
  {
    var lhs := AddEdges(m, c, ps + {p});
    var n := AddEdges(m, c, ps);
    var rhs := n[p := Lookup(n, p) + {c}];
    assert lhs.Keys == rhs.Keys;
    forall k | k in lhs
      ensures lhs[k] == rhs[k]
    {
      if k != p {
        assert rhs[k] == n[k];
      }
    }
  }

  lemma TouchedStep(parents: Graph, done: set<Id>, c: Id)
    requires c in parents
    ensures Touched(parents, done + {c}) == Touched(parents, done) + {c} + parents[c]
  {
  }

  lemma ChildrenAmongStep(parents: Graph, done: set<Id>, c: Id, k: Id)
    requires c in parents
    ensures ChildrenAmong(parents, done + {c}, k) == ChildrenAmong(parents, done, k) + (if k in parents[c] then {c} else {})
  {
  }

  lemma ChildrenAmongUntouched(parents: Graph, among: set<Id>, k: Id)
    requires k !in Touched(parents, among)
    ensures ChildrenAmong(parents, among, k) == {}
  {
  }

  lemma MapsAgree(a: Graph, b: Graph)
    requires a.Keys == b.Keys && forall k :: k in a ==> a[k] == b[k]
    ensures a == b
  {
  }

  lemma AddChildrenStepKeys(init: Graph, parents: Graph, done: set<Id>, c: Id)
    requires c in parents
    ensures AddChildren(init, parents, done + {c}).Keys
         == EnsureKey(AddEdges(AddChildren(init, parents, done), c, parents[c]), c).Keys
  {
    TouchedStep(parents, done, c);
  }

  lemma AddChildrenStepAt(init: Graph, parents: Graph, done: set<Id>, c: Id, k: Id)
    requires c in parents
    requires k in AddChildren(init, parents, done + {c})
    requires k in EnsureKey(AddEdges(AddChildren(init, parents, done), c, parents[c]), c)
    ensures AddChildren(init, parents, done + {c})[k] == EnsureKey(AddEdges(AddChildren(init, parents, done), c, parents[c]), c)[k]
  {
    if k in AddChildren(init, parents, done) {
      AddChildrenStepAtOld(init, parents, done, c, k);
    } else {
      AddChildrenStepAtNew(init, parents, done, c, k);
    }
  }

  /** An id that already had a children entry gains `c` if it is a parent of `c`. */
  lemma AddChildrenStepAtOld(init: Graph, parents: Graph, done: set<Id>, c: Id, k: Id)
    requires c in parents
    requires k in AddChildren(init, parents, done)
    requires k in AddChildren(init, parents, done + {c})
    ensures k in EnsureKey(AddEdges(AddChildren(init, parents, done), c, parents[c]), c)
    ensures AddChildren(init, parents, done + {c})[k] == EnsureKey(AddEdges(AddChildren(init, parents, done), c, parents[c]), c)[k]
  {
    ChildrenAmongStep(parents, done, c, k);
    AddChildrenStepKnown(init, parents, done, c, k);
  }

  /** An id that had no children entry yet gets one holding only `c`, or
      nothing when it is `c` itself. */
  lemma AddChildrenStepAtNew(init: Graph, parents: Graph, done: set<Id>, c: Id, k: Id)
    requires c in parents
    requires k !in AddChildren(init, parents, done)
    requires k in AddChildren(init, parents, done + {c})
    requires k in EnsureKey(AddEdges(AddChildren(init, parents, done), c, parents[c]), c)
    ensures AddChildren(init, parents, done + {c})[k] == EnsureKey(AddEdges(AddChildren(init, parents, done), c, parents[c]), c)[k]
  {
    ChildrenAmongStep(parents, done, c, k);
    ChildrenAmongUntouched(parents, done, k);
  }

  lemma AddChildrenStepKnown(init: Graph, parents: Graph, done: set<Id>, c: Id, k: Id)
    requires c in parents
    requires k in AddChildren(init, parents, done)
    ensures AddEdges(AddChildren(init, parents, done), c, parents[c])[k]
         == Lookup(init, k) + ChildrenAmong(parents, done, k) + (if k in parents[c] then {c} else {})
  {
  }

  lemma AddChildrenStep(init: Graph, parents: Graph, done: set<Id>, c: Id)
    requires c in parents
    ensures AddChildren(init, parents, done + {c}) == EnsureKey(AddEdges(AddChildren(init, parents, done), c, parents[c]), c)
  {
    var lhs := AddChildren(init, parents, done + {c});
    var rhs := EnsureKey(AddEdges(AddChildren(init, parents, done), c, parents[c]), c);
    AddChildrenStepKeys(init, parents, done, c);
    forall k | k in lhs
      ensures lhs[k] == rhs[k]
    {
      AddChildrenStepAt(init, parents, done, c, k);
    }
    MapsAgree(lhs, rhs);
  }

  lemma AddEdgesPrefix(m: Graph, c: Id, ps: seq<Id>, k: nat)
    requires k < |ps|
    ensures AddEdges(m, c, Elems(ps[..k + 1]))
         == var n := AddEdges(m, c, Elems(ps[..k])); n[ps[k] := Lookup(n, ps[k]) + {c}]
  {
    ElemsPrefixStep(ps, k);
    AddEdgesStep(m, c, Elems(ps[..k]), ps[k]);
  }

  /** The inner loop of `_calculate_child_mapping` for the commit `c`. */
  method AddChildEdges(m: Graph, c: Id, parentsOfC: set<Id>) returns (children: Graph)
    ensures children == AddEdges(m, c, parentsOfC)
  {
    var ps := ListOf(parentsOfC);
    AddEdgesNone(m, c);
    children := m;
    var k := 0;
    while k < |ps|
      invariant 0 <= k <= |ps|
      invariant children == AddEdges(m, c, Elems(ps[..k]))
    {
      var p := ps[k];
      AddEdgesPrefix(m, c, ps, k);
      // the entry for `p` is created empty when missing, then `c` is added
      children := children[p := Lookup(children, p) + {c}];
      k := k + 1;
    }
    assert ps[..k] == ps;
  }

  /** `_calculate_child_mapping`, run on the child map `init`: visit every
      commit of `parents` in some order, record it as a child of each of its
      parents, and make sure it has an entry of its own. */
  method AddChildMapping(init: Graph, parents: Graph) returns (children: Graph)
    ensures children == AddChildren(init, parents, parents.Keys)
  {
    var commits := ListOf(parents.Keys);
    children := init;
    AddChildrenNone(init, parents);
    var i := 0;
    while i < |commits|
      invariant 0 <= i <= |commits|
      invariant children == AddChildren(init, parents, Elems(commits[..i]))
    {
      var c := commits[i];
      assert c in Elems(commits);
      AddChildrenPrefix(init, parents, commits, i);
      children := AddChildEdges(children, c, parents[c]);
      if c !in children {
        children := children[c := {}];
      }
      i := i + 1;
    }
    assert commits[..i] == commits;
  }

  lemma AddChildrenNone(init: Graph, parents: Graph)
    ensures AddChildren(init, parents, Elems<Id>([][..0])) == init
  {
    var n := AddChildren(init, parents, Elems<Id>([][..0]));
    assert n.Keys == init.Keys;
    forall k | k in n
      ensures n[k] == init[k]
    {
    }
    MapsAgree(n, init);
  }

  /** One turn of the outer loop of `_calculate_child_mapping`. */
  lemma AddChildrenPrefix(init: Graph, parents: Graph, commits: seq<Id>, i: nat)
    requires i < |commits| && commits[i] in parents
    ensures AddChildren(init, parents, Elems(commits[..i + 1]))
         == EnsureKey(AddEdges(AddChildren(init, parents, Elems(commits[..i])), commits[i], parents[commits[i]]), commits[i])
  {
    ElemsPrefixStep(commits, i);
    AddChildrenStep(init, parents, Elems(commits[..i]), commits[i]);
  }

  // ---------------------------------------------------------------------
  // The child-map check

  /** `_verify_child_mapping` exactly as written: its assertions all hold and
      it never looks up a missing key. It only checks, for each parent `p`,
      that the children recorded for `p` list `p` back, and for each recorded
      child `c`, that the parents of `c` list `c` back. */
  predicate ChildMappingVerified(parents: Graph, children: Graph)
  {
    && (forall c, p | c in parents && p in parents[c] ::
          p in children && forall x | x in children[p] :: x in parents && p in parents[x])
    && (forall k, c | k in children && c in children[k] ::
          c in parents && forall p | p in parents[c] :: p in children && c in children[p])
  }

  /** The check the docstring of `_verify_child_mapping` describes: every
      parent edge is recorded as a child edge and every child edge as a parent
      edge. */
  predicate ChildMappingMirrors(parents: Graph, children: Graph)
  {
    && (forall c, p | c in parents && p in parents[c] :: p in children && c in children[p])
    && (forall p, c | p in children && c in children[p] :: c in parents && p in parents[c])
  }

  /** A freshly computed child map passes the check as written. */
  lemma TransposePassesCheck(parents: Graph)
    ensures ChildMappingVerified(parents, Transpose(parents))
  {
  }

  /** The check as written lets a lost child edge through: the edge c -> p is
      in the parent map but `p` records no child. */
  lemma CheckMissesLostChildEdge()
    ensures ChildMappingVerified(map["c" := {"p"}], map["c" := {}, "p" := {}])
    ensures !Transposed(map["c" := {"p"}], map["c" := {}, "p" := {}])
  {
    var parents: Graph := map["c" := {"p"}];
    var children: Graph := map["c" := {}, "p" := {}];
    assert "p" in parents["c"];
    assert "c" !in children["p"];
  }

  /** The corrected check accepts exactly the transposed child maps, up to
      the requirement that every commit has a children entry. */
  lemma MirrorsIsTransposed(parents: Graph, children: Graph)
    ensures Transposed(parents, children) <==> ChildMappingMirrors(parents, children) && parents.Keys <= children.Keys
  {
  }

  // ---------------------------------------------------------------------
  // Acyclicity

  /** `rank` witnesses that the parent map has no cycle: every parent is
      ranked below its child. */
  ghost predicate Ranked(parents: Graph, rank: map<Id, nat>)
  {
    forall c :: c in parents ==> c in rank && forall p :: p in parents[c] ==> p in rank && rank[p] < rank[c]
  }

  lemma RankedEdge(parents: Graph, rank: map<Id, nat>, c: Id, p: Id)
    requires Ranked(parents, rank) && c in parents && p in parents[c]
    ensures c in rank && p in rank && rank[p] < rank[c]
  {
  }

  // ---------------------------------------------------------------------
  // Reachability through uninteresting commits

  /** `path` follows parent edges, and each commit strictly inside it is
      outside `interesting`. */
  ghost predicate QuietPath(parents: Graph, interesting: set<Id>, path: seq<Id>)
  {
    && |path| >= 2
    && (forall k :: 0 <= k < |path| - 1 ==> path[k] in parents && path[k + 1] in parents[path[k]])
    && (forall k :: 0 < k < |path| - 1 ==> path[k] !in interesting)
  }

  ghost predicate QuietlyReaches(parents: Graph, interesting: set<Id>, from: Id, to: Id)
  {
    exists path :: QuietPath(parents, interesting, path) && path[0] == from && path[|path| - 1] == to
  }

  /** The interesting ancestors of `from` met first on some path: those
      reachable without passing another interesting commit. */
  ghost function NearestInteresting(parents: Graph, interesting: set<Id>, from: Id): set<Id>
  {
    set p | p in interesting && QuietlyReaches(parents, interesting, from, p)
  }

  lemma ParentIsQuietlyReached(parents: Graph, interesting: set<Id>, from: Id, p: Id)
    requires from in parents && p in parents[from]
    ensures QuietlyReaches(parents, interesting, from, p)
  {
    assert QuietPath(parents, interesting, [from, p]);
  }

  /** A quiet path can go on past an uninteresting commit. */
  lemma ExtendQuietly(parents: Graph, interesting: set<Id>, from: Id, j: Id, p: Id)
    requires QuietlyReaches(parents, interesting, from, j)
    requires j !in interesting && j in parents && p in parents[j]
    ensures QuietlyReaches(parents, interesting, from, p)
  {
    var path :| QuietPath(parents, interesting, path) && path[0] == from && path[|path| - 1] == j;
    var longer := path + [p];
    assert QuietPath(parents, interesting, longer);
  }

  /** A set that holds the parents of `from` and the parents of each of its
      uninteresting members holds everything quietly reachable from `from`. */
  lemma {:induction false} QuietReachWithin(parents: Graph, interesting: set<Id>, from: Id, within: set<Id>, x: Id)
    requires Lookup(parents, from) <= within
    requires forall y :: y in within && y !in interesting && y in parents ==> parents[y] <= within
    requires QuietlyReaches(parents, interesting, from, x)
    ensures x in within
  {
    var path :| QuietPath(parents, interesting, path) && path[0] == from && path[|path| - 1] == x;
    QuietPathWithin(parents, interesting, within, path, |path| - 1);
  }

  lemma {:induction false} QuietPathWithin(parents: Graph, interesting: set<Id>, within: set<Id>, path: seq<Id>, k: nat)
    requires QuietPath(parents, interesting, path)
    requires Lookup(parents, path[0]) <= within
    requires forall y :: y in within && y !in interesting && y in parents ==> parents[y] <= within
    requires 1 <= k < |path|
    ensures path[k] in within
  {
    if k > 1 {
      QuietPathWithin(parents, interesting, within, path, k - 1);
      assert path[k] in parents[path[k - 1]];
    } else {
      assert path[1] in parents[path[0]];
    }
  }

  /** Along a path of a ranked parent map the rank strictly falls. */
  lemma {:induction false} QuietPathDescends(parents: Graph, interesting: set<Id>, rank: map<Id, nat>, path: seq<Id>, k: nat)
    requires Ranked(parents, rank) && QuietPath(parents, interesting, path)
    requires 1 <= k < |path|
    ensures path[0] in rank && path[k] in rank && rank[path[k]] < rank[path[0]]
  {
    RankedEdge(parents, rank, path[0], path[1]);
    if k > 1 {
      QuietPathDescends(parents, interesting, rank, path, k - 1);
      RankedEdge(parents, rank, path[k - 1], path[k]);
    }
  }

  lemma QuietReachDescends(parents: Graph, interesting: set<Id>, rank: map<Id, nat>, from: Id, to: Id)
    requires Ranked(parents, rank) && QuietlyReaches(parents, interesting, from, to)
    ensures from in rank && to in rank && rank[to] < rank[from]
  {
    var path :| QuietPath(parents, interesting, path) && path[0] == from && path[|path| - 1] == to;
    QuietPathDescends(parents, interesting, rank, path, |path| - 1);
  }

  // ---------------------------------------------------------------------
  // The worklist search

  /** The search `filter` runs for one interesting commit (and step 1 of
      `_remove_non_labels` for one label): walk the parents of `commit`,
      record each interesting commit met and do not expand past it, expand
      every uninteresting one. The source walks a list that it extends while
      iterating it; here the walked prefix is dropped from the front, which
      visits the same commits in the same order. */
  method NearestInterestingParents(parents: Graph, interesting: set<Id>, commit: Id) returns (found: set<Id>)
    requires forall c, p :: c in parents && p in parents[c] && p !in interesting ==> p in parents
    ensures found == NearestInteresting(parents, interesting, commit)
  {
    var toVisit: seq<Id> := [];
    if commit in parents {
      toVisit := ListOf(parents[commit]);
    }
    ghost var reach := QuietReachSet(parents, interesting, commit);
    var seen: set<Id> := {};
    found := {};
    while toVisit != []
      invariant seen <= reach
      invariant SearchInvariant(parents, interesting, commit, reach, toVisit, seen, found)
      decreases |reach - seen|, |toVisit|
    {
      var j := toVisit[0];
      ghost var before := toVisit;
      toVisit := toVisit[1..];
      if j !in seen {
        assert j in reach by { SearchHeadReached(parents, interesting, commit, reach, before, seen, found); }
        assert reach - (seen + {j}) < reach - seen;
        if j in interesting {
          SearchRecords(parents, interesting, commit, reach, before, seen, found);
          seen := seen + {j};
          found := found + {j};
        } else {
          var more := ListOf(parents[j]);
          SearchExpands(parents, interesting, commit, reach, before, seen, found, more);
          seen := seen + {j};
          toVisit := toVisit + more;
        }
      } else {
        SearchSkips(parents, interesting, commit, reach, before, seen, found);
      }
    }
    SearchComplete(parents, interesting, commit, seen, reach);
  }

  /** What holds before each step of the search: the worklist and the seen
      set lie within the quietly reachable commits, `found` is the
      interesting part of the seen set, and every parent the search has owed
      so far is seen or still waiting. */
  ghost predicate SearchInvariant(parents: Graph, interesting: set<Id>, commit: Id, reach: set<Id>,
                                  toVisit: seq<Id>, seen: set<Id>, found: set<Id>)
  {
    && Elems(toVisit) <= reach
    && seen <= reach
    && found == seen * interesting
    && Lookup(parents, commit) <= seen + Elems(toVisit)
    && (forall x :: x in seen && x !in interesting ==> x in parents && parents[x] <= seen + Elems(toVisit))
  }

  lemma SearchHeadReached(parents: Graph, interesting: set<Id>, commit: Id, reach: set<Id>,
                          toVisit: seq<Id>, seen: set<Id>, found: set<Id>)
    requires SearchInvariant(parents, interesting, commit, reach, toVisit, seen, found)
    requires toVisit != []
    ensures toVisit[0] in reach
  {
    assert toVisit[0] in Elems(toVisit);
  }

  lemma ElemsOfTail(toVisit: seq<Id>)
    requires toVisit != []
    ensures Elems(toVisit) == {toVisit[0]} + Elems(toVisit[1..])
  {
    ElemsConcat([toVisit[0]], toVisit[1..]);
    assert [toVisit[0]] + toVisit[1..] == toVisit;
  }

  lemma SearchSkips(parents: Graph, interesting: set<Id>, commit: Id, reach: set<Id>,
                    toVisit: seq<Id>, seen: set<Id>, found: set<Id>)
    requires SearchInvariant(parents, interesting, commit, reach, toVisit, seen, found)
    requires toVisit != [] && toVisit[0] in seen
    ensures SearchInvariant(parents, interesting, commit, reach, toVisit[1..], seen, found)
  {
    ElemsOfTail(toVisit);
  }

  lemma SearchRecords(parents: Graph, interesting: set<Id>, commit: Id, reach: set<Id>,
                      toVisit: seq<Id>, seen: set<Id>, found: set<Id>)
    requires SearchInvariant(parents, interesting, commit, reach, toVisit, seen, found)
    requires toVisit != [] && toVisit[0] !in seen && toVisit[0] in interesting
    ensures SearchInvariant(parents, interesting, commit, reach, toVisit[1..], seen + {toVisit[0]}, found + {toVisit[0]})
  {
    ElemsOfTail(toVisit);
  }

  lemma SearchExpands(parents: Graph, interesting: set<Id>, commit: Id, reach: set<Id>,
                      toVisit: seq<Id>, seen: set<Id>, found: set<Id>, more: seq<Id>)
    requires SearchInvariant(parents, interesting, commit, reach, toVisit, seen, found)
    requires forall j :: j in reach && j !in interesting && j in parents ==> parents[j] <= reach
    requires forall c, p :: c in parents && p in parents[c] && p !in interesting ==> p in parents
    requires reach <= ParentIds(parents)
    requires toVisit != [] && toVisit[0] !in seen && toVisit[0] !in interesting
    requires toVisit[0] in parents && Elems(more) == parents[toVisit[0]]
    ensures SearchInvariant(parents, interesting, commit, reach, toVisit[1..] + more, seen + {toVisit[0]}, found)
  {
    var j := toVisit[0];
    ElemsOfTail(toVisit);
    ElemsConcat(toVisit[1..], more);
    assert j in reach;
  }

  /** The commits quietly reachable from `commit` that lie on parent edges:
      a finite set that holds the parents of `commit` and is closed under
      taking parents of its uninteresting members. */
  lemma QuietReachSet(parents: Graph, interesting: set<Id>, commit: Id) returns (reach: set<Id>)
    ensures Lookup(parents, commit) <= reach <= ParentIds(parents)
    ensures forall j :: j in reach && j !in interesting && j in parents ==> parents[j] <= reach
    ensures reach * interesting <= NearestInteresting(parents, interesting, commit)
  {
    reach := set x | x in ParentIds(parents) && QuietlyReaches(parents, interesting, commit, x);
    forall x | x in Lookup(parents, commit)
      ensures x in reach
    {
      ParentIsQuietlyReached(parents, interesting, commit, x);
    }
    forall j, y | j in reach && j !in interesting && j in parents && y in parents[j]
      ensures y in reach
    {
      ExtendQuietly(parents, interesting, commit, j, y);
    }
  }

  /** Once the worklist is empty, the seen set holds every interesting
      commit the search had to find, and nothing else interesting. */
  lemma SearchComplete(parents: Graph, interesting: set<Id>, commit: Id, seen: set<Id>, reach: set<Id>)
    requires seen <= reach && reach * interesting <= NearestInteresting(parents, interesting, commit)
    requires Lookup(parents, commit) <= seen
    requires forall x :: x in seen && x !in interesting ==> x in parents && parents[x] <= seen
    ensures seen * interesting == NearestInteresting(parents, interesting, commit)
  {
    forall p | p in interesting && QuietlyReaches(parents, interesting, commit, p)
      ensures p in seen
    {
      QuietReachWithin(parents, interesting, commit, seen, p);
    }
  }

  // ---------------------------------------------------------------------
  // _minimal_sha_one_digits

  /** `{e[0:d] for e in keys}`. */
  function Prefixes(keys: set<Id>, d: nat): set<string>
  {
    set e | e in keys :: Prefix(e, d)
  }

  /** No two ids share their first `d` characters. */
  ghost predicate Unambiguous(keys: set<Id>, d: nat)
  {
    forall a, b :: a in keys && b in keys && Prefix(a, d) == Prefix(b, d) ==> a == b
  }

  /** The source's test `len({e[0:d] ...}) == key_count` holds exactly when
      the `d`-character prefixes tell all ids apart. */
  lemma {:induction false} PrefixCountIsInjectivity(keys: set<Id>, d: nat)
    ensures |Prefixes(keys, d)| <= |keys|
    ensures |Prefixes(keys, d)| == |keys| <==> Unambiguous(keys, d)
    decreases |keys|
  {
    if keys != {} {
      var x :| x in keys;
      var rest := keys - {x};
      PrefixCountIsInjectivity(rest, d);
      assert Prefixes(keys, d) == Prefixes(rest, d) + {Prefix(x, d)};
      if Prefix(x, d) in Prefixes(rest, d) {
        var y :| y in rest && Prefix(y, d) == Prefix(x, d);
        assert !Unambiguous(keys, d);
      } else {
        assert |Prefixes(keys, d)| == |Prefixes(rest, d)| + 1;
        if Unambiguous(rest, d) {
          forall a, b | a in keys && b in keys && Prefix(a, d) == Prefix(b, d)
            ensures a == b
          {
            if a != x && b != x {
              assert a in rest && b in rest;
            }
          }
        }
      }
    }
  }

  /** The loop `for d in range(start, 40)` with its early return. */
  function DigitsFrom(keys: set<Id>, start: nat): (w: nat)
    requires 7 <= start <= 40
    ensures start <= w <= 40
    ensures w < 40 ==> |Prefixes(keys, w)| == |keys|
    ensures forall v :: start <= v < w ==> |Prefixes(keys, v)| != |keys|
    decreases 40 - start
  {
    if start == 40 then 40
    else if |Prefixes(keys, start)| == |keys| then start
    else DigitsFrom(keys, start + 1)
  }

  /** `_minimal_sha_one_digits`: the least width from 7 to 39 at which the
      id prefixes are all distinct, and 40 when there is none. */
  function MinimalShaOneDigits(keys: set<Id>): (w: nat)
    ensures 7 <= w <= 40
    ensures w < 40 ==> Unambiguous(keys, w)
    ensures forall v :: 7 <= v < w ==> !Unambiguous(keys, v)
  {
    var w := DigitsFrom(keys, 7);
    PrefixCountIsInjectivity(keys, w);
    assert forall v :: 7 <= v < w ==> !Unambiguous(keys, v) by {
      forall v | 7 <= v < w
        ensures !Unambiguous(keys, v)
      {
        PrefixCountIsInjectivity(keys, v);
      }
    }
    w
  }

  /** Ids of 40 characters (full SHA-1s) are told apart at the width chosen,
      including the fallback 40 that the loop never tests. */
  lemma ShaOneDigitsUnambiguous(keys: set<Id>)
    requires forall e :: e in keys ==> |e| == 40
    ensures Unambiguous(keys, MinimalShaOneDigits(keys))
  {
    var w := MinimalShaOneDigits(keys);
    if w == 40 {
      forall a, b | a in keys && b in keys && Prefix(a, 40) == Prefix(b, 40)
        ensures a == b
      {
        assert Prefix(a, 40) == a && Prefix(b, 40) == b;
      }
    }
  }
}
