/** The older `CommitGraph` of `git_big_picture/main.py`, with its two
    reduction passes: `_remove_non_labels`, which keeps only labelled
    commits and the transitive reduction of the order between them, and
    `_remove_linear_runs`, which collapses chains of unlabelled commits
    into a `...` node. */
module Legacy {
  import opened Builtins
  import opened Dag
  import opened CommitGraphs

  // ---------------------------------------------------------------------
  // _remove_non_labels, step 2: the labels above each label

  /** The step-1 map `r` (label -> labels reachable through unlabelled
      commits) is a DAG: every target is a key and `rank` descends. */
  ghost predicate LabelDag(r: Graph, rank: map<Id, nat>)
  {
    Closed(r) && Ranked(r, rank)
  }

  /** What step 2 stores in `seen_commits[l]`: every label reachable from
      `l` over one or more step-1 edges. */
  ghost function Reached(r: Graph, rank: map<Id, nat>, l: Id): (above: set<Id>)
    requires LabelDag(r, rank) && l in r
    ensures above <= r.Keys
    decreases rank[l]
  {
    set p, q | p in r[l] && q in Reached(r, rank, p) + {p} :: q
  }

  /** The labels reached over one or more step-1 edges from some label of
      `from`, each one included. */
  ghost function Via(r: Graph, rank: map<Id, nat>, from: set<Id>): set<Id>
    requires LabelDag(r, rank) && from <= r.Keys
  {
    set p, q | p in from && q in Reached(r, rank, p) + {p} :: q
  }

  lemma ReachedUnfold(r: Graph, rank: map<Id, nat>, l: Id)
    requires LabelDag(r, rank) && l in r
    ensures Reached(r, rank, l) == Via(r, rank, r[l])
  {
  }

  lemma ViaEmpty(r: Graph, rank: map<Id, nat>)
    requires LabelDag(r, rank)
    ensures Via(r, rank, {}) == {}
  {
  }

  lemma ViaStep(r: Graph, rank: map<Id, nat>, from: set<Id>, p: Id)
    requires LabelDag(r, rank) && from <= r.Keys && p in r
    ensures Via(r, rank, from + {p}) == Via(r, rank, from) + Reached(r, rank, p) + {p}
  {
    forall q | q in Via(r, rank, from + {p})
      ensures q in Via(r, rank, from) + Reached(r, rank, p) + {p}
    {
      var p0 :| p0 in from + {p} && q in Reached(r, rank, p0) + {p0};
    }
    forall q | q in Reached(r, rank, p) + {p}
      ensures q in Via(r, rank, from + {p})
    {
      assert p in from + {p};
    }
  }

  /** Every label reached lies strictly below: in particular a label never
      reaches itself. */
  lemma {:induction false} ReachedBelow(r: Graph, rank: map<Id, nat>, l: Id, q: Id)
    requires LabelDag(r, rank) && l in r && q in Reached(r, rank, l)
    ensures q in r && q in rank && l in rank && rank[q] < rank[l]
    decreases rank[l]
  {
    var p :| p in r[l] && q in Reached(r, rank, p) + {p};
    if q != p {
      ReachedBelow(r, rank, p, q);
    }
  }

  /** `Reached` is transitive: it is the transitive closure of step 1. */
  lemma {:induction false} ReachedTransitive(r: Graph, rank: map<Id, nat>, l: Id, p: Id, q: Id)
    requires LabelDag(r, rank) && l in r
    requires p in Reached(r, rank, l)
    requires p in r && q in Reached(r, rank, p)
    ensures q in Reached(r, rank, l)
    decreases rank[l]
  {
    var p0 :| p0 in r[l] && p in Reached(r, rank, p0) + {p0};
    if p != p0 {
      ReachedTransitive(r, rank, p0, p, q);
    }
    assert q in Reached(r, rank, p0) + {p0};
  }

  /** What step 3 leaves in `seen_commits[l]`: the labels above `l` that
      no other label above `l` reaches. */
  ghost function Direct(r: Graph, rank: map<Id, nat>, l: Id): set<Id>
    requires LabelDag(r, rank) && l in r
  {
    set x | x in Reached(r, rank, l) && forall z :: z in Reached(r, rank, l) ==> x !in Reached(r, rank, z)
  }

  /** A label `x` above `z` is a direct successor of `z` itself or of some
      label above `z`. */
  lemma {:induction false} DirectWitness(r: Graph, rank: map<Id, nat>, z: Id, x: Id) returns (y: Id)
    requires LabelDag(r, rank) && z in r && x in Reached(r, rank, z)
    ensures y == z || y in Reached(r, rank, z)
    ensures y in r && x in Direct(r, rank, y)
    decreases rank[z]
  {
    if x in Direct(r, rank, z) {
      y := z;
    } else {
      var w :| w in Reached(r, rank, z) && x in Reached(r, rank, w);
      ReachedBelow(r, rank, z, w);
      y := DirectWitness(r, rank, w, x);
      if y != w {
        ReachedTransitive(r, rank, z, w, y);
      }
    }
  }

  /** The reduction keeps reachability: every label above `l` is a direct
      successor of `l` or above one. */
  lemma {:induction false} DirectKeepsReach(r: Graph, rank: map<Id, nat>, l: Id, x: Id) returns (y: Id)
    requires LabelDag(r, rank) && l in r && x in Reached(r, rank, l)
    ensures y in Direct(r, rank, l)
    ensures y == x || (y in r && x in Reached(r, rank, y))
    decreases if l in rank && x in rank && rank[x] < rank[l] then rank[l] - rank[x] else 0
  {
    ReachedBelow(r, rank, l, x);
    if x in Direct(r, rank, l) {
      y := x;
    } else {
      var w :| w in Reached(r, rank, l) && x in Reached(r, rank, w);
      ReachedBelow(r, rank, l, w);
      ReachedBelow(r, rank, w, x);
      y := DirectKeepsReach(r, rank, l, w);
      if y != w {
        ReachedTransitive(r, rank, y, w, x);
      }
    }
  }

  /** The labels `cur` lists under the labels of `from`. */
  function Removed(cur: Graph, from: set<Id>): set<Id>
  {
    set z, x | z in from && z in cur && x in cur[z] :: x
  }

  /** What step 3 may find under a label `z` above `l`: its list reduced
      already, or not yet, or anything in between. */
  ghost predicate BetweenDirectAndReached(r: Graph, rank: map<Id, nat>, cur: Graph, l: Id)
    requires LabelDag(r, rank) && l in r
  {
    forall z :: z in Reached(r, rank, l) ==> z in cur && Direct(r, rank, z) <= cur[z] <= Reached(r, rank, z)
  }

  /** A label above `l` that another label above `l` reaches is listed
      under some label above `l`, so step 3 removes it. */
  lemma StepThreeRemovesIndirect(r: Graph, rank: map<Id, nat>, cur: Graph, l: Id, z: Id, x: Id)
    requires LabelDag(r, rank) && l in r && BetweenDirectAndReached(r, rank, cur, l)
    requires z in Reached(r, rank, l) && x in Reached(r, rank, z)
    ensures x in Removed(cur, Reached(r, rank, l))
  {
    var y := DirectWitness(r, rank, z, x);
    if y != z {
      ReachedTransitive(r, rank, l, z, y);
    }
    assert y in Reached(r, rank, l) && y in cur && x in cur[y];
  }

  /** A direct successor of `l` is listed under no label above `l`. */
  lemma StepThreeKeepsDirect(r: Graph, rank: map<Id, nat>, cur: Graph, l: Id, x: Id)
    requires LabelDag(r, rank) && l in r && BetweenDirectAndReached(r, rank, cur, l)
    requires x in Direct(r, rank, l)
    ensures x !in Removed(cur, Reached(r, rank, l))
  {
  }

  /** Step 3 for one label: whatever state the other labels are in
      (reduced already or not yet), removing from `Reached(l)` everything
      listed under a label of `Reached(l)` leaves `Direct(l)`. */
  lemma StepThreeReduces(r: Graph, rank: map<Id, nat>, cur: Graph, l: Id)
    requires LabelDag(r, rank) && l in r && BetweenDirectAndReached(r, rank, cur, l)
    ensures Reached(r, rank, l) - Removed(cur, Reached(r, rank, l)) == Direct(r, rank, l)
  {
    var above := Reached(r, rank, l);
    forall x | x in above - Removed(cur, above)
      ensures x in Direct(r, rank, l)
    {
      forall z | z in above
        ensures x !in Reached(r, rank, z)
      {
        if x in Reached(r, rank, z) {
          StepThreeRemovesIndirect(r, rank, cur, l, z, x);
        }
      }
    }
    forall x | x in Direct(r, rank, l)
      ensures x !in Removed(cur, above)
    {
      StepThreeKeepsDirect(r, rank, cur, l, x);
    }
  }

  // ---------------------------------------------------------------------
  // _remove_non_labels, the methods

  /** `seen` holds finished entries only: each key is a label and maps to
      everything above it. */
  ghost predicate Memo(r: Graph, rank: map<Id, nat>, seen: Graph)
  {
    LabelDag(r, rank) && seen.Keys <= r.Keys && forall k :: k in seen ==> seen[k] == Reached(r, rank, k)
  }

  lemma MemoAdd(r: Graph, rank: map<Id, nat>, seen: Graph, k: Id, v: set<Id>)
    requires Memo(r, rank, seen) && k in r && v == Reached(r, rank, k)
    ensures Memo(r, rank, seen[k := v])
  {
  }

  /** `recurse`: the labels above `commit` together with `commit`, filling
      the memo `seen` (the source's `out_seen_commits`, updated in place,
      here passed in and handed back). */
  method Recurse(commit: Id, r: Graph, ghost rank: map<Id, nat>, seen: Graph)
    returns (allParents: set<Id>, outSeen: Graph)
    requires LabelDag(r, rank) && commit in r && Memo(r, rank, seen)
    ensures Memo(r, rank, outSeen) && seen.Keys <= outSeen.Keys && commit in outSeen
    ensures allParents == Reached(r, rank, commit) + {commit}
    decreases rank[commit]
  {
    allParents := {};
    if commit in seen {
      allParents := seen[commit];
      outSeen := seen;
    } else if |r[commit]| == 0 {
      ReachedUnfold(r, rank, commit);
      ViaEmpty(r, rank);
      MemoAdd(r, rank, seen, commit, allParents);
      outSeen := seen[commit := allParents];
    } else {
      outSeen := seen;
      var ps := ListOf(r[commit]);
      ViaEmpty(r, rank);
      for i := 0 to |ps|
        invariant Memo(r, rank, outSeen) && seen.Keys <= outSeen.Keys
        invariant Elems(ps[..i]) <= r.Keys
        invariant allParents == Via(r, rank, Elems(ps[..i]))
      {
        RankedEdge(r, rank, commit, ps[i]);
        var sub;
        sub, outSeen := Recurse(ps[i], r, rank, outSeen);
        ElemsPrefixStep(ps, i);
        ViaStep(r, rank, Elems(ps[..i]), ps[i]);
        allParents := allParents + sub;
      }
      assert ps[..|ps|] == ps;
      ReachedUnfold(r, rank, commit);
      MemoAdd(r, rank, outSeen, commit, allParents);
      outSeen := outSeen[commit := allParents];
    }
    allParents := allParents + {commit};
  }

  /** The inner loop of step 3: remove from `s` each member of `drop` that
      it holds. */
  method RemoveEach(s: set<Id>, drop: set<Id>) returns (t: set<Id>)
    ensures t == s - drop
  {
    t := s;
    var xs := ListOf(drop);
    for k := 0 to |xs|
      invariant t == s - Elems(xs[..k])
    {
      ElemsPrefixStep(xs, k);
      if xs[k] in t {
        t := t - {xs[k]};
      }
    }
    assert xs[..|xs|] == xs;
  }

  /** `Removed` grows one label at a time. */
  lemma RemovedStep(cur: Graph, from: set<Id>, z: Id)
    requires z in cur
    ensures Removed(cur, from + {z}) == Removed(cur, from) + cur[z]
  {
  }

  /** The middle loop of step 3 for label `l`: for each label listed under
      `l` (a copy of the list), drop from `l`'s list what is listed under
      that label. Only `l`'s entry changes. */
  method ReduceLabel(cur: Graph, l: Id) returns (next: Graph)
    requires l in cur && cur[l] <= cur.Keys && l !in cur[l]
    ensures next.Keys == cur.Keys
    ensures next[l] == cur[l] - Removed(cur, cur[l])
    ensures forall k :: k in cur && k != l ==> next[k] == cur[k]
  {
    next := cur;
    var ps := ListOf(cur[l]);
    assert Removed(cur, Elems(ps[..0])) == {};
    for j := 0 to |ps|
      invariant next.Keys == cur.Keys
      invariant next[l] == cur[l] - Removed(cur, Elems(ps[..j]))
      invariant forall k :: k in cur && k != l ==> next[k] == cur[k]
    {
      ElemsPrefixStep(ps, j);
      RemovedStep(cur, Elems(ps[..j]), ps[j]);
      var reduced := RemoveEach(next[l], next[ps[j]]);
      next := next[l := reduced];
    }
    assert ps[..|ps|] == ps;
  }

  /** `ReachedBelow` at `q == l`. */
  lemma ReachedIrreflexive(r: Graph, rank: map<Id, nat>, l: Id)
    requires LabelDag(r, rank) && l in r
    ensures l !in Reached(r, rank, l)
  {
    if l in Reached(r, rank, l) {
      ReachedBelow(r, rank, l, l);
    }
  }

  /** Step 1's map: each label to the labels met first below it. */
  ghost function StepOne(parents: Graph, labels: set<Id>): Graph
  {
    map l | l in labels :: NearestInteresting(parents, labels, l)
  }

  /** A rank for the labels: a label that is no commit (a tag on a tree or
      blob) has no parents and gets 0. */
  ghost function LabelRank(rank: map<Id, nat>, labels: set<Id>): map<Id, nat>
  {
    map l | l in labels :: if l in rank then rank[l] else 0
  }

  /** Step 1 of an acyclic parent map gives an acyclic label map whose
      targets are labels. */
  lemma StepOneIsDag(parents: Graph, labels: set<Id>, rank: map<Id, nat>)
    requires Ranked(parents, rank)
    ensures LabelDag(StepOne(parents, labels), LabelRank(rank, labels))
  {
    var r := StepOne(parents, labels);
    forall l, p | l in r && p in r[l]
      ensures p in r && LabelRank(rank, labels)[p] < LabelRank(rank, labels)[l]
    {
      QuietReachDescends(parents, labels, rank, l, p);
    }
  }

  /** Step 2's result: every label to the labels above it. */
  ghost function AllReached(r: Graph, rank: map<Id, nat>): Graph
    requires LabelDag(r, rank)
  {
    map l | l in r :: Reached(r, rank, l)
  }

  /** Step 3's result: every label to its direct successors. */
  ghost function AllDirect(r: Graph, rank: map<Id, nat>): Graph
    requires LabelDag(r, rank)
  {
    map l | l in r :: Direct(r, rank, l)
  }

  /** The parent map `_remove_non_labels` leaves: the labels, each with
      the transitive reduction of the labels above it. */
  ghost function LabelReduction(parents: Graph, labels: set<Id>, rank: map<Id, nat>): Graph
    requires Ranked(parents, rank)
  {
    StepOneIsDag(parents, labels, rank);
    AllDirect(StepOne(parents, labels), LabelRank(rank, labels))
  }

  /** Step 1: for each label, in the order branches then tags, search the
      parents for the labels met first, not walking past any label. */
  method ReachableLabeledParents(parents: Graph, labelOrder: seq<Id>, labels: set<Id>) returns (reachable: Graph)
    requires Elems(labelOrder) == labels
    requires forall c, p :: c in parents && p in parents[c] && p !in labels ==> p in parents
    ensures reachable == StepOne(parents, labels)
  {
    reachable := map[];
    for i := 0 to |labelOrder|
      invariant reachable.Keys == Elems(labelOrder[..i])
      invariant forall l :: l in reachable ==> reachable[l] == NearestInteresting(parents, labels, l)
    {
      var found := NearestInterestingParents(parents, labels, labelOrder[i]);
      ElemsPrefixStep(labelOrder, i);
      reachable := reachable[labelOrder[i] := found];
    }
    assert labelOrder[..|labelOrder|] == labelOrder;
    MapsAgree(reachable, StepOne(parents, labels));
  }

  /** Step 2: run `recurse` from every label, sharing the memo. */
  method SeenCommits(r: Graph, ghost rank: map<Id, nat>, labelOrder: seq<Id>) returns (seen: Graph)
    requires LabelDag(r, rank) && Elems(labelOrder) == r.Keys
    ensures seen == AllReached(r, rank)
  {
    seen := map[];
    for i := 0 to |labelOrder|
      invariant Memo(r, rank, seen) && Elems(labelOrder[..i]) <= seen.Keys
    {
      ElemsPrefixStep(labelOrder, i);
      var above;
      above, seen := Recurse(labelOrder[i], r, rank, seen);
    }
    assert labelOrder[..|labelOrder|] == labelOrder;
    MapsAgree(seen, AllReached(r, rank));
  }

  /** What holds between the labels of step 3: the labels of `done` are
      reduced, the others untouched. */
  ghost predicate ReductionInvariant(r: Graph, rank: map<Id, nat>, cur: Graph, done: set<Id>)
    requires LabelDag(r, rank)
  {
    && cur.Keys == r.Keys
    && (forall k :: k in cur && k !in done ==> cur[k] == Reached(r, rank, k))
    && (forall k :: k in cur && k in done ==> cur[k] == Direct(r, rank, k))
  }

  lemma ReductionInvariantBetween(r: Graph, rank: map<Id, nat>, cur: Graph, done: set<Id>, l: Id)
    requires LabelDag(r, rank) && ReductionInvariant(r, rank, cur, done) && l in r
    ensures BetweenDirectAndReached(r, rank, cur, l)
  {
  }

  lemma ReductionStep(r: Graph, rank: map<Id, nat>, cur: Graph, done: set<Id>, l: Id, next: Graph)
    requires LabelDag(r, rank) && ReductionInvariant(r, rank, cur, done) && l in r
    requires next.Keys == cur.Keys && next[l] == Direct(r, rank, l)
    requires forall k :: k in cur && k != l ==> next[k] == cur[k]
    ensures ReductionInvariant(r, rank, next, done + {l})
  {
  }

  /** Step 3: for each label, in place, drop the labels listed under the
      labels it lists. */
  method ReduceAll(r: Graph, ghost rank: map<Id, nat>, seen: Graph) returns (cur: Graph)
    requires LabelDag(r, rank) && seen == AllReached(r, rank)
    ensures cur == AllDirect(r, rank)
  {
    var keys := ListOf(seen.Keys);
    cur := seen;
    for i := 0 to |keys|
      invariant ReductionInvariant(r, rank, cur, Elems(keys[..i]))
    {
      var l := keys[i];
      assert l in r by { assert l in Elems(keys); }
      DistinctFresh(keys, i);
      ReductionInvariantBetween(r, rank, cur, Elems(keys[..i]), l);
      StepThreeReduces(r, rank, cur, l);
      ReachedIrreflexive(r, rank, l);
      var next := ReduceLabel(cur, l);
      ReductionStep(r, rank, cur, Elems(keys[..i]), l, next);
      cur := next;
      ElemsPrefixStep(keys, i);
    }
    assert keys[..|keys|] == keys;
    MapsAgree(cur, AllDirect(r, rank));
  }

  /** The labels above label `l` once steps 1 and 2 have run. */
  ghost function LabelsAbove(parents: Graph, labels: set<Id>, rank: map<Id, nat>, l: Id): set<Id>
    requires Ranked(parents, rank) && l in labels
  {
    StepOneIsDag(parents, labels, rank);
    Reached(StepOne(parents, labels), LabelRank(rank, labels), l)
  }

  /** `to` is an ancestor of `from` in the parent map (one step or more). */
  ghost predicate Ancestor(parents: Graph, from: Id, to: Id)
  {
    QuietlyReaches(parents, {}, from, to)
  }

  lemma QuietPathIsPath(parents: Graph, interesting: set<Id>, path: seq<Id>)
    requires QuietPath(parents, interesting, path)
    ensures QuietPath(parents, {}, path)
  {
  }

  lemma PathConcat(parents: Graph, a: seq<Id>, b: seq<Id>)
    requires QuietPath(parents, {}, a) && QuietPath(parents, {}, b) && a[|a| - 1] == b[0]
    ensures QuietPath(parents, {}, a + b[1..])
  {
    var c := a + b[1..];
    forall k | 0 <= k < |c| - 1
      ensures c[k] in parents && c[k + 1] in parents[c[k]]
    {
      if k < |a| - 1 {
        assert c[k] == a[k] && c[k + 1] == a[k + 1];
      } else {
        assert c[k] == b[k - |a| + 1] && c[k + 1] == b[k - |a| + 2];
      }
    }
  }

  lemma AncestorTransitive(parents: Graph, a: Id, b: Id, c: Id)
    requires Ancestor(parents, a, b) && Ancestor(parents, b, c)
    ensures Ancestor(parents, a, c)
  {
    var p :| QuietPath(parents, {}, p) && p[0] == a && p[|p| - 1] == b;
    var q :| QuietPath(parents, {}, q) && q[0] == b && q[|q| - 1] == c;
    PathConcat(parents, p, q);
    assert (p + q[1..])[0] == a && (p + q[1..])[|p + q[1..]| - 1] == c;
  }

  /** Over a label DAG whose every edge is an ancestry, every label above
      `l` is an ancestor of `l`. */
  lemma {:induction false} ReachedAlongAncestry(parents: Graph, r: Graph, rank: map<Id, nat>, l: Id, x: Id)
    requires LabelDag(r, rank) && l in r && x in Reached(r, rank, l)
    requires forall a, b :: a in r && b in r[a] ==> Ancestor(parents, a, b)
    ensures Ancestor(parents, l, x)
    decreases rank[l]
  {
    var p :| p in r[l] && x in Reached(r, rank, p) + {p};
    if x != p {
      RankedEdge(r, rank, l, p);
      ReachedAlongAncestry(parents, r, rank, p, x);
      AncestorTransitive(parents, l, p, x);
    }
  }

  /** Every label above `l` is an ancestor of `l`. */
  lemma ReachedIsAncestor(parents: Graph, labels: set<Id>, rank: map<Id, nat>, l: Id, x: Id)
    requires Ranked(parents, rank) && LabelDag(StepOne(parents, labels), LabelRank(rank, labels))
    requires l in labels && x in Reached(StepOne(parents, labels), LabelRank(rank, labels), l)
    ensures Ancestor(parents, l, x)
  {
    var r := StepOne(parents, labels);
    forall a, b | a in r && b in r[a]
      ensures Ancestor(parents, a, b)
    {
      var path :| QuietPath(parents, labels, path) && path[0] == a && path[|path| - 1] == b;
      QuietPathIsPath(parents, labels, path);
    }
    ReachedAlongAncestry(parents, r, LabelRank(rank, labels), l, x);
  }

  /** A path from label `path[0]` to label `path[|path|-1]` whose commits
      `path[1..k]` are unlabelled: its last label is above its first. */
  lemma {:induction false} PathToLabelIsReached(parents: Graph, labels: set<Id>, rank: map<Id, nat>, path: seq<Id>, k: nat)
    requires Ranked(parents, rank) && LabelDag(StepOne(parents, labels), LabelRank(rank, labels))
    requires QuietPath(parents, {}, path) && path[0] in labels && path[|path| - 1] in labels
    requires 1 <= k < |path| && forall j :: 0 < j < k ==> path[j] !in labels
    ensures path[|path| - 1] in Reached(StepOne(parents, labels), LabelRank(rank, labels), path[0])
    decreases |path|, |path| - k
  {
    var r := StepOne(parents, labels);
    var lr := LabelRank(rank, labels);
    if path[k] in labels {
      assert QuietPath(parents, labels, path[..k + 1]);
      assert path[k] in r[path[0]];
      if k < |path| - 1 {
        var rest := path[k..];
        assert QuietPath(parents, {}, rest);
        assert rest[0] == path[k] && rest[|rest| - 1] == path[|path| - 1];
        PathToLabelIsReached(parents, labels, rank, rest, 1);
        assert path[|path| - 1] in Reached(r, lr, path[k]);
      }
      assert path[|path| - 1] in Reached(r, lr, path[k]) + {path[k]};
    } else {
      PathToLabelIsReached(parents, labels, rank, path, k + 1);
    }
  }

  /** Steps 1 and 2 find, for each label, exactly the labels that are its
      ancestors in the parent map. */
  lemma LabelsAboveAreAncestors(parents: Graph, labels: set<Id>, rank: map<Id, nat>, l: Id)
    requires Ranked(parents, rank) && l in labels
    ensures LabelsAbove(parents, labels, rank, l) == set x | x in labels && Ancestor(parents, l, x)
  {
    StepOneIsDag(parents, labels, rank);
    var r := StepOne(parents, labels);
    var lr := LabelRank(rank, labels);
    forall x | x in Reached(r, lr, l)
      ensures x in labels && Ancestor(parents, l, x)
    {
      ReachedIsAncestor(parents, labels, rank, l, x);
    }
    forall x | x in labels && Ancestor(parents, l, x)
      ensures x in Reached(r, lr, l)
    {
      var path :| QuietPath(parents, {}, path) && path[0] == l && path[|path| - 1] == x;
      PathToLabelIsReached(parents, labels, rank, path, 1);
    }
  }

  /** The result of `_remove_non_labels`: exactly the labels are commits,
      and each label keeps those labels above it that no other label above
      it reaches, so no parent is also a grand-parent. */
  lemma LabelReductionIsTransitiveReduction(parents: Graph, labels: set<Id>, rank: map<Id, nat>, l: Id, x: Id)
    requires Ranked(parents, rank)
    ensures LabelReduction(parents, labels, rank).Keys == labels
    ensures l in labels && x in LabelReduction(parents, labels, rank)[l] <==>
              l in labels && x in LabelsAbove(parents, labels, rank, l)
              && forall z :: z in LabelsAbove(parents, labels, rank, l) ==> x !in LabelsAbove(parents, labels, rank, z)
  {
    StepOneIsDag(parents, labels, rank);
  }

  /** The reduction loses no reachability: every label above `l` is kept
      as a parent of `l` or lies above a kept one. */
  lemma LabelReductionKeepsReach(parents: Graph, labels: set<Id>, rank: map<Id, nat>, l: Id, x: Id)
    returns (y: Id)
    requires Ranked(parents, rank) && l in labels && x in LabelsAbove(parents, labels, rank, l)
    ensures l in LabelReduction(parents, labels, rank) && y in LabelReduction(parents, labels, rank)[l]
    ensures y == x || (y in labels && x in LabelsAbove(parents, labels, rank, y))
  {
    StepOneIsDag(parents, labels, rank);
    y := DirectKeepsReach(StepOne(parents, labels), LabelRank(rank, labels), l, x);
  }

  // ---------------------------------------------------------------------
  // _remove_linear_runs

  /** The parent and child maps describe the same edges over the same
      commits, and every parent is a commit. */
  ghost predicate Linked(parents: Graph, children: Graph)
  {
    Transposed(parents, children) && children.Keys == parents.Keys && Closed(parents)
  }

  /** A walk of `_remove_linear_runs` so far: `path[0]` is the commit the
      walk started from, `path[1]` its parent, and every commit strictly
      inside the path (from `path[1]` on) is unlabelled with exactly one
      child and exactly one parent, the next commit of the path. Ranks
      descend along the path. */
  ghost predicate Chain(parents: Graph, children: Graph, labels: set<Id>, rank: map<Id, nat>, path: seq<Id>)
  {
    && |path| >= 2
    && (forall k :: 0 <= k < |path| ==> path[k] in parents && path[k] in children && path[k] in rank)
    && path[1] in parents[path[0]]
    && (forall k :: 1 <= k < |path| - 1 ==>
          parents[path[k]] == {path[k + 1]} && |children[path[k]]| == 1 && path[k] !in labels)
    && (forall i, j :: 0 <= i < j < |path| ==> rank[path[j]] < rank[path[i]])
  }

  /** A walk that collapses something: at least one commit to delete. */
  ghost predicate Run(parents: Graph, children: Graph, labels: set<Id>, rank: map<Id, nat>, path: seq<Id>)
  {
    |path| >= 3 && Chain(parents, children, labels, rank, path)
  }

  /** The walk goes one step further through a linear commit. */
  lemma ChainSnoc(parents: Graph, children: Graph, labels: set<Id>, rank: map<Id, nat>, path: seq<Id>, next: Id)
    requires Closed(parents) && Ranked(parents, rank) && children.Keys == parents.Keys
    requires Chain(parents, children, labels, rank, path)
    requires parents[path[|path| - 1]] == {next}
    requires |children[path[|path| - 1]]| == 1 && path[|path| - 1] !in labels
    ensures Chain(parents, children, labels, rank, path + [next])
  {
    var last := path[|path| - 1];
    RankedEdge(parents, rank, last, next);
    var path' := path + [next];
    forall i, j | 0 <= i < j < |path'|
      ensures rank[path'[j]] < rank[path'[i]]
    {
      if j == |path| && i < |path| - 1 {
        assert rank[path[|path| - 1]] < rank[path[i]];
      }
    }
  }

  /** The commits the collapse deletes: `path[2..-1]`. */
  function Interior(path: seq<Id>): set<Id>
  {
    set k | 2 <= k < |path| - 1 :: path[k]
  }

  /** The parent map after the collapse: `path[1]` points at the last
      commit of the path, and the interior is deleted. */
  function CollapseParents(parents: Graph, path: seq<Id>): Graph
    requires |path| >= 3 && path[1] in parents
  {
    var c := path[1];
    parents[c := parents[c] - {path[2]} + {path[|path| - 1]}] - Interior(path)
  }

  /** The child map after the collapse: the last commit of the path has
      `path[1]` as a child instead of `path[-2]`, and the interior is
      deleted. */
  function CollapseChildren(children: Graph, path: seq<Id>): Graph
    requires |path| >= 3 && path[|path| - 1] in children
  {
    var e := path[|path| - 1];
    children[e := children[e] - {path[|path| - 2]} + {path[1]}] - Interior(path)
  }

  /** The single child of an interior commit is the previous commit of
      the path. */
  lemma RunChild(parents: Graph, children: Graph, labels: set<Id>, rank: map<Id, nat>, path: seq<Id>, k: nat)
    requires Linked(parents, children) && Run(parents, children, labels, rank, path)
    requires 1 <= k < |path| - 1
    ensures children[path[k]] == {path[k - 1]}
  {
    assert path[k] in parents[path[k - 1]];
    assert path[k - 1] in children[path[k]];
    SingletonOf(children[path[k]], path[k - 1]);
  }

  lemma SingletonOf(s: set<Id>, x: Id)
    requires |s| == 1 && x in s
    ensures s == {x}
  {
    var rest := s - {x};
    assert s == rest + {x};
    assert |s| == |rest| + 1;
    assert rest == {};
  }

  /** Where an interior commit sits on the path. */
  lemma InteriorAt(path: seq<Id>, x: Id) returns (k: nat)
    requires x in Interior(path)
    ensures 2 <= k < |path| - 1 && path[k] == x
  {
    var j :| 2 <= j < |path| - 1 && path[j] == x;
    k := j;
  }

  /** An edge between commits that survive the collapse, other than the
      rewired one, is an edge before and after. */
  lemma CollapseForward(parents: Graph, children: Graph, labels: set<Id>, rank: map<Id, nat>, path: seq<Id>, x: Id, y: Id)
    requires Linked(parents, children) && Run(parents, children, labels, rank, path)
    requires x in CollapseParents(parents, path) && y in CollapseParents(parents, path)[x]
    ensures y in CollapseChildren(children, path) && x in CollapseChildren(children, path)[y]
  {
    var n := |path|;
    var c, e := path[1], path[n - 1];
    if x == c {
      assert parents[c] == {path[2]};
    } else {
      assert y in parents[x];
      if y in Interior(path) {
        var k := InteriorAt(path, y);
        RunChild(parents, children, labels, rank, path, k);
      }
    }
  }

  /** The parent of an interior commit is the next commit of the path:
      interior again unless it is the last commit, reached from `path[-2]`. */
  lemma InteriorParent(parents: Graph, children: Graph, labels: set<Id>, rank: map<Id, nat>, path: seq<Id>, x: Id, y: Id)
    returns (k: nat)
    requires Linked(parents, children) && Run(parents, children, labels, rank, path)
    requires x in Interior(path) && y in parents[x]
    ensures 2 <= k < |path| - 1 && x == path[k] && y == path[k + 1]
    ensures k + 1 < |path| - 1 ==> y in Interior(path)
  {
    k := InteriorAt(path, x);
    if k + 1 < |path| - 1 {
      assert path[k + 1] in Interior(path);
    }
  }

  /** A child edge after the collapse is a parent edge after it. */
  lemma CollapseBackward(parents: Graph, children: Graph, labels: set<Id>, rank: map<Id, nat>, path: seq<Id>, y: Id, x: Id)
    requires Linked(parents, children) && Run(parents, children, labels, rank, path)
    requires y in CollapseChildren(children, path) && x in CollapseChildren(children, path)[y]
    ensures x in CollapseParents(parents, path) && y in CollapseParents(parents, path)[x]
  {
    var n := |path|;
    var c, e := path[1], path[n - 1];
    if x == c {
      assert parents[c] == {path[2]};
      assert x in CollapseParents(parents, path);
      assert y == e;
    } else {
      assert x in children[y];
      assert y in parents[x];
      if x in Interior(path) {
        var k := InteriorParent(parents, children, labels, rank, path, x, y);
      }
      assert x in CollapseParents(parents, path);
    }
  }

  /** Two child maps mirroring the same parent map over the same keys are
      equal. */
  lemma MirrorsAgree(parents: Graph, a: Graph, b: Graph)
    requires Transposed(parents, a) && Transposed(parents, b) && a.Keys == b.Keys
    ensures a == b
  {
    forall k | k in a
      ensures a[k] == b[k]
    {
      forall c | c in a[k]
        ensures c in b[k]
      {
        assert c in parents && k in parents[c];
      }
      forall c | c in b[k]
        ensures c in a[k]
      {
        assert c in parents && k in parents[c];
      }
    }
  }

  /** Mirrored maps over the same closed keys: the child map is the
      transpose of the parent map. */
  lemma LinkedIsTranspose(parents: Graph, children: Graph)
    requires Linked(parents, children)
    ensures children == Transpose(parents)
  {
    TransposeOfClosed(parents);
    MirrorsAgree(parents, children, Transpose(parents));
  }

  /** The commits of `path[2..j]`, deleted so far by the loop of the
      collapse. */
  function InteriorBefore(path: seq<Id>, j: int): set<Id>
  {
    set k | 2 <= k < j && k < |path| :: path[k]
  }

  lemma MinusStep(m: Graph, path: seq<Id>, j: int)
    requires 2 <= j < |path|
    ensures m - InteriorBefore(path, j + 1) == m - InteriorBefore(path, j) - {path[j]}
  {
    assert InteriorBefore(path, j + 1) == InteriorBefore(path, j) + {path[j]};
  }

  /** What `_remove_linear_runs` keeps relative to the maps `p0`, `c0` and
      `...` set `d0` it started from: it only deletes unlabelled commits with
      one parent and one child, keeps every survivor's numbers of parents
      and children, and adds to the `...` set only commits of that kind. */
  ghost predicate Shrunk(p0: Graph, c0: Graph, labels: set<Id>, d0: set<Id>,
                         parents: Graph, children: Graph, dotdot: set<Id>)
  {
    && p0.Keys == c0.Keys && parents.Keys <= p0.Keys && d0 <= dotdot
    && forall x :: ShrunkAt(p0, c0, labels, d0, parents, children, dotdot, x)
  }

  /** `Shrunk` for one commit `x`. */
  ghost predicate ShrunkAt(p0: Graph, c0: Graph, labels: set<Id>, d0: set<Id>,
                           parents: Graph, children: Graph, dotdot: set<Id>, x: Id)
  {
    && (x in p0 && x in c0 && x !in parents ==> x !in labels && |p0[x]| == 1 && |c0[x]| == 1)
    && (x in parents && x in children && x in p0 && x in c0 ==>
          |parents[x]| == |p0[x]| && |children[x]| == |c0[x]|)
    && (x in dotdot - d0 ==> x in p0 && x in c0 && x !in labels && |p0[x]| == 1 && |c0[x]| == 1)
  }

  /** A deleted commit is unlabelled with one parent and one child. */
  lemma InteriorIsLinear(parents: Graph, children: Graph, labels: set<Id>, rank: map<Id, nat>, path: seq<Id>, x: Id)
    requires Linked(parents, children) && Run(parents, children, labels, rank, path)
    requires x in Interior(path)
    ensures x in parents && x in children && x !in labels && |parents[x]| == 1 && |children[x]| == 1
  {
    var k := InteriorAt(path, x);
    assert parents[path[k]] == {path[k + 1]};
  }

  /** Every commit gone after one more collapse was, in the maps the pass
      started from, unlabelled with one parent and one child. */
  lemma ShrunkDeleted(p0: Graph, c0: Graph, labels: set<Id>, d0: set<Id>,
                      parents: Graph, children: Graph, dotdot: set<Id>, rank: map<Id, nat>, path: seq<Id>)
    requires Linked(parents, children) && Run(parents, children, labels, rank, path)
    requires Shrunk(p0, c0, labels, d0, parents, children, dotdot)
    requires CollapseParents(parents, path).Keys == parents.Keys - Interior(path)
    ensures forall x :: x in p0 && x !in CollapseParents(parents, path) ==> x !in labels && |p0[x]| == 1 && |c0[x]| == 1
  {
    forall x | x in p0 && x !in CollapseParents(parents, path)
      ensures x !in labels && |p0[x]| == 1 && |c0[x]| == 1
    {
      assert ShrunkAt(p0, c0, labels, d0, parents, children, dotdot, x);
      if x in parents {
        InteriorIsLinear(parents, children, labels, rank, path, x);
      }
    }
  }

  lemma ShrunkRefl(parents: Graph, children: Graph, labels: set<Id>, dotdot: set<Id>)
    requires children.Keys == parents.Keys
    ensures Shrunk(parents, children, labels, dotdot, parents, children, dotdot)
  {
    forall x
      ensures ShrunkAt(parents, children, labels, dotdot, parents, children, dotdot, x)
    {
    }
  }

  /** What one walk leaves, collapsed or not, stated on the maps before
      (`p1`, `c1`, `d1`) and after (`p2`, `c2`, `d2`) it. */
  lemma WalkOutcome(p1: Graph, c1: Graph, labels: set<Id>, d1: set<Id>, rank: map<Id, nat>, path: seq<Id>,
                    p2: Graph, c2: Graph, d2: set<Id>, dropped: set<Id>)
    requires Linked(p1, c1) && Ranked(p1, rank) && Chain(p1, c1, labels, rank, path)
    requires |path| < 3 ==> p2 == p1 && c2 == c1 && d2 == d1 && dropped == {}
    requires |path| >= 3 ==>
               && p2 == CollapseParents(p1, path) && c2 == CollapseChildren(c1, path)
               && d2 == d1 + {path[1]} && dropped == {path[1]} + Interior(path)
    ensures Linked(p2, c2) && Ranked(p2, rank)
    ensures Shrunk(p1, c1, labels, d1, p2, c2, d2)
    ensures p1.Keys - dropped <= p2.Keys
    ensures path[0] in p2 && p2[path[0]] == p1[path[0]] && path[0] !in dropped
  {
    if |path| >= 3 {
      CollapseStep(p1, c1, labels, d1, rank, path);
      assert rank[path[1]] < rank[path[0]];
    } else {
      ShrunkRefl(p1, c1, labels, d1);
    }
  }

  /** Two stretches of the pass make one. */
  lemma ShrunkTrans(p0: Graph, c0: Graph, labels: set<Id>, d0: set<Id>,
                    p1: Graph, c1: Graph, d1: set<Id>, p2: Graph, c2: Graph, d2: set<Id>)
    requires c1.Keys == p1.Keys && c2.Keys == p2.Keys
    requires Shrunk(p0, c0, labels, d0, p1, c1, d1) && Shrunk(p1, c1, labels, d1, p2, c2, d2)
    ensures Shrunk(p0, c0, labels, d0, p2, c2, d2)
  {
    forall x
      ensures ShrunkAt(p0, c0, labels, d0, p2, c2, d2, x)
    {
      assert ShrunkAt(p0, c0, labels, d0, p1, c1, d1, x) && ShrunkAt(p1, c1, labels, d1, p2, c2, d2, x);
    }
  }

  /** What `Shrunk` says once the `...` set is cut down to the surviving
      commits, as the pass does at its end. */
  lemma ShrunkResult(p0: Graph, c0: Graph, labels: set<Id>, d0: set<Id>, parents: Graph, children: Graph, dotdot: set<Id>)
    requires Linked(parents, children) && Shrunk(p0, c0, labels, d0, parents, children, dotdot)
    ensures parents.Keys <= p0.Keys
    ensures forall x :: x in p0 && x !in parents ==> x !in labels && |p0[x]| == 1 && |c0[x]| == 1
    ensures forall x :: x in parents ==> |parents[x]| == |p0[x]| && |children[x]| == |c0[x]|
    ensures parents.Keys * dotdot <= parents.Keys && d0 * parents.Keys <= parents.Keys * dotdot
    ensures forall x :: x in parents.Keys * dotdot - d0 ==> x !in labels && |p0[x]| == 1 && |c0[x]| == 1
  {
    forall x | x in p0
      ensures x !in parents ==> x !in labels && |p0[x]| == 1 && |c0[x]| == 1
      ensures x in parents ==> |parents[x]| == |p0[x]| && |children[x]| == |c0[x]|
      ensures x in parents.Keys * dotdot - d0 ==> x !in labels && |p0[x]| == 1 && |c0[x]| == 1
    {
      assert ShrunkAt(p0, c0, labels, d0, parents, children, dotdot, x);
    }
  }

  /** One collapse keeps `Shrunk`, marking `path[1]` as a `...` node. */
  lemma ShrunkStep(p0: Graph, c0: Graph, labels: set<Id>, d0: set<Id>,
                   parents: Graph, children: Graph, dotdot: set<Id>, rank: map<Id, nat>, path: seq<Id>)
    requires Linked(parents, children) && Run(parents, children, labels, rank, path)
    requires Shrunk(p0, c0, labels, d0, parents, children, dotdot)
    requires CollapseParents(parents, path).Keys == parents.Keys - Interior(path)
    requires CollapseChildren(children, path).Keys == parents.Keys - Interior(path)
    requires forall x :: x in CollapseParents(parents, path) ==>
               |CollapseParents(parents, path)[x]| == |parents[x]| && |CollapseChildren(children, path)[x]| == |children[x]|
    ensures Shrunk(p0, c0, labels, d0, CollapseParents(parents, path), CollapseChildren(children, path), dotdot + {path[1]})
  {
    ShrunkDeleted(p0, c0, labels, d0, parents, children, dotdot, rank, path);
    RunChild(parents, children, labels, rank, path, 1);
    forall x
      ensures ShrunkAt(p0, c0, labels, d0, CollapseParents(parents, path), CollapseChildren(children, path),
                       dotdot + {path[1]}, x)
    {
      assert ShrunkAt(p0, c0, labels, d0, parents, children, dotdot, x);
    }
  }

  /** The walk's start commit survives a collapse with its parents, and the
      two entries the collapse removes are there. */
  lemma RunStartKept(parents: Graph, children: Graph, labels: set<Id>, rank: map<Id, nat>, path: seq<Id>)
    requires Linked(parents, children) && Run(parents, children, labels, rank, path)
    ensures path[0] in CollapseParents(parents, path) && CollapseParents(parents, path)[path[0]] == parents[path[0]]
    ensures path[2] in parents[path[1]] && path[|path| - 2] in children[path[|path| - 1]]
  {
    assert path[|path| - 1] in parents[path[|path| - 2]];
    assert rank[path[1]] < rank[path[0]];
    if path[0] in Interior(path) {
      var k := InteriorAt(path, path[0]);
    }
  }

  /** Everything one collapse keeps, as the pass needs it. */
  lemma CollapseStep(parents: Graph, children: Graph, labels: set<Id>, dotdot: set<Id>, rank: map<Id, nat>, path: seq<Id>)
    requires Linked(parents, children) && Ranked(parents, rank) && Run(parents, children, labels, rank, path)
    ensures Linked(CollapseParents(parents, path), CollapseChildren(children, path))
    ensures Ranked(CollapseParents(parents, path), rank)
    ensures Shrunk(parents, children, labels, dotdot, CollapseParents(parents, path), CollapseChildren(children, path), dotdot + {path[1]})
    ensures parents.Keys - ({path[1]} + Interior(path)) <= CollapseParents(parents, path).Keys
    ensures path[0] in CollapseParents(parents, path) && CollapseParents(parents, path)[path[0]] == parents[path[0]]
    ensures path[2] in parents[path[1]] && path[|path| - 2] in children[path[|path| - 1]]
  {
    CollapseKeepsLinked(parents, children, labels, rank, path);
    CollapseKeys(parents, children, labels, rank, path);
    ShrunkRefl(parents, children, labels, dotdot);
    ShrunkStep(parents, children, labels, dotdot, parents, children, dotdot, rank, path);
    RunStartKept(parents, children, labels, rank, path);
  }

  /** The rewired commit and the last commit of the path survive. */
  lemma RunEndsSurvive(parents: Graph, children: Graph, labels: set<Id>, rank: map<Id, nat>, path: seq<Id>)
    requires Run(parents, children, labels, rank, path)
    ensures path[1] !in Interior(path) && path[|path| - 1] !in Interior(path)
  {
  }

  lemma CollapseKeys(parents: Graph, children: Graph, labels: set<Id>, rank: map<Id, nat>, path: seq<Id>)
    requires Linked(parents, children) && Run(parents, children, labels, rank, path)
    ensures CollapseParents(parents, path).Keys == parents.Keys - Interior(path)
    ensures CollapseChildren(children, path).Keys == parents.Keys - Interior(path)
  {
  }

  lemma CollapseTransposed(parents: Graph, children: Graph, labels: set<Id>, rank: map<Id, nat>, path: seq<Id>)
    requires Linked(parents, children) && Run(parents, children, labels, rank, path)
    ensures Transposed(CollapseParents(parents, path), CollapseChildren(children, path))
  {
    var p2 := CollapseParents(parents, path);
    var c2 := CollapseChildren(children, path);
    CollapseKeys(parents, children, labels, rank, path);
    forall x, y | x in p2 && y in p2[x]
      ensures y in c2 && x in c2[y]
    {
      CollapseForward(parents, children, labels, rank, path, x, y);
    }
    forall y, x | y in c2 && x in c2[y]
      ensures x in p2 && y in p2[x]
    {
      CollapseBackward(parents, children, labels, rank, path, y, x);
    }
  }

  /** Maps that mirror each other over the same keys are closed. */
  lemma TransposedSameKeysClosed(parents: Graph, children: Graph)
    requires Transposed(parents, children) && children.Keys == parents.Keys
    ensures Closed(parents)
  {
  }

  /** The rewired edge still descends in rank. */
  lemma CollapseRanked(parents: Graph, children: Graph, labels: set<Id>, rank: map<Id, nat>, path: seq<Id>)
    requires Linked(parents, children) && Ranked(parents, rank) && Run(parents, children, labels, rank, path)
    ensures Ranked(CollapseParents(parents, path), rank)
  {
    assert parents[path[1]] == {path[2]};
  }

  lemma CollapseDegrees(parents: Graph, children: Graph, labels: set<Id>, rank: map<Id, nat>, path: seq<Id>)
    requires Linked(parents, children) && Run(parents, children, labels, rank, path)
    ensures forall x :: x in CollapseParents(parents, path) ==>
              |CollapseParents(parents, path)[x]| == |parents[x]| && |CollapseChildren(children, path)[x]| == |children[x]|
  {
    var n := |path|;
    var c, e := path[1], path[n - 1];
    RunEndsSurvive(parents, children, labels, rank, path);
    assert parents[c] == {path[2]};
    RunChild(parents, children, labels, rank, path, n - 2);
    assert path[n - 1] in parents[path[n - 2]];
    assert path[n - 2] in children[e];
    var c2 := CollapseChildren(children, path);
    assert c2[e] == children[e] - {path[n - 2]} + {c};
  }

  /** One collapse keeps both maps consistent, acyclic and closed, keeps
      each surviving commit's number of parents and children, and deletes
      exactly the interior. */
  lemma CollapseKeepsLinked(parents: Graph, children: Graph, labels: set<Id>, rank: map<Id, nat>, path: seq<Id>)
    requires Linked(parents, children) && Ranked(parents, rank) && Run(parents, children, labels, rank, path)
    ensures CollapseParents(parents, path).Keys == parents.Keys - Interior(path)
    ensures Linked(CollapseParents(parents, path), CollapseChildren(children, path))
    ensures Ranked(CollapseParents(parents, path), rank)
    ensures forall x :: x in CollapseParents(parents, path) ==>
              |CollapseParents(parents, path)[x]| == |parents[x]| && |CollapseChildren(children, path)[x]| == |children[x]|
  {
    CollapseKeys(parents, children, labels, rank, path);
    CollapseTransposed(parents, children, labels, rank, path);
    TransposedSameKeysClosed(CollapseParents(parents, path), CollapseChildren(children, path));
    CollapseRanked(parents, children, labels, rank, path);
    CollapseDegrees(parents, children, labels, rank, path);
  }

  /** A commit the walk of `_remove_linear_runs` passes through:
      unlabelled, with exactly one parent and exactly one child. */
  predicate LinearIn(parents: Graph, children: Graph, labels: set<Id>, x: Id)
  {
    x in parents && x in children && x !in labels && |parents[x]| == 1 && |children[x]| == 1
  }

  /** A linear commit `q` has been dealt with: it is a `...` node, and the
      one parent it points at is not linear, so the run it heads is down to
      `q` alone. */
  ghost predicate Collapsed(parents: Graph, children: Graph, labels: set<Id>, dotdot: set<Id>, q: Id)
  {
    LinearIn(parents, children, labels, q) ==>
      q in dotdot && forall y :: y in parents[q] ==> !LinearIn(parents, children, labels, y)
  }

  /** Every linear parent of a commit of `done` has been dealt with. */
  ghost predicate SettledAt(parents: Graph, children: Graph, labels: set<Id>, dotdot: set<Id>, done: set<Id>)
  {
    forall s, q :: s in done && s in parents && q in parents[s] ==> Collapsed(parents, children, labels, dotdot, q)
  }

  lemma SettledAtSubset(parents: Graph, children: Graph, labels: set<Id>, dotdot: set<Id>, done: set<Id>, fewer: set<Id>)
    requires SettledAt(parents, children, labels, dotdot, done) && fewer <= done
    ensures SettledAt(parents, children, labels, dotdot, fewer)
  {
  }

  /** A commit that survives a collapse is linear after it exactly when it
      was before. */
  lemma CollapseKeepsLinearity(parents: Graph, children: Graph, labels: set<Id>, rank: map<Id, nat>, path: seq<Id>, x: Id)
    requires Linked(parents, children) && Ranked(parents, rank) && Run(parents, children, labels, rank, path)
    requires x in CollapseParents(parents, path)
    ensures LinearIn(CollapseParents(parents, path), CollapseChildren(children, path), labels, x)
            <==> LinearIn(parents, children, labels, x)
  {
    CollapseKeepsLinked(parents, children, labels, rank, path);
  }

  /** The only commit with `path[1]` as a parent is `path[0]`. */
  lemma RunStartOnlyChild(parents: Graph, children: Graph, labels: set<Id>, rank: map<Id, nat>, path: seq<Id>, s: Id)
    requires Linked(parents, children) && Run(parents, children, labels, rank, path)
    ensures s in parents && path[1] in parents[s] ==> s == path[0]
  {
    if s in parents && path[1] in parents[s] {
      RunChild(parents, children, labels, rank, path, 1);
      assert s in children[path[1]];
    }
  }

  /** After the collapse the walk's `path[1]` is a `...` node whose one
      parent, the commit the walk ended at, is not linear. */
  lemma RunSettlesStart(parents: Graph, children: Graph, labels: set<Id>, dotdot: set<Id>, rank: map<Id, nat>, path: seq<Id>)
    requires Linked(parents, children) && Ranked(parents, rank) && Run(parents, children, labels, rank, path)
    requires !LinearIn(parents, children, labels, path[|path| - 1])
    ensures path[1] in CollapseParents(parents, path)
    ensures CollapseParents(parents, path)[path[1]] == {path[|path| - 1]}
    ensures Collapsed(CollapseParents(parents, path), CollapseChildren(children, path), labels, dotdot + {path[1]}, path[1])
  {
    var n := |path|;
    CollapseKeepsLinked(parents, children, labels, rank, path);
    RunEndsSurvive(parents, children, labels, rank, path);
    assert parents[path[1]] == {path[2]};
    CollapseKeepsLinearity(parents, children, labels, rank, path, path[n - 1]);
  }

  /** A collapse keeps a parent `q` of a surviving commit `s` dealt with,
      unless `(s, q)` is the edge the walk started on; if `s` is the commit
      the collapse rewires, `q` is the walk's non-linear end. */
  lemma CollapseKeepsCollapsed(parents: Graph, children: Graph, labels: set<Id>, dotdot: set<Id>, rank: map<Id, nat>,
                               path: seq<Id>, s: Id, q: Id)
    requires Linked(parents, children) && Ranked(parents, rank) && Run(parents, children, labels, rank, path)
    requires !LinearIn(parents, children, labels, path[|path| - 1])
    requires s in CollapseParents(parents, path) && q in CollapseParents(parents, path)[s]
    requires s != path[0] || q != path[1]
    requires s != path[1] && s in parents && q in parents[s] ==> Collapsed(parents, children, labels, dotdot, q)
    ensures Collapsed(CollapseParents(parents, path), CollapseChildren(children, path), labels, dotdot + {path[1]}, q)
  {
    var p2, c2 := CollapseParents(parents, path), CollapseChildren(children, path);
    var n := |path|;
    CollapseKeepsLinked(parents, children, labels, rank, path);
    RunEndsSurvive(parents, children, labels, rank, path);
    CollapseKeepsLinearity(parents, children, labels, rank, path, q);
    if s == path[1] {
      assert parents[path[1]] == {path[2]};
      assert q == path[n - 1];
    } else {
      assert p2[s] == parents[s];
      RunStartOnlyChild(parents, children, labels, rank, path, s);
      assert q != path[1];
      assert p2[q] == parents[q];
      forall y | y in p2[q]
        ensures LinearIn(p2, c2, labels, y) ==> LinearIn(parents, children, labels, y)
      {
        CollapseKeepsLinearity(parents, children, labels, rank, path, y);
      }
    }
  }

  /** One collapse keeps every commit of `done` settled and settles the
      commits it blacklists; of the walk's start, the parents dealt with
      before stay dealt with, and `path[1]` is dealt with now. */
  lemma CollapseKeepsSettled(parents: Graph, children: Graph, labels: set<Id>, dotdot: set<Id>, rank: map<Id, nat>,
                             path: seq<Id>, done: set<Id>, started: set<Id>)
    requires Linked(parents, children) && Ranked(parents, rank) && Run(parents, children, labels, rank, path)
    requires !LinearIn(parents, children, labels, path[|path| - 1])
    requires path[0] !in done && path[1] !in started && started <= parents[path[0]]
    requires SettledAt(parents, children, labels, dotdot, done)
    requires forall q :: q in started ==> Collapsed(parents, children, labels, dotdot, q)
    ensures SettledAt(CollapseParents(parents, path), CollapseChildren(children, path), labels, dotdot + {path[1]},
                      done + ({path[1]} + Interior(path)))
    ensures forall q :: q in started + {path[1]} ==>
              Collapsed(CollapseParents(parents, path), CollapseChildren(children, path), labels, dotdot + {path[1]}, q)
  {
    var p2, c2 := CollapseParents(parents, path), CollapseChildren(children, path);
    CollapseKeys(parents, children, labels, rank, path);
    RunStartKept(parents, children, labels, rank, path);
    forall s, q | s in done + ({path[1]} + Interior(path)) && s in p2 && q in p2[s]
      ensures Collapsed(p2, c2, labels, dotdot + {path[1]}, q)
    {
      CollapseKeepsCollapsed(parents, children, labels, dotdot, rank, path, s, q);
    }
    forall q | q in started + {path[1]}
      ensures Collapsed(p2, c2, labels, dotdot + {path[1]}, q)
    {
      if q == path[1] {
        RunSettlesStart(parents, children, labels, dotdot, rank, path);
      } else {
        CollapseKeepsCollapsed(parents, children, labels, dotdot, rank, path, path[0], q);
      }
    }
  }

  /** One walk up from `sha` through its parent `path[1]`, collapsed or left
      alone, keeps every settled commit settled, settles everything the walk
      dropped, and leaves `path[1]` collapsed. */
  lemma WalkKeepsSettled(p1: Graph, c1: Graph, labels: set<Id>, d1: set<Id>, rank: map<Id, nat>, path: seq<Id>,
                         p2: Graph, c2: Graph, d2: set<Id>, dropped: set<Id>, done: set<Id>, started: set<Id>)
    requires Linked(p1, c1) && Ranked(p1, rank) && Chain(p1, c1, labels, rank, path)
    requires !LinearIn(p1, c1, labels, path[|path| - 1])
    requires |path| < 3 ==> p2 == p1 && c2 == c1 && d2 == d1 && dropped == {}
    requires |path| >= 3 ==>
               && p2 == CollapseParents(p1, path) && c2 == CollapseChildren(c1, path)
               && d2 == d1 + {path[1]} && dropped == {path[1]} + Interior(path)
    requires path[0] !in done && path[1] !in started && started <= p1[path[0]]
    requires SettledAt(p1, c1, labels, d1, done)
    requires forall q :: q in started ==> Collapsed(p1, c1, labels, d1, q)
    ensures SettledAt(p2, c2, labels, d2, done + dropped)
    ensures forall q :: q in started + {path[1]} ==> Collapsed(p2, c2, labels, d2, q)
  {
    if |path| >= 3 {
      CollapseKeepsSettled(p1, c1, labels, d1, rank, path, done, started);
    } else {
      assert done + dropped == done;
    }
  }

  /** Once every commit is settled, every linear commit left is a `...`
      node between two commits that are not linear. */
  lemma AllSettled(parents: Graph, children: Graph, labels: set<Id>, dotdot: set<Id>, done: set<Id>)
    requires Linked(parents, children) && parents.Keys <= done
    requires SettledAt(parents, children, labels, dotdot, done)
    ensures forall x :: LinearIn(parents, children, labels, x) ==>
              x in parents.Keys * dotdot && forall y :: y in parents[x] ==> !LinearIn(parents, children, labels, y)
    ensures forall x, w :: LinearIn(parents, children, labels, x) && w in children[x] ==>
              !LinearIn(parents, children, labels, w)
  {
    forall x | LinearIn(parents, children, labels, x)
      ensures Collapsed(parents, children, labels, dotdot, x)
    {
      assert children[x] != {};
      var w :| w in children[x];
      assert w in parents && x in parents[w];
    }
    forall x, w | LinearIn(parents, children, labels, x) && w in children[x]
      ensures !LinearIn(parents, children, labels, w)
    {
      assert w in parents && x in parents[w];
    }
  }

  /** A linear commit whose children are none of them linear: the commit
      next to the child end of a maximal run, which the walk from that child
      reaches first and keeps as the run's `...` node. */
  predicate RunHead(parents: Graph, children: Graph, labels: set<Id>, x: Id)
  {
    && LinearIn(parents, children, labels, x)
    && forall w :: w in children[x] ==> !LinearIn(parents, children, labels, w)
  }

  /** What the pass never undoes, relative to the maps `p0` and `c0` it
      started from: the children of a commit that was linear stay as they
      were, and every run head survives. */
  ghost predicate KeepsHeads(p0: Graph, c0: Graph, labels: set<Id>, parents: Graph, children: Graph)
  {
    forall x :: HeadKept(p0, c0, labels, parents, children, x)
  }

  /** `KeepsHeads` for one commit `x`. */
  ghost predicate HeadKept(p0: Graph, c0: Graph, labels: set<Id>, parents: Graph, children: Graph, x: Id)
  {
    && (x in children && LinearIn(p0, c0, labels, x) ==> children[x] == c0[x])
    && (RunHead(p0, c0, labels, x) ==> x in parents)
  }

  /** A commit that survives is linear exactly when it was linear at the
      start. */
  lemma ShrunkLinear(p0: Graph, c0: Graph, labels: set<Id>, d0: set<Id>,
                     parents: Graph, children: Graph, dotdot: set<Id>, x: Id)
    requires Shrunk(p0, c0, labels, d0, parents, children, dotdot) && children.Keys == parents.Keys
    requires x in parents
    ensures LinearIn(parents, children, labels, x) <==> LinearIn(p0, c0, labels, x)
  {
    assert ShrunkAt(p0, c0, labels, d0, parents, children, dotdot, x);
  }

  /** A commit strictly inside a run has the linear commit before it as a
      child, so it is never a run head. */
  lemma InteriorNotHead(parents: Graph, children: Graph, labels: set<Id>, rank: map<Id, nat>, path: seq<Id>, x: Id)
    requires Linked(parents, children) && Run(parents, children, labels, rank, path)
    ensures RunHead(parents, children, labels, x) ==> x !in Interior(path)
  {
    if x in Interior(path) {
      var k := InteriorAt(path, x);
      RunChild(parents, children, labels, rank, path, k);
      RunChild(parents, children, labels, rank, path, k - 1);
      assert path[k - 1] in children[x] && LinearIn(parents, children, labels, path[k - 1]);
    }
  }

  /** One collapse keeps the children of every linear commit and deletes no
      run head. */
  lemma CollapseKeepsHeads(parents: Graph, children: Graph, labels: set<Id>, rank: map<Id, nat>, path: seq<Id>)
    requires Linked(parents, children) && Run(parents, children, labels, rank, path)
    requires !LinearIn(parents, children, labels, path[|path| - 1])
    ensures KeepsHeads(parents, children, labels, CollapseParents(parents, path), CollapseChildren(children, path))
  {
    CollapseKeys(parents, children, labels, rank, path);
    forall x
      ensures HeadKept(parents, children, labels, CollapseParents(parents, path), CollapseChildren(children, path), x)
    {
      InteriorNotHead(parents, children, labels, rank, path, x);
    }
  }

  /** Two stretches of the pass that each keep the heads keep them together. */
  lemma KeepsHeadsTrans(p0: Graph, c0: Graph, labels: set<Id>, d0: set<Id>,
                        p1: Graph, c1: Graph, d1: set<Id>, p2: Graph, c2: Graph, d2: set<Id>)
    requires c1.Keys == p1.Keys && c2.Keys == p2.Keys
    requires Shrunk(p0, c0, labels, d0, p1, c1, d1) && Shrunk(p1, c1, labels, d1, p2, c2, d2)
    requires KeepsHeads(p0, c0, labels, p1, c1) && KeepsHeads(p1, c1, labels, p2, c2)
    ensures KeepsHeads(p0, c0, labels, p2, c2)
  {
    forall x
      ensures HeadKept(p0, c0, labels, p2, c2, x)
    {
      assert HeadKept(p0, c0, labels, p1, c1, x) && HeadKept(p1, c1, labels, p2, c2, x);
      if x in c2 && LinearIn(p0, c0, labels, x) {
        ShrunkLinear(p0, c0, labels, d0, p1, c1, d1, x);
      }
      if RunHead(p0, c0, labels, x) {
        HeadStaysHead(p0, c0, labels, d0, p1, c1, d1, x);
      }
    }
  }

  /** A run head at the start is still a run head at `p1`. */
  lemma HeadStaysHead(p0: Graph, c0: Graph, labels: set<Id>, d0: set<Id>, p1: Graph, c1: Graph, d1: set<Id>, x: Id)
    requires c1.Keys == p1.Keys
    requires Shrunk(p0, c0, labels, d0, p1, c1, d1) && KeepsHeads(p0, c0, labels, p1, c1)
    requires RunHead(p0, c0, labels, x)
    ensures RunHead(p1, c1, labels, x)
  {
    assert HeadKept(p0, c0, labels, p1, c1, x);
    ShrunkLinear(p0, c0, labels, d0, p1, c1, d1, x);
    forall w | w in c1[x]
      ensures !LinearIn(p1, c1, labels, w)
    {
      if w in p1 {
        ShrunkLinear(p0, c0, labels, d0, p1, c1, d1, w);
      }
    }
  }

  /** One walk, collapsed or not, keeps the heads. */
  lemma WalkKeepsHeads(p1: Graph, c1: Graph, labels: set<Id>, rank: map<Id, nat>, path: seq<Id>, p2: Graph, c2: Graph)
    requires Linked(p1, c1) && Chain(p1, c1, labels, rank, path)
    requires !LinearIn(p1, c1, labels, path[|path| - 1])
    requires |path| < 3 ==> p2 == p1 && c2 == c1
    requires |path| >= 3 ==> p2 == CollapseParents(p1, path) && c2 == CollapseChildren(c1, path)
    ensures KeepsHeads(p1, c1, labels, p2, c2)
  {
    if |path| >= 3 {
      CollapseKeepsHeads(p1, c1, labels, rank, path);
    }
  }

  /** Two stretches of the pass, from the start `p0` to `p1` and from `p1`
      to `p2`, make one. */
  lemma PassStep(p0: Graph, c0: Graph, labels: set<Id>, d0: set<Id>, p1: Graph, c1: Graph, d1: set<Id>,
                 p2: Graph, c2: Graph, d2: set<Id>)
    requires c1.Keys == p1.Keys && c2.Keys == p2.Keys
    requires Shrunk(p0, c0, labels, d0, p1, c1, d1) && Shrunk(p1, c1, labels, d1, p2, c2, d2)
    requires KeepsHeads(p0, c0, labels, p1, c1) && KeepsHeads(p1, c1, labels, p2, c2)
    ensures Shrunk(p0, c0, labels, d0, p2, c2, d2) && KeepsHeads(p0, c0, labels, p2, c2)
  {
    ShrunkTrans(p0, c0, labels, d0, p1, c1, d1, p2, c2, d2);
    KeepsHeadsTrans(p0, c0, labels, d0, p1, c1, d1, p2, c2, d2);
  }

  /** A commit all of whose parents are collapsed is settled. */
  lemma SettleOne(parents: Graph, children: Graph, labels: set<Id>, dotdot: set<Id>, a: set<Id>, b: set<Id>, sha: Id)
    requires SettledAt(parents, children, labels, dotdot, a + b)
    requires sha in parents && forall q :: q in parents[sha] ==> Collapsed(parents, children, labels, dotdot, q)
    ensures SettledAt(parents, children, labels, dotdot, a + {sha} + b)
  {
  }

  /** At the end of the pass every run head is still there and still
      linear. */
  lemma HeadsSurvive(p0: Graph, c0: Graph, labels: set<Id>, d0: set<Id>, parents: Graph, children: Graph, dotdot: set<Id>)
    requires Shrunk(p0, c0, labels, d0, parents, children, dotdot) && children.Keys == parents.Keys
    requires KeepsHeads(p0, c0, labels, parents, children)
    ensures forall x :: RunHead(p0, c0, labels, x) ==> x in parents && LinearIn(parents, children, labels, x)
  {
    forall x | RunHead(p0, c0, labels, x)
      ensures x in parents && LinearIn(parents, children, labels, x)
    {
      assert HeadKept(p0, c0, labels, parents, children, x);
      ShrunkLinear(p0, c0, labels, d0, parents, children, dotdot, x);
    }
  }

  // ---------------------------------------------------------------------
  // DOT output of the older class

  /** The label of a ref node in the older class: the ref names, then the
      formatted id when ids are shown, joined by the two characters `\n`;
      quotes are not escaped. */
  function LegacyRefLabel(k: Id, branches: Refs, tags: Refs, shaOnesOnLabels: bool, digits: Option<nat>): string
  {
    Join("\\n", RefNames(k, branches, tags) + (if shaOnesOnLabels then [FormatShaOne(k, digits)] else []))
  }

  function LegacyRefNodeLine(k: Id, branches: Refs, tags: Refs, shaOnesOnLabels: bool, digits: Option<nat>): string
  {
    Statement(k, "[label=\"" + LegacyRefLabel(k, branches, tags, shaOnesOnLabels, digits)
                 + "\", color=\"" + Color(k, branches, tags) + "\", style=filled];")
  }

  function LegacyRefLines(order: seq<Id>, branches: Refs, tags: Refs, shaOnesOnLabels: bool, digits: Option<nat>): seq<string>
  {
    seq(|order|, i requires 0 <= i < |order| => LegacyRefNodeLine(order[i], branches, tags, shaOnesOnLabels, digits))
  }

  /** The loop over `label_gen()`: one node line per labelled commit, in
      the order given. */
  method LegacyRefBlock(keys: seq<Id>, branches: Refs, tags: Refs, shaOnesOnLabels: bool, digits: Option<nat>)
    returns (block: seq<string>)
    ensures block == LegacyRefLines(keys, branches, tags, shaOnesOnLabels, digits)
  {
    block := [];
    for i := 0 to |keys|
      invariant |block| == i
      invariant forall j :: 0 <= j < i ==> block[j] == LegacyRefNodeLine(keys[j], branches, tags, shaOnesOnLabels, digits)
    {
      block := block + [LegacyRefNodeLine(keys[i], branches, tags, shaOnesOnLabels, digits)];
    }
  }

  /** A tag whose name holds a double quote (git allows one) goes into the
      older label as it is: the quote stands without a backslash, so it ends
      the quoted `label` attribute early. The newer `RefLabel` escapes it
      (`EscapedQuotesArePreceded`, `RefLabelReadsBack`). */
  lemma LegacyLabelLeavesQuoteBare()
    ensures var l := LegacyRefLabel("c", map[], map["c" := {"v\"1"}], false, None);
            |l| == 3 && l[1] == '"' && l[0] != '\\'
  {
    var names := SortedNames({"v\"1"});
    assert names[0] in Elems(names);
  }

  /** The older label options: no commit messages. */
  function LegacyOptions(shaOnesOnLabels: bool, digits: Option<nat>): LabelOptions
  {
    LabelOptions(shaOnesOnLabels, false, digits, _ => "")
  }

  // ---------------------------------------------------------------------
  // The class

  class CommitGraph {
    var parents: Graph
    var children: Graph
    const branches: Refs
    const tags: Refs
    var dotdot: set<Id>

    ghost predicate Valid()
      reads this
    {
      children == Transpose(parents)
    }

    /** `__init__`: store the maps, derive the children and check them. */
    constructor (parentMap: Graph, branchDict: Refs, tagDict: Refs)
      ensures parents == parentMap && branches == branchDict && tags == tagDict && dotdot == {}
      ensures Valid()
      ensures ChildMappingVerified(parents, children)
    {
      parents := parentMap;
      branches := branchDict;
      tags := tagDict;
      dotdot := {};
      children := map[];
      new;
      CalculateChildMapping();
      TransposePassesCheck(parents);
    }

    /** `_calculate_child_mapping`: adds to the child map that is there. */
    method CalculateChildMapping()
      modifies this`children
      ensures children == AddChildren(old(children), parents, parents.Keys)
    {
      children := AddChildMapping(children, parents);
    }

    /** `_has_label`. */
    predicate HasLabel(sha: Id)
    {
      sha in branches || sha in tags
    }

    /** The labelled ids. */
    function Labels(): set<Id>
    {
      branches.Keys + tags.Keys
    }

    /** `_has_label` picks out exactly the ids `label_gen` yields. */
    lemma HasLabelIsLabel(k: Id)
      ensures HasLabel(k) <==> k in Labels()
    {
    }

    /** `_remove_non_labels`: the parent map becomes the transitive
        reduction of the order between labels; the child map is recomputed
        on top of the old one (see `LabelReduction`). The ghost `rank`
        witnesses that the history has no cycle, which `recurse` needs to
        end. */
    method RemoveNonLabels(ghost rank: map<Id, nat>)
      modifies this`parents, this`children
      requires Ranked(parents, rank)
      requires forall c, p :: c in parents && p in parents[c] && !HasLabel(p) ==> p in parents
      ensures parents == LabelReduction(old(parents), Labels(), rank)
      ensures children == AddChildren(old(children), parents, parents.Keys)
    {
      ghost var target := LabelReduction(parents, Labels(), rank);
      var branchLabels := ListOf(branches.Keys);
      var tagLabels := ListOf(tags.Keys);
      var labelOrder := branchLabels + tagLabels;
      var labels := branches.Keys + tags.Keys;
      ElemsConcat(branchLabels, tagLabels);
      var reachable := ReachableLabeledParents(parents, labelOrder, labels);
      StepOneIsDag(parents, labels, rank);
      var seen := SeenCommits(reachable, LabelRank(rank, labels), labelOrder);
      var reduced := ReduceAll(reachable, LabelRank(rank, labels), seen);
      assert reduced == target;
      parents := reduced;
      CalculateChildMapping();
    }

    /** A commit the walk of `_remove_linear_runs` passes through:
        unlabelled, with exactly one child and exactly one parent. */
    predicate Linear(x: Id)
      reads this
    {
      LinearIn(parents, children, Labels(), x)
    }

    /** The walk of `_remove_linear_runs` from `sha` through its parent `p`:
        follow single parents while the commits stay linear. The path starts
        `[sha, p]`, passes only linear commits after `sha`, each followed by
        its one parent, and ends at the first commit that is not linear. */
    method Walk(sha: Id, p: Id, ghost rank: map<Id, nat>) returns (path: seq<Id>)
      requires Closed(parents) && Ranked(parents, rank) && children.Keys == parents.Keys
      requires sha in parents && p in parents[sha]
      ensures Chain(parents, children, Labels(), rank, path) && path[0] == sha && path[1] == p
      ensures !Linear(path[|path| - 1])
    {
      RankedEdge(parents, rank, sha, p);
      path := [sha, p];
      var last := p;
      if |children[last]| != 1 || HasLabel(last) {
      } else {
        while |parents[last]| == 1
          invariant Chain(parents, children, Labels(), rank, path) && path[0] == sha && path[1] == p
          invariant last == path[|path| - 1] && last in rank
          invariant |children[last]| == 1 && !HasLabel(last)
          decreases rank[last]
        {
          var next :| next in parents[last];
          SingletonOf(parents[last], next);
          RankedEdge(parents, rank, last, next);
          ChainSnoc(parents, children, Labels(), rank, path, next);
          last := next;
          path := path + [last];
          if |children[last]| != 1 || HasLabel(last) {
            break;
          }
        }
      }
    }

    /** Collapse one walk: `path[1]` takes the last commit of the path as its
        parent instead of `path[2]`, that commit takes `path[1]` as a child
        instead of `path[-2]`, and the interior is deleted from both maps.
        The caller has to make sure the two entries to remove are there. */
    method CollapseRun(path: seq<Id>)
      modifies this`parents, this`children
      requires |path| >= 3 && path[1] in parents && path[|path| - 1] in children
      requires path[2] in parents[path[1]] && path[|path| - 2] in children[path[|path| - 1]]
      ensures parents == CollapseParents(old(parents), path)
      ensures children == CollapseChildren(old(children), path)
    {
      var edgeChild := path[1];
      var edgeParent := path[|path| - 1];
      parents := parents[edgeChild := parents[edgeChild] - {path[2]} + {edgeParent}];
      children := children[edgeParent := children[edgeParent] - {path[|path| - 2]} + {edgeChild}];
      ghost var p1, c1 := parents, children;
      for j := 2 to |path| - 1
        invariant parents == p1 - InteriorBefore(path, j)
        invariant children == c1 - InteriorBefore(path, j)
      {
        MinusStep(p1, path, j);
        MinusStep(c1, path, j);
        parents := parents - {path[j]};
        children := children - {path[j]};
      }
    }

    /** One iteration of the inner loop of `_remove_linear_runs`: walk from
        `sha` through its parent `p` and, when the walk passed at least one
        linear commit, collapse it. Returns the commits the source adds to
        its blacklist: the new `...` node and the deleted commits. */
    method CollapseWalk(sha: Id, p: Id, ghost rank: map<Id, nat>) returns (dropped: set<Id>, ghost path: seq<Id>)
      modifies this`parents, this`children, this`dotdot
      requires Linked(parents, children) && Ranked(parents, rank) && sha in parents && p in parents[sha]
      ensures Chain(old(parents), old(children), Labels(), rank, path) && path[0] == sha && path[1] == p
      ensures !LinearIn(old(parents), old(children), Labels(), path[|path| - 1])
      ensures |path| < 3 ==>
                parents == old(parents) && children == old(children) && dotdot == old(dotdot) && dropped == {}
      ensures |path| >= 3 ==>
                && parents == CollapseParents(old(parents), path) && children == CollapseChildren(old(children), path)
                && dotdot == old(dotdot) + {p} && dropped == {p} + Interior(path)
      ensures Linked(parents, children) && Ranked(parents, rank)
      ensures Shrunk(old(parents), old(children), Labels(), old(dotdot), parents, children, dotdot)
      ensures old(parents).Keys - dropped <= parents.Keys
      ensures sha in parents && parents[sha] == old(parents)[sha] && sha !in dropped
    {
      var walk := Walk(sha, p, rank);
      path := walk;
      dropped := {};
      if |walk| >= 3 {
        var edgeChild := walk[1];
        RunStartKept(parents, children, Labels(), rank, walk);
        CollapseRun(walk);
        dotdot := dotdot + {edgeChild};
        dropped := {edgeChild} + Interior(walk);
      }
      WalkOutcome(old(parents), old(children), Labels(), old(dotdot), rank, path, parents, children, dotdot, dropped);
    }

    /** The inner loop of `_remove_linear_runs` for one commit `sha`: walk
        from each of its parents and collapse every walk long enough. Returns
        the commits it blacklists. */
    method CollapseAbove(sha: Id, ghost rank: map<Id, nat>, ghost done: set<Id>,
                         ghost p0: Graph, ghost c0: Graph, ghost d0: set<Id>) returns (blackList: set<Id>)
      modifies this`parents, this`children, this`dotdot
      requires Linked(parents, children) && Ranked(parents, rank) && sha in parents
      requires sha !in done && SettledAt(parents, children, Labels(), dotdot, done)
      requires Shrunk(p0, c0, Labels(), d0, parents, children, dotdot) && KeepsHeads(p0, c0, Labels(), parents, children)
      ensures Linked(parents, children) && Ranked(parents, rank)
      ensures Shrunk(p0, c0, Labels(), d0, parents, children, dotdot) && KeepsHeads(p0, c0, Labels(), parents, children)
      ensures old(parents).Keys - blackList <= parents.Keys
      ensures SettledAt(parents, children, Labels(), dotdot, done + {sha} + blackList)
    {
      blackList := {};
      var ps := parents[sha];
      var psList := ListOf(ps);
      ElemsEmpty(psList[..0]);
      for j := 0 to |psList|
        invariant Linked(parents, children) && Ranked(parents, rank)
        invariant Shrunk(p0, c0, Labels(), d0, parents, children, dotdot)
        invariant old(parents).Keys - blackList <= parents.Keys
        invariant sha in parents && parents[sha] == ps && sha !in blackList
        invariant SettledAt(parents, children, Labels(), dotdot, done + blackList)
        invariant forall q :: q in Elems(psList[..j]) ==> Collapsed(parents, children, Labels(), dotdot, q)
        invariant KeepsHeads(p0, c0, Labels(), parents, children)
      {
        ghost var p1, c1, d1 := parents, children, dotdot;
        var dropped;
        ghost var path;
        dropped, path := CollapseWalk(sha, psList[j], rank);
        WalkKeepsHeads(p1, c1, Labels(), rank, path, parents, children);
        PassStep(p0, c0, Labels(), d0, p1, c1, d1, parents, children, dotdot);
        DistinctFresh(psList, j);
        ElemsPrefixStep(psList, j);
        WalkKeepsSettled(p1, c1, Labels(), d1, rank, path, parents, children, dotdot, dropped,
                         done + blackList, Elems(psList[..j]));
        UnionAssoc(done, blackList, dropped);
        blackList := blackList + dropped;
      }
      assert psList[..|psList|] == psList;
      SettleOne(parents, children, Labels(), dotdot, done, blackList, sha);
    }

    /** `_remove_linear_runs`: replace every chain of unlabelled commits
        with one child and one parent by a `...` node. The pass deletes only
        such commits, keeps the child map the transpose of the parent map,
        keeps every surviving commit's numbers of parents and children, and
        marks as `...` only surviving commits of that kind. The ghost `rank`
        witnesses that the history has no cycle. */
    method RemoveLinearRuns(ghost rank: map<Id, nat>)
      modifies this`parents, this`children, this`dotdot
      requires Valid() && Closed(parents) && Ranked(parents, rank)
      ensures Valid() && Closed(parents) && Ranked(parents, rank)
      ensures parents.Keys <= old(parents).Keys
      ensures forall x :: x in old(parents) && x !in parents ==>
                !HasLabel(x) && |old(parents)[x]| == 1 && |old(children)[x]| == 1
      ensures forall x :: x in parents ==> |parents[x]| == |old(parents)[x]| && |children[x]| == |old(children)[x]|
      ensures dotdot <= parents.Keys && old(dotdot) * parents.Keys <= dotdot
      ensures forall x :: x in dotdot - old(dotdot) ==>
                !HasLabel(x) && |old(parents)[x]| == 1 && |old(children)[x]| == 1
      ensures forall x :: Linear(x) ==> x in dotdot && forall y :: y in parents[x] ==> !Linear(y)
      ensures forall x, w :: Linear(x) && w in children[x] ==> !Linear(w)
      ensures forall x :: RunHead(old(parents), old(children), Labels(), x) ==> x in dotdot
    {
      TransposeOfClosed(parents);
      CollapseAll(rank);
      ghost var d1 := dotdot;
      dotdot := parents.Keys * dotdot;
      ShrunkResult(old(parents), old(children), Labels(), old(dotdot), parents, children, d1);
      HeadsSurvive(old(parents), old(children), Labels(), old(dotdot), parents, children, d1);
      AllSettled(parents, children, Labels(), d1, old(parents).Keys);
      LinkedIsTranspose(parents, children);
    }

    /** The outer loop of `_remove_linear_runs`, over the commits as they
        were when the pass started, skipping blacklisted ones. */
    method CollapseAll(ghost rank: map<Id, nat>)
      modifies this`parents, this`children, this`dotdot
      requires Linked(parents, children) && Ranked(parents, rank)
      ensures Linked(parents, children) && Ranked(parents, rank)
      ensures Shrunk(old(parents), old(children), Labels(), old(dotdot), parents, children, dotdot)
      ensures SettledAt(parents, children, Labels(), dotdot, old(parents).Keys)
      ensures KeepsHeads(old(parents), old(children), Labels(), parents, children)
    {
      var todo := ListOf(parents.Keys);
      var blackList: set<Id> := {};
      ShrunkRefl(parents, children, Labels(), dotdot);
      ElemsEmpty(todo[..0]);
      for i := 0 to |todo|
        invariant Linked(parents, children) && Ranked(parents, rank)
        invariant Shrunk(old(parents), old(children), Labels(), old(dotdot), parents, children, dotdot)
        invariant old(parents).Keys - blackList <= parents.Keys
        invariant SettledAt(parents, children, Labels(), dotdot, Elems(todo[..i]) + blackList)
        invariant KeepsHeads(old(parents), old(children), Labels(), parents, children)
      {
        var sha := todo[i];
        ElemsPrefixStep(todo, i);
        if sha in blackList {
          UnionAbsorbs(Elems(todo[..i]), blackList, sha);
          continue;
        }
        DistinctFresh(todo, i);
        ghost var done := Elems(todo[..i]) + blackList;
        var dropped := CollapseAbove(sha, rank, done, old(parents), old(children), old(dotdot));
        UnionRegroup(Elems(todo[..i]), blackList, dropped, sha);
        blackList := blackList + dropped;
      }
      assert todo[..|todo|] == todo;
      SettledAtSubset(parents, children, Labels(), dotdot, Elems(todo) + blackList, old(parents).Keys);
    }

    /** The ref nodes: every branch and tag target, whether or not it is a
        commit of the graph. */
    method RefNodeBlock(shaOnesOnLabels: bool, digits: Option<nat>) returns (block: seq<string>, ghost order: seq<Id>)
      ensures Enumerates(order, Labels())
      ensures block == LegacyRefLines(order, branches, tags, shaOnesOnLabels, digits)
      ensures |block| == |Labels()|
      ensures LinesCover(block, Labels(), k => LegacyRefNodeLine(k, branches, tags, shaOnesOnLabels, digits))
    {
      var keys := ListOf(branches.Keys + tags.Keys);
      block := LegacyRefBlock(keys, branches, tags, shaOnesOnLabels, digits);
      order := keys;
      var b, t := branches, tags;
      EnumeratedLines(order, Labels(), block, k => LegacyRefNodeLine(k, b, t, shaOnesOnLabels, digits));
    }

    /** The commits shown by shortened id: only for a width other than 40,
        and only unlabelled commits that are not `...` nodes. */
    function AbbreviatedNodes(digits: Option<nat>): set<Id>
      reads this
    {
      if digits.Some? && digits.value != 40 then set e | e in parents && !(HasLabel(e) || e in dotdot) else {}
    }

    /** With a width other than 40 every commit of the parent map gets a
        node of its own: a ref node, a `...` node or a shortened-id node, and
        no commit gets both a shortened-id node and one of the others. */
    lemma EveryCommitGetsANode(digits: Option<nat>)
      requires digits.Some? && digits.value != 40
      ensures parents.Keys <= Labels() + dotdot + AbbreviatedNodes(digits)
      ensures AbbreviatedNodes(digits) !! Labels() && AbbreviatedNodes(digits) !! dotdot
    {
    }

    /** `_generate_dot_file` of the older class: `digraph {`, the ref nodes,
        the `...` nodes, the shortened-id nodes and one line per edge, each
        block in some order with every member once, then `}`. */
    method GenerateDotFile(shaOnesOnLabels: bool, shaOneDigits: Option<nat> := None)
      returns (lines: seq<string>, ghost refOrder: seq<Id>, ghost dotOrder: seq<Id>,
               ghost abbrevOrder: seq<Id>, ghost edgeOrder: seq<(Id, Id)>)
      ensures Enumerates(refOrder, Labels()) && Enumerates(dotOrder, dotdot)
      ensures Enumerates(abbrevOrder, AbbreviatedNodes(shaOneDigits))
      ensures Enumerates(edgeOrder, EdgesOf(parents, parents.Keys))
      ensures lines == ["digraph {"] + LegacyRefLines(refOrder, branches, tags, shaOnesOnLabels, shaOneDigits)
                       + DotDotLines(dotOrder) + AbbrevLines(abbrevOrder, LegacyOptions(shaOnesOnLabels, shaOneDigits))
                       + EdgeLines(edgeOrder) + ["}"]
      ensures |lines| == 2 + |Labels()| + |dotdot| + |AbbreviatedNodes(shaOneDigits)| + |EdgesOf(parents, parents.Keys)|
      ensures var opts, b, t := LegacyOptions(shaOnesOnLabels, shaOneDigits), branches, tags;
              LinesCover(lines, Labels(), k => LegacyRefNodeLine(k, b, t, shaOnesOnLabels, shaOneDigits))
              && LinesCover(lines, dotdot, DotDotLine) && LinesCover(lines, AbbreviatedNodes(shaOneDigits), k => AbbrevLine(k, opts))
              && LinesCover(lines, EdgesOf(parents, parents.Keys), EdgeLine)
    {
      var refBlock, dotBlock, abbrevBlock, edgeBlock;
      refBlock, refOrder := RefNodeBlock(shaOnesOnLabels, shaOneDigits);
      dotBlock, dotOrder := DotDotBlock(dotdot);
      abbrevBlock, abbrevOrder := AbbrevBlock(AbbreviatedNodes(shaOneDigits), LegacyOptions(shaOnesOnLabels, shaOneDigits));
      edgeBlock, edgeOrder := EdgeBlock(parents);
      lines := ["digraph {"] + refBlock + dotBlock + abbrevBlock + edgeBlock + ["}"];
    }
  }
}
