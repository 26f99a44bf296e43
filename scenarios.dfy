/** A history from the test suite, worked through both generations of the
    class: the newer `filter` keeps a parent that is also a grandparent, the
    older `_remove_non_labels` drops it. */
module Scenarios {
  import opened Dag
  import opened CommitGraphs
  import opened Legacy

  /** The history of `test_parent_of_parent_loop`: the chain
      A-B-C-D-E-F with a side branch C-G merged into F. */
  function LoopHistory(): Graph
  {
    map["A" := {}, "B" := {"A"}, "C" := {"B"}, "D" := {"C"}, "E" := {"D"}, "G" := {"C"}, "F" := {"E", "G"}]
  }

  /** Its generations, counted from the root. */
  function LoopRank(): map<Id, nat>
  {
    map["A" := 0, "B" := 1, "C" := 2, "D" := 3, "E" := 4, "G" := 3, "F" := 5]
  }

  /** Tags 0.1 on A and 0.2 on D, branch master on F; A is also the root,
      so with the default filter these are the interesting commits. */
  function LoopLabels(): set<Id>
  {
    {"A", "D", "F"}
  }

  lemma LoopRanked()
    ensures Ranked(LoopHistory(), LoopRank())
  {
  }

  /** D reaches A through C and B, which carry no label. */
  lemma ReachDA(quiet: set<Id>)
    requires quiet <= LoopLabels()
    ensures QuietlyReaches(LoopHistory(), quiet, "D", "A")
  {
    var h, path := LoopHistory(), ["D", "C", "B", "A"];
    assert path[1] in h[path[0]] && path[2] in h[path[1]] && path[3] in h[path[2]];
    assert QuietPath(h, quiet, path);
  }

  /** F reaches D through E, and A through G, C and B. */
  lemma ReachFDA(quiet: set<Id>)
    requires quiet <= LoopLabels()
    ensures QuietlyReaches(LoopHistory(), quiet, "F", "D")
    ensures QuietlyReaches(LoopHistory(), quiet, "F", "A")
  {
    var h, toD, toA := LoopHistory(), ["F", "E", "D"], ["F", "G", "C", "B", "A"];
    assert toD[1] in h[toD[0]] && toD[2] in h[toD[1]];
    assert QuietPath(h, quiet, toD);
    assert toA[1] in h[toA[0]] && toA[2] in h[toA[1]] && toA[3] in h[toA[2]] && toA[4] in h[toA[3]];
    assert QuietPath(h, quiet, toA);
  }

  /** A label reaches only labels of a lower generation. */
  lemma ReachBelow(quiet: set<Id>, from: Id, x: Id)
    requires QuietlyReaches(LoopHistory(), quiet, from, x)
    ensures from in LoopRank() && x in LoopRank() && LoopRank()[x] < LoopRank()[from]
  {
    LoopRanked();
    QuietReachDescends(LoopHistory(), quiet, LoopRank(), from, x);
  }

  /** Which of the labels each label reaches, through commits outside
      `quiet` (the labels themselves for the filter, nothing for plain
      ancestry): A reaches none, D reaches A, F reaches A and D. */
  lemma LoopReach(quiet: set<Id>)
    requires quiet <= LoopLabels()
    ensures forall x :: x in LoopLabels() ==> (QuietlyReaches(LoopHistory(), quiet, "A", x) <==> false)
    ensures forall x :: x in LoopLabels() ==> (QuietlyReaches(LoopHistory(), quiet, "D", x) <==> x == "A")
    ensures forall x :: x in LoopLabels() ==> (QuietlyReaches(LoopHistory(), quiet, "F", x) <==> x == "A" || x == "D")
  {
    ReachDA(quiet);
    ReachFDA(quiet);
    forall x | x in LoopLabels() && QuietlyReaches(LoopHistory(), quiet, "A", x)
      ensures false
    {
      ReachBelow(quiet, "A", x);
    }
    forall x | x in LoopLabels() && QuietlyReaches(LoopHistory(), quiet, "D", x)
      ensures x == "A"
    {
      ReachBelow(quiet, "D", x);
    }
    forall x | x in LoopLabels() && QuietlyReaches(LoopHistory(), quiet, "F", x)
      ensures x == "A" || x == "D"
    {
      ReachBelow(quiet, "F", x);
    }
  }

  /** The test's refs: branch master on F, tags 0.1 on A and 0.2 on D. */
  function LoopBranches(): Refs
  {
    map["F" := {"master"}]
  }

  function LoopTags(): Refs
  {
    map["A" := {"0.1"}, "D" := {"0.2"}]
  }

  /** `filter()` with the defaults, on the test's history and refs, gives F
      both A and D as parents, though A is also D's parent: the filtered
      graph is not a transitive reduction. This is the expected map of the
      test. */
  lemma FilterKeepsGrandparent(g: CommitGraphs.CommitGraph)
    requires g.parents == LoopHistory() && g.branches == LoopBranches() && g.tags == LoopTags()
    ensures FilteredParents(g.parents, g.Interesting(DefaultBranches, DefaultTags, DefaultRoots, DefaultMerges,
                                                     DefaultBifurcations, []))
            == map["A" := {}, "D" := {"A"}, "F" := {"A", "D"}]
  {
    g.DefaultsKeepRefsAndRoots();
    assert g.Roots() == {"A"} by {
      assert g.parents["B"] != {} && g.parents["C"] != {} && g.parents["D"] != {};
      assert g.parents["E"] != {} && g.parents["F"] != {} && g.parents["G"] != {};
    }
    assert LoopBranches().Keys == {"F"} && LoopTags().Keys == {"A", "D"};
    assert g.Interesting(DefaultBranches, DefaultTags, DefaultRoots, DefaultMerges, DefaultBifurcations, [])
           == LoopLabels();
    FilterOnLoopLabels();
  }

  /** The filter on the loop history with the labels as the interesting set. */
  lemma FilterOnLoopLabels()
    ensures FilteredParents(LoopHistory(), LoopLabels()) == map["A" := {}, "D" := {"A"}, "F" := {"A", "D"}]
  {
    LoopReach(LoopLabels());
    var f := FilteredParents(LoopHistory(), LoopLabels());
    assert f["A"] == {};
    assert f["D"] == {"A"};
    assert f["F"] == {"A", "D"};
  }

  /** The labels above each label, for any history whose label ancestry
      is that of the loop history. */
  lemma LabelsAboveInLoop(h: Graph, labels: set<Id>, rank: map<Id, nat>)
    requires Ranked(h, rank) && labels == LoopLabels()
    requires forall x :: x in labels ==> (Ancestor(h, "A", x) <==> false)
    requires forall x :: x in labels ==> (Ancestor(h, "D", x) <==> x == "A")
    requires forall x :: x in labels ==> (Ancestor(h, "F", x) <==> x == "A" || x == "D")
    ensures LabelsAbove(h, labels, rank, "A") == {}
    ensures LabelsAbove(h, labels, rank, "D") == {"A"}
    ensures LabelsAbove(h, labels, rank, "F") == {"A", "D"}
  {
    LabelsAboveAreAncestors(h, labels, rank, "A");
    LabelsAboveAreAncestors(h, labels, rank, "D");
    LabelsAboveAreAncestors(h, labels, rank, "F");
  }

  /** One entry of the older class's reduction, read off the labels above
      each label. */
  lemma ReductionEntry(h: Graph, labels: set<Id>, rank: map<Id, nat>, l: Id, want: set<Id>)
    requires Ranked(h, rank) && l in labels
    requires forall x :: x in want <==>
               x in LabelsAbove(h, labels, rank, l) && forall z :: z in LabelsAbove(h, labels, rank, l) ==> x !in LabelsAbove(h, labels, rank, z)
    ensures l in LabelReduction(h, labels, rank) && LabelReduction(h, labels, rank)[l] == want
  {
    var r := LabelReduction(h, labels, rank);
    LabelReductionIsTransitiveReduction(h, labels, rank, l, l);
    forall x
      ensures x in r[l] <==> x in want
    {
      LabelReductionIsTransitiveReduction(h, labels, rank, l, x);
    }
  }

  /** A, the root, keeps no parent. */
  lemma ReducedAtA(h: Graph, labels: set<Id>, rank: map<Id, nat>)
    requires Ranked(h, rank) && labels == LoopLabels()
    requires LabelsAbove(h, labels, rank, "A") == {}
    requires LabelsAbove(h, labels, rank, "D") == {"A"}
    requires LabelsAbove(h, labels, rank, "F") == {"A", "D"}
    ensures "A" in LabelReduction(h, labels, rank) && LabelReduction(h, labels, rank)["A"] == {}
  {
    ReductionEntry(h, labels, rank, "A", {});
  }

  /** D keeps A. */
  lemma ReducedAtD(h: Graph, labels: set<Id>, rank: map<Id, nat>)
    requires Ranked(h, rank) && labels == LoopLabels()
    requires LabelsAbove(h, labels, rank, "A") == {}
    requires LabelsAbove(h, labels, rank, "D") == {"A"}
    requires LabelsAbove(h, labels, rank, "F") == {"A", "D"}
    ensures "D" in LabelReduction(h, labels, rank) && LabelReduction(h, labels, rank)["D"] == {"A"}
  {
    ReductionEntry(h, labels, rank, "D", {"A"});
  }

  /** F keeps D and loses A, which D already reaches. */
  lemma ReducedAtF(h: Graph, labels: set<Id>, rank: map<Id, nat>)
    requires Ranked(h, rank) && labels == LoopLabels()
    requires LabelsAbove(h, labels, rank, "A") == {}
    requires LabelsAbove(h, labels, rank, "D") == {"A"}
    requires LabelsAbove(h, labels, rank, "F") == {"A", "D"}
    ensures "F" in LabelReduction(h, labels, rank) && LabelReduction(h, labels, rank)["F"] == {"D"}
  {
    ReductionEntry(h, labels, rank, "F", {"D"});
  }

  /** A graph on A, D and F given entry by entry. */
  lemma LoopGraph(r: Graph)
    requires r.Keys == LoopLabels()
    requires r["A"] == {} && r["D"] == {"A"} && r["F"] == {"D"}
    ensures r == map["A" := {}, "D" := {"A"}, "F" := {"D"}]
  {
  }

  /** The transitive reduction of the label order A < D < F. */
  lemma ReductionInLoop(h: Graph, labels: set<Id>, rank: map<Id, nat>)
    requires Ranked(h, rank) && labels == LoopLabels()
    requires LabelsAbove(h, labels, rank, "A") == {}
    requires LabelsAbove(h, labels, rank, "D") == {"A"}
    requires LabelsAbove(h, labels, rank, "F") == {"A", "D"}
    ensures LabelReduction(h, labels, rank) == map["A" := {}, "D" := {"A"}, "F" := {"D"}]
  {
    ReducedAtA(h, labels, rank);
    ReducedAtD(h, labels, rank);
    ReducedAtF(h, labels, rank);
    LabelReductionIsTransitiveReduction(h, labels, rank, "A", "A");
    LoopGraph(LabelReduction(h, labels, rank));
  }

  /** `_remove_non_labels` of the older class on the same history and refs
      keeps only F's nearest label D: it reduces the label order
      transitively. */
  lemma RemoveNonLabelsDropsGrandparent(g: Legacy.CommitGraph)
    requires g.parents == LoopHistory() && g.branches == LoopBranches() && g.tags == LoopTags()
    ensures Ranked(g.parents, LoopRank())
    ensures LabelReduction(g.parents, g.Labels(), LoopRank()) == map["A" := {}, "D" := {"A"}, "F" := {"D"}]
  {
    assert g.Labels() == LoopLabels();
    ReductionOnLoopLabels();
  }

  /** The older reduction on the loop history with its labels. */
  lemma ReductionOnLoopLabels()
    ensures Ranked(LoopHistory(), LoopRank())
    ensures LabelReduction(LoopHistory(), LoopLabels(), LoopRank()) == map["A" := {}, "D" := {"A"}, "F" := {"D"}]
  {
    LoopRanked();
    LoopReach({});
    LabelsAboveInLoop(LoopHistory(), LoopLabels(), LoopRank());
    ReductionInLoop(LoopHistory(), LoopLabels(), LoopRank());
  }
}
