/** `CommitGraph` of `git_big_picture/_main.py`: the parent, child, branch
    and tag maps of a repository, the derived root, merge and bifurcation
    sets, the filter that keeps only interesting commits, and the Graphviz
    DOT serializer. */
module CommitGraphs {
  import opened Builtins
  import opened Dag

  /** Commit id -> names of the branches (or of the tags) pointing at it. */
  type Refs = map<Id, set<string>>

  // ---------------------------------------------------------------------
  // History direction and the DOT `rankdir` attribute

  datatype Direction = Downwards | Leftwards | Rightwards | Upwards

  /** `RANKDIR_OF_HISTORY_DIRECTION`. Edges point from a commit to its
      parent, against history, so history runs opposite to the arrows: the
      table picks, for each direction, the `rankdir` whose arrows run the
      other way. */
  function Rankdir(d: Direction): (r: string)
    ensures ArrowDirection(r) == Some(Opposite(d))
  {
    match d
    case Downwards => "BT"
    case Leftwards => "LR"
    case Rightwards => "RL"
    case Upwards => "TB"
  }

  function Opposite(d: Direction): Direction
  {
    match d
    case Downwards => Upwards
    case Upwards => Downwards
    case Leftwards => Rightwards
    case Rightwards => Leftwards
  }

  /** Where Graphviz points an edge's arrow (tail to head) for each value of
      the DOT `rankdir` attribute: ranks laid out top to bottom, bottom to
      top, left to right or right to left. */
  function ArrowDirection(rankdir: string): Option<Direction>
  {
    if rankdir == "TB" then Some(Downwards)
    else if rankdir == "BT" then Some(Upwards)
    else if rankdir == "LR" then Some(Rightwards)
    else if rankdir == "RL" then Some(Leftwards)
    else None
  }

  /** Opposite directions get mirrored `rankdir` values, and no two
      directions share one. */
  lemma RankdirMirrored(d: Direction, e: Direction)
    ensures Rankdir(Opposite(d)) == [Rankdir(d)[1], Rankdir(d)[0]]
    ensures Rankdir(d) == Rankdir(e) ==> d == e
  {
  }

  // ---------------------------------------------------------------------
  // FILTER_DEFAULTS

  const DefaultBranches := true
  const DefaultTags := true
  const DefaultRoots := true
  const DefaultMerges := false
  const DefaultBifurcations := false

  // ---------------------------------------------------------------------
  // What the filter computes

  /** The parent map the filter returns: each interesting commit mapped to
      the interesting commits it reaches without passing another one. */
  ghost function FilteredParents(parents: Graph, interesting: set<Id>): Graph
  {
    map i | i in interesting :: NearestInteresting(parents, interesting, i)
  }

  /** The search indexes `parents` for every uninteresting commit it
      reaches; a full repository's parent map, where every parent is a
      key, always allows this. */
  ghost predicate SearchSafe(parents: Graph, interesting: set<Id>)
  {
    forall c, p :: c in parents && p in parents[c] && p !in interesting ==> p in parents
  }

  /** Every filtered parent is interesting and therefore a key itself. */
  lemma FilteredParentsClosed(parents: Graph, interesting: set<Id>)
    ensures FilteredParents(parents, interesting).Keys == interesting
    ensures forall i, p :: i in FilteredParents(parents, interesting) && p in FilteredParents(parents, interesting)[i] ==>
              p in interesting
  {
  }

  /** Filtering a filtered graph with the same interesting set changes
      nothing: in the filtered graph every parent is interesting, so the
      search stops one step from where it starts. */
  lemma FilterIdempotent(parents: Graph, interesting: set<Id>)
    ensures FilteredParents(FilteredParents(parents, interesting), interesting) == FilteredParents(parents, interesting)
  {
    var f := FilteredParents(parents, interesting);
    var ff := FilteredParents(f, interesting);
    forall i | i in interesting
      ensures ff[i] == f[i]
    {
      forall p | p in f[i]
        ensures p in ff[i]
      {
        ParentIsQuietlyReached(f, interesting, i, p);
      }
      forall p | p in ff[i]
        ensures p in f[i]
      {
        OneStepInFiltered(f, interesting, i, p);
      }
    }
    MapsAgree(ff, f);
  }

  lemma OneStepInFiltered(f: Graph, interesting: set<Id>, i: Id, p: Id)
    requires forall k, q :: k in f && q in f[k] ==> q in interesting
    requires QuietlyReaches(f, interesting, i, p)
    ensures i in f && p in f[i]
  {
    var path :| QuietPath(f, interesting, path) && path[0] == i && path[|path| - 1] == p;
    assert path[1] in f[path[0]];
  }

  /** A root the filter keeps is a root of the filtered graph as well. */
  lemma RootStaysRoot(parents: Graph, interesting: set<Id>, r: Id)
    requires r in parents && parents[r] == {} && r in interesting
    ensures r in FilteredParents(parents, interesting) && FilteredParents(parents, interesting)[r] == {}
  {
    forall p | QuietlyReaches(parents, interesting, r, p)
      ensures false
    {
      QuietReachWithin(parents, interesting, r, {}, p);
    }
  }

  // ---------------------------------------------------------------------
  // DOT output: the pieces of each line

  /** Everything a label can show: ids on labels (all commits shown), the
      commit subject, and the width ids are cut to. `subject` stands for
      the `git log -1 --pretty=format:%s` lookup. */
  datatype LabelOptions = LabelOptions(
    shaOnesOnLabels: bool,
    withCommitMessages: bool,
    shaOneDigits: Option<nat>,
    subject: Id -> string)

  /** `format_sha_one`: the id itself when no width or the full width 40 is
      asked for, otherwise its first `digits` characters. */
  function FormatShaOne(sha: Id, digits: Option<nat>): (r: string)
    ensures r <= sha
    ensures |r| == if digits.None? || digits.value == 40 || digits.value >= |sha| then |sha| else digits.value
  {
    if digits.None? || digits.value == 40 then sha else Prefix(sha, digits.value)
  }

  /** `format_label`: the (shortened) id, then on a new line the subject
      with its quotes removed when messages are shown. */
  function FormatLabel(sha: Id, opts: LabelOptions): (r: string)
    ensures var id := FormatShaOne(sha, opts.shaOneDigits);
            |id| <= |r| && r[..|id|] == id
            && (!opts.withCommitMessages ==> r == id)
            && (opts.withCommitMessages ==>
                  |r| > |id| && r[|id|] == '\n' && forall i :: |id| < i < |r| ==> r[i] != '"' && r[i] != '\'')
  {
    if opts.withCommitMessages then
      var id, message := FormatShaOne(sha, opts.shaOneDigits), StripQuotes(opts.subject(sha));
      var r := id + "\n" + message;
      assert r[..|id|] == id;
      assert forall i :: |id| < i < |r| ==> r[i] == message[i - |id| - 1] && r[i] in message;
      r
    else FormatShaOne(sha, opts.shaOneDigits)
  }

  /** The ref names on a node: its sorted tags, then its sorted branches. */
  function RefNames(k: Id, branches: Refs, tags: Refs): seq<string>
  {
    (if k in tags then SortedNames(tags[k]) else []) + (if k in branches then SortedNames(branches[k]) else [])
  }

  /** The colour number: 1 for a tag, 2 for a branch, 3 for both. */
  function ColorCase(k: Id, branches: Refs, tags: Refs): nat
  {
    (if k in tags then 1 else 0) + (if k in branches then 2 else 0)
  }

  lemma ColorCaseDecodes(k: Id, branches: Refs, tags: Refs)
    requires k in branches || k in tags
    ensures 1 <= ColorCase(k, branches, tags) <= 3
    ensures k in tags <==> ColorCase(k, branches, tags) % 2 == 1
    ensures k in branches <==> ColorCase(k, branches, tags) >= 2
  {
  }

  /** The label of a ref node: the ref names, followed by the formatted id
      when ids or messages are shown, joined by the two characters `\n`,
      with every double quote escaped. */
  function RefLabel(k: Id, branches: Refs, tags: Refs, opts: LabelOptions): string
  {
    var parts := RefNames(k, branches, tags)
      + (if opts.withCommitMessages || opts.shaOnesOnLabels then [FormatLabel(k, opts)] else []);
    EscapeQuotes(Join("\\n", parts))
  }

  /** Graphviz reads the escaped label back as the joined ref names,
      followed by the formatted id when ids or messages are shown. */
  lemma RefLabelReadsBack(k: Id, branches: Refs, tags: Refs, opts: LabelOptions)
    ensures UnescapeQuotes(RefLabel(k, branches, tags, opts))
      == Join("\\n", RefNames(k, branches, tags)
           + (if opts.withCommitMessages || opts.shaOnesOnLabels then [FormatLabel(k, opts)] else []))
    ensures !opts.withCommitMessages && !opts.shaOnesOnLabels ==>
      UnescapeQuotes(RefLabel(k, branches, tags, opts)) == Join("\\n", RefNames(k, branches, tags))
  {
    assert RefNames(k, branches, tags) + [] == RefNames(k, branches, tags);
    EscapeRoundTrip(Join("\\n", RefNames(k, branches, tags)
      + (if opts.withCommitMessages || opts.shaOnesOnLabels then [FormatLabel(k, opts)] else [])));
  }

  /** No double quote in the label ends the quoted `label` attribute: each
      one follows a backslash. */
  lemma RefLabelQuotesEscaped(k: Id, branches: Refs, tags: Refs, opts: LabelOptions, i: nat)
    requires i < |RefLabel(k, branches, tags, opts)| && RefLabel(k, branches, tags, opts)[i] == '"'
    ensures i > 0 && RefLabel(k, branches, tags, opts)[i - 1] == '\\'
  {
    var parts := RefNames(k, branches, tags)
      + (if opts.withCommitMessages || opts.shaOnesOnLabels then [FormatLabel(k, opts)] else []);
    EscapedQuotesArePreceded(Join("\\n", parts), i);
  }

  function Digit(n: nat): char
    requires n < 10
  {
    ('0' as int + n) as char
  }

  /** A node or edge statement: a tab, the quoted first id, then the rest. */
  function Statement(head: Id, tail: string): string
  {
    "\t\"" + head + "\"" + tail
  }

  /** The Graphviz colour `/pastel13/<case>` of a ref node. */
  function Color(k: Id, branches: Refs, tags: Refs): string
  {
    var colorCase := ColorCase(k, branches, tags);
    "/pastel13/" + if colorCase < 10 then [Digit(colorCase)] else ""
  }

  function RefNodeLine(k: Id, branches: Refs, tags: Refs, opts: LabelOptions): string
  {
    Statement(k, "[label=\"" + RefLabel(k, branches, tags, opts) + "\", color=\"" + Color(k, branches, tags) + "\", style=filled];")
  }

  function DotDotLine(k: Id): string
  {
    Statement(k, "[label=\"...\"];")
  }

  function AbbrevLine(k: Id, opts: LabelOptions): string
  {
    Statement(k, "[label=\"" + FormatLabel(k, opts) + "\"];")
  }

  function EdgeLine(e: (Id, Id)): string
  {
    Statement(e.0, " -> \"" + e.1 + "\";")
  }

  function RankdirLines(historyDirection: Option<Direction>): seq<string>
  {
    if historyDirection.Some? then ["\trankdir=\"" + Rankdir(historyDirection.value) + "\";"] else []
  }

  function RefLines(order: seq<Id>, branches: Refs, tags: Refs, opts: LabelOptions): seq<string>
  {
    seq(|order|, i requires 0 <= i < |order| => RefNodeLine(order[i], branches, tags, opts))
  }

  function DotDotLines(order: seq<Id>): seq<string>
  {
    seq(|order|, i requires 0 <= i < |order| => DotDotLine(order[i]))
  }

  function AbbrevLines(order: seq<Id>, opts: LabelOptions): seq<string>
  {
    seq(|order|, i requires 0 <= i < |order| => AbbrevLine(order[i], opts))
  }

  function EdgeLines(order: seq<(Id, Id)>): seq<string>
  {
    seq(|order|, i requires 0 <= i < |order| => EdgeLine(order[i]))
  }

  /** The (child, parent) pairs of the commits in `among`. */
  function EdgesOf(parents: Graph, among: set<Id>): set<(Id, Id)>
  {
    set c, p | c in among && c in parents && p in parents[c] :: (c, p)
  }

  /** Statements about different quote-free ids are different lines. */
  lemma StatementsDistinct(order: seq<Id>, tails: seq<string>, lines: seq<string>)
    requires Distinct(order) && forall i :: 0 <= i < |order| ==> QuoteFree(order[i])
    requires |tails| == |order| && |lines| == |order|
    requires forall i :: 0 <= i < |order| ==> lines[i] == Statement(order[i], tails[i])
    ensures Distinct(lines)
  {
    forall i, j | 0 <= i < j < |lines|
      ensures lines[i] != lines[j]
    {
      if lines[i] == lines[j] {
        QuotedHeadInjective(order[i], order[j], tails[i], tails[j]);
      }
    }
  }

  /** One filled node per ref target, no line twice. */
  lemma RefLinesOnePerNode(order: seq<Id>, nodes: set<Id>, branches: Refs, tags: Refs, opts: LabelOptions)
    requires Enumerates(order, nodes) && forall k :: k in nodes ==> QuoteFree(k)
    ensures |RefLines(order, branches, tags, opts)| == |nodes|
    ensures Distinct(RefLines(order, branches, tags, opts))
  {
    EnumerationLength(order, nodes);
    var tails := seq(|order|, i requires 0 <= i < |order| =>
      "[label=\"" + RefLabel(order[i], branches, tags, opts) + "\", color=\"" + Color(order[i], branches, tags) + "\", style=filled];");
    forall i | 0 <= i < |order|
      ensures QuoteFree(order[i])
    {
      assert order[i] in Elems(order);
    }
    StatementsDistinct(order, tails, RefLines(order, branches, tags, opts));
  }

  /** One `...` node per id in `dotdot`, no line twice. */
  lemma DotDotLinesOnePerId(order: seq<Id>, ids: set<Id>)
    requires Enumerates(order, ids) && forall k :: k in ids ==> QuoteFree(k)
    ensures |DotDotLines(order)| == |ids|
    ensures Distinct(DotDotLines(order))
  {
    EnumerationLength(order, ids);
    forall i | 0 <= i < |order|
      ensures QuoteFree(order[i])
    {
      assert order[i] in Elems(order);
    }
    StatementsDistinct(order, seq(|order|, i => "[label=\"...\"];"), DotDotLines(order));
  }

  /** One shortened-id node per chosen commit, no line twice. */
  lemma AbbrevLinesOnePerNode(order: seq<Id>, nodes: set<Id>, opts: LabelOptions)
    requires Enumerates(order, nodes) && forall k :: k in nodes ==> QuoteFree(k)
    ensures |AbbrevLines(order, opts)| == |nodes|
    ensures Distinct(AbbrevLines(order, opts))
  {
    EnumerationLength(order, nodes);
    forall i | 0 <= i < |order|
      ensures QuoteFree(order[i])
    {
      assert order[i] in Elems(order);
    }
    var tails := seq(|order|, i requires 0 <= i < |order| => "[label=\"" + FormatLabel(order[i], opts) + "\"];");
    StatementsDistinct(order, tails, AbbrevLines(order, opts));
  }

  /** The parent read back from the tail of an edge statement. */
  lemma EdgeTailInjective(p: Id, q: Id)
    requires " -> \"" + p + "\";" == " -> \"" + q + "\";"
    ensures p == q
  {
    var s := " -> \"" + p + "\";";
    assert |p| == |q|;
    assert p == s[5..5 + |p|];
  }

  /** Exactly one `"child" -> "parent"` line per edge of the parent map. */
  lemma EdgeLinesOnePerEdge(order: seq<(Id, Id)>, edges: set<(Id, Id)>)
    requires Enumerates(order, edges) && forall e :: e in edges ==> QuoteFree(e.0)
    ensures |EdgeLines(order)| == |edges|
    ensures Distinct(EdgeLines(order))
    ensures forall e :: e in edges ==> EdgeLine(e) in EdgeLines(order)
  {
    EnumerationLength(order, edges);
    var lines := EdgeLines(order);
    forall i, j | 0 <= i < j < |order|
      ensures lines[i] != lines[j]
    {
      assert order[i] in Elems(order) && order[j] in Elems(order);
      if lines[i] == lines[j] {
        QuotedHeadInjective(order[i].0, order[j].0, " -> \"" + order[i].1 + "\";", " -> \"" + order[j].1 + "\";");
        EdgeTailInjective(order[i].1, order[j].1);
      }
    }
    forall e | e in edges
      ensures EdgeLine(e) in lines
    {
      var j :| 0 <= j < |order| && order[j] == e;
      assert lines[j] == EdgeLine(e);
    }
  }

  /** At the width `_minimal_sha_one_digits` picks, the shortened ids of
      full 40-character SHA-1s shown on the labels still tell commits apart. */
  lemma ShortIdsDistinct(keys: set<Id>, a: Id, b: Id)
    requires forall e :: e in keys ==> |e| == 40
    requires a in keys && b in keys
    requires FormatShaOne(a, Some(MinimalShaOneDigits(keys))) == FormatShaOne(b, Some(MinimalShaOneDigits(keys)))
    ensures a == b
  {
    ShaOneDigitsUnambiguous(keys);
  }

  // ---------------------------------------------------------------------
  // The class

  class CommitGraph {
    var parents: Graph
    var children: Graph
    const branches: Refs
    const tags: Refs
    var dotdot: set<Id>

    /** The child map is the transpose of the parent map. */
    ghost predicate Valid()
      reads this
    {
      children == Transpose(parents)
    }

    /** `__init__`: store the maps, derive the children and check them. */
    constructor (parentMap: Graph, branchDict: Refs, tagDict: Refs)
      ensures parents == parentMap && branches == branchDict && tags == tagDict && dotdot == {}
      ensures Valid()
      ensures ChildMappingVerified(parents, children)
    {
      parents := parentMap;
      branches := branchDict;
      tags := tagDict;
      dotdot := {};
      children := map[];
      new;
      CalculateChildMapping();
      TransposePassesCheck(parents);
    }

    /** `_calculate_child_mapping`. */
    method CalculateChildMapping()
      modifies this`children
      ensures children == AddChildren(old(children), parents, parents.Keys)
    {
      children := AddChildMapping(children, parents);
    }

    /** `_has_label`. */
    predicate HasLabel(sha: Id)
      reads this
    {
      sha in branches || sha in tags
    }

    /** `roots`: the commits without parents. */
    function Roots(): set<Id>
      reads this
    {
      set c | c in parents && parents[c] == {}
    }

    /** `merges`: the commits with more than one parent. */
    function Merges(): set<Id>
      reads this
    {
      set c | c in parents && |parents[c]| > 1
    }

    /** `bifurcations`: the commits with more than one child. */
    function Bifurcations(): set<Id>
      reads this
    {
      set p | p in children && |children[p]| > 1
    }

    /** Read off the parent map, a bifurcation is a commit that two
        different commits name as a parent. */
    lemma BifurcationsHaveTwoChildren(p: Id)
      requires Valid()
      ensures p in Bifurcations() <==> TwoChildren(parents, p)
    {
      assert Transposed(parents, children);
      TwoChildrenByTranspose(parents, children, p);
    }

    /** Read off the parent map, a merge is a commit with two different
        parents. */
    lemma MergesHaveTwoParents(c: Id)
      ensures c in Merges() <==> c in parents && exists a, b :: a in parents[c] && b in parents[c] && a != b
    {
      if c in Merges() {
        var a, b := TwoMembers(parents[c]);
      }
      if c in parents && exists a, b :: a in parents[c] && b in parents[c] && a != b {
        var a, b :| a in parents[c] && b in parents[c] && a != b;
        CardOfSubset({a, b}, parents[c]);
      }
    }

    /** In an acyclic history whose parents are all commits, following
        parents from any commit ends at a root: every commit is a root or
        has one among its ancestors. */
    lemma {:induction false} EveryCommitReachesRoot(c: Id, rank: map<Id, nat>) returns (r: Id)
      requires Closed(parents) && Ranked(parents, rank) && c in parents
      ensures r in Roots()
      ensures r == c || QuietlyReaches(parents, {}, c, r)
      decreases rank[c]
    {
      if parents[c] == {} {
        r := c;
      } else {
        var p :| p in parents[c];
        RankedEdge(parents, rank, c, p);
        r := EveryCommitReachesRoot(p, rank);
        var step := [c, p];
        assert QuietPath(parents, {}, step);
        if r == p {
          assert step[0] == c && step[1] == r;
        } else {
          var path :| QuietPath(parents, {}, path) && path[0] == p && path[|path| - 1] == r;
          var whole := [c] + path;
          forall k | 0 <= k < |whole| - 1
            ensures whole[k] in parents && whole[k + 1] in parents[whole[k]]
          {
            if k > 0 {
              assert whole[k] == path[k - 1] && whole[k + 1] == path[k];
            }
          }
          assert QuietPath(parents, {}, whole) && whole[0] == c && whole[|whole| - 1] == r;
        }
      }
    }

    /** `_has_label` on a commit of the graph: it is one of the ref nodes
        `label_gen` yields. */
    lemma HasLabelIsRefNode(k: Id)
      requires k in parents
      ensures HasLabel(k) <==> k in RefNodes()
    {
    }

    /** The interesting commits: the sources switched on, plus `additional`. */
    function Interesting(branchesOn: bool, tagsOn: bool, rootsOn: bool, mergesOn: bool, bifurcationsOn: bool,
                         additional: seq<Id>): set<Id>
      reads this
    {
      (if branchesOn then branches.Keys else {})
      + (if tagsOn then tags.Keys else {})
      + (if rootsOn then Roots() else {})
      + (if mergesOn then Merges() else {})
      + (if bifurcationsOn then Bifurcations() else {})
      + Elems(additional)
    }

    /** With `FILTER_DEFAULTS` the filter keeps the commits a branch or a
        tag points at and the root commits, and nothing else. */
    lemma DefaultsKeepRefsAndRoots()
      ensures Interesting(DefaultBranches, DefaultTags, DefaultRoots, DefaultMerges, DefaultBifurcations, [])
              == branches.Keys + tags.Keys + Roots()
    {
      ElemsEmpty<Id>([]);
    }

    /** Every commit of a switched-on kind is interesting, and nothing is
        interesting that is not a commit, a ref target or listed in
        `additional`. */
    lemma InterestingSources(k: Id, branchesOn: bool, tagsOn: bool, rootsOn: bool, mergesOn: bool,
                             bifurcationsOn: bool, additional: seq<Id>)
      ensures (branchesOn && k in branches) || (tagsOn && k in tags) || (rootsOn && k in Roots())
              || (mergesOn && k in Merges()) || (bifurcationsOn && k in Bifurcations()) || k in additional
              ==> k in Interesting(branchesOn, tagsOn, rootsOn, mergesOn, bifurcationsOn, additional)
      ensures k in Interesting(branchesOn, tagsOn, rootsOn, mergesOn, bifurcationsOn, additional)
              ==> k in branches || k in tags || k in parents || k in children || k in additional
    {
    }

    /** `filter`: a new graph over the interesting commits whose parents are
        the nearest interesting ancestors; the receiver is not changed. */
    method Filter(branchesOn: bool := DefaultBranches, tagsOn: bool := DefaultTags, rootsOn: bool := DefaultRoots,
                  mergesOn: bool := DefaultMerges, bifurcationsOn: bool := DefaultBifurcations,
                  additional: seq<Id> := [])
      returns (g: CommitGraph)
      requires SearchSafe(parents, Interesting(branchesOn, tagsOn, rootsOn, mergesOn, bifurcationsOn, additional))
      ensures fresh(g) && g.Valid()
      ensures g.parents == FilteredParents(parents, Interesting(branchesOn, tagsOn, rootsOn, mergesOn, bifurcationsOn, additional))
      ensures g.branches == branches && g.tags == tags && g.dotdot == {}
    {
      var interesting := Interesting(branchesOn, tagsOn, rootsOn, mergesOn, bifurcationsOn, additional);
      var commits := ListOf(interesting);
      var reachable: Graph := map[];
      var i := 0;
      while i < |commits|
        invariant 0 <= i <= |commits|
        invariant reachable.Keys == Elems(commits[..i])
        invariant forall k :: k in reachable ==> reachable[k] == NearestInteresting(parents, interesting, k)
      {
        var found := NearestInterestingParents(parents, interesting, commits[i]);
        ElemsPrefixStep(commits, i);
        reachable := reachable[commits[i] := found];
        i := i + 1;
      }
      assert commits[..i] == commits;
      MapsAgree(reachable, FilteredParents(parents, interesting));
      g := new CommitGraph(reachable, branches, tags);
    }

    /** The ref nodes `label_gen` yields: branch and tag targets that are
        commits of this graph. */
    function RefNodes(): set<Id>
      reads this
    {
      set k | k in branches.Keys + tags.Keys && (k in parents || k in children)
    }

    /** The commits that get a node showing their shortened id: only when
        a width other than 40 is given, and only unlabelled commits that are
        not `...` nodes. */
    function AbbreviatedNodes(digits: Option<nat>): set<Id>
      reads this
    {
      if digits.Some? && digits.value != 40 then set e | e in parents && !(HasLabel(e) || e in dotdot) else {}
    }

    /** Every (child, parent) pair of the parent map. */
    function Edges(): set<(Id, Id)>
      reads this
    {
      EdgesOf(parents, parents.Keys)
    }

    /** With a width other than 40 every commit of the parent map gets a
        node of its own: a ref node, a `...` node or a shortened-id node, and
        no commit gets both a shortened-id node and one of the others. */
    lemma EveryCommitGetsANode(digits: Option<nat>)
      requires digits.Some? && digits.value != 40
      ensures parents.Keys <= RefNodes() + dotdot + AbbreviatedNodes(digits)
      ensures AbbreviatedNodes(digits) !! RefNodes() && AbbreviatedNodes(digits) !! dotdot
    {
    }

    /** The filled, coloured node of each ref target. */
    method RefNodeBlock(opts: LabelOptions) returns (block: seq<string>, ghost order: seq<Id>)
      ensures Enumerates(order, RefNodes())
      ensures block == RefLines(order, branches, tags, opts)
      ensures |block| == |RefNodes()|
      ensures var b, t := branches, tags; LinesCover(block, RefNodes(), k => RefNodeLine(k, b, t, opts))
    {
      var keys := ListOf(RefNodes());
      block := [];
      for i := 0 to |keys|
        invariant |block| == i
        invariant forall j :: 0 <= j < i ==> block[j] == RefNodeLine(keys[j], branches, tags, opts)
      {
        block := block + [RefNodeLine(keys[i], branches, tags, opts)];
      }
      order := keys;
      var b, t := branches, tags;
      EnumeratedLines(order, RefNodes(), block, k => RefNodeLine(k, b, t, opts));
    }

    /** `_generate_dot_file`: the document opens with `digraph {`, may set
        `rankdir`, then lists the ref nodes, the `...` nodes, the
        shortened-id nodes and the edges, each block in some order with
        every member once, and closes with `}`. */
    method GenerateDotFile(shaOnesOnLabels: bool, withCommitMessages: bool, subject: Id -> string,
                           shaOneDigits: Option<nat> := None, historyDirection: Option<Direction> := None)
      returns (lines: seq<string>, ghost refOrder: seq<Id>, ghost dotOrder: seq<Id>,
               ghost abbrevOrder: seq<Id>, ghost edgeOrder: seq<(Id, Id)>)
      ensures Enumerates(refOrder, RefNodes()) && Enumerates(dotOrder, dotdot)
      ensures Enumerates(abbrevOrder, AbbreviatedNodes(shaOneDigits)) && Enumerates(edgeOrder, Edges())
      ensures var opts := LabelOptions(shaOnesOnLabels, withCommitMessages, shaOneDigits, subject);
              lines == ["digraph {"] + RankdirLines(historyDirection)
                       + RefLines(refOrder, branches, tags, opts) + DotDotLines(dotOrder)
                       + AbbrevLines(abbrevOrder, opts) + EdgeLines(edgeOrder) + ["}"]
      ensures |lines| == 2 + |RankdirLines(historyDirection)| + |RefNodes()| + |dotdot|
                         + |AbbreviatedNodes(shaOneDigits)| + |Edges()|
      ensures var opts, b, t := LabelOptions(shaOnesOnLabels, withCommitMessages, shaOneDigits, subject), branches, tags;
              LinesCover(lines, RefNodes(), k => RefNodeLine(k, b, t, opts)) && LinesCover(lines, dotdot, DotDotLine)
              && LinesCover(lines, AbbreviatedNodes(shaOneDigits), k => AbbrevLine(k, opts)) && LinesCover(lines, Edges(), EdgeLine)
    {
      var opts := LabelOptions(shaOnesOnLabels, withCommitMessages, shaOneDigits, subject);
      lines := ["digraph {"];
      if historyDirection.Some? {
        lines := lines + ["\trankdir=\"" + Rankdir(historyDirection.value) + "\";"];
      }
      assert lines == ["digraph {"] + RankdirLines(historyDirection);
      var refBlock, dotBlock, abbrevBlock, edgeBlock;
      refBlock, refOrder := RefNodeBlock(opts);
      dotBlock, dotOrder := DotDotBlock(dotdot);
      abbrevBlock, abbrevOrder := AbbrevBlock(AbbreviatedNodes(shaOneDigits), opts);
      edgeBlock, edgeOrder := EdgeBlock(parents);
      lines := lines + refBlock + dotBlock + abbrevBlock + edgeBlock + ["}"];
    }
  }

  // ---------------------------------------------------------------------
  // DOT output: the blocks shared by both generations of the class

  /** The `...` node of each id in `dotdot`. */
  method DotDotBlock(dotdot: set<Id>) returns (block: seq<string>, ghost order: seq<Id>)
    ensures Enumerates(order, dotdot)
    ensures block == DotDotLines(order)
    ensures |block| == |dotdot| && LinesCover(block, dotdot, DotDotLine)
  {
    var keys := ListOf(dotdot);
    block := [];
    for i := 0 to |keys|
      invariant |block| == i
      invariant forall j :: 0 <= j < i ==> block[j] == DotDotLine(keys[j])
    {
      block := block + [DotDotLine(keys[i])];
    }
    order := keys;
    EnumeratedLines(order, dotdot, block, DotDotLine);
  }

  /** The shortened-id node of each of `nodes` (none unless a width
      other than 40 is given, see `AbbreviatedNodes`). */
  method AbbrevBlock(nodes: set<Id>, opts: LabelOptions) returns (block: seq<string>, ghost order: seq<Id>)
    ensures Enumerates(order, nodes)
    ensures block == AbbrevLines(order, opts)
    ensures |block| == |nodes| && LinesCover(block, nodes, k => AbbrevLine(k, opts))
  {
    var keys := ListOf(nodes);
    block := [];
    for i := 0 to |keys|
      invariant |block| == i
      invariant forall j :: 0 <= j < i ==> block[j] == AbbrevLine(keys[j], opts)
    {
      block := block + [AbbrevLine(keys[i], opts)];
    }
    order := keys;
    EnumeratedLines(order, nodes, block, k => AbbrevLine(k, opts));
  }

  /** One edge line for each parent of each commit. */
  method EdgeBlock(parents: Graph) returns (block: seq<string>, ghost order: seq<(Id, Id)>)
    ensures Enumerates(order, EdgesOf(parents, parents.Keys))
    ensures block == EdgeLines(order)
    ensures |block| == |EdgesOf(parents, parents.Keys)|
    ensures LinesCover(block, EdgesOf(parents, parents.Keys), EdgeLine)
  {
    var commits := ListOf(parents.Keys);
    block := [];
    order := [];
    ElemsEmpty(commits[..0]);
    for i := 0 to |commits|
      invariant Enumerates(order, EdgesOf(parents, Elems(commits[..i])))
      invariant block == EdgeLines(order)
    {
      var c := commits[i];
      assert c in parents by { assert c in Elems(commits); }
      DistinctFresh(commits, i);
      var ps := ListOf(parents[c]);
      ghost var done := EdgesOf(parents, Elems(commits[..i]));
      ElemsEmpty(ps[..0]);
      for k := 0 to |ps|
        invariant Distinct(order)
        invariant Elems(order) == done + PairsWith(c, Elems(ps[..k]))
        invariant block == EdgeLines(order)
      {
        EdgeIsNew(parents, Elems(commits[..i]), c, ps, k);
        DistinctSnoc(order, (c, ps[k]));
        ElemsConcat(order, [(c, ps[k])]);
        ElemsPrefixStep(ps, k);
        EdgeLinesSnoc(order, (c, ps[k]));
        block := block + [EdgeLine((c, ps[k]))];
        order := order + [(c, ps[k])];
      }
      assert ps[..|ps|] == ps;
      EdgesOfStep(parents, commits, i);
    }
    assert commits[..|commits|] == commits;
    EnumeratedLines(order, EdgesOf(parents, parents.Keys), block, EdgeLine);
  }

  /** The pairs (c, p) for each p in `ps`. */
  function PairsWith(c: Id, ps: set<Id>): set<(Id, Id)>
  {
    set p | p in ps :: (c, p)
  }

  lemma EdgeIsNew(parents: Graph, done: set<Id>, c: Id, ps: seq<Id>, k: nat)
    requires c !in done && Distinct(ps) && k < |ps|
    ensures (c, ps[k]) !in EdgesOf(parents, done) + PairsWith(c, Elems(ps[..k]))
  {
    DistinctFresh(ps, k);
  }

  lemma EdgesOfStep(parents: Graph, commits: seq<Id>, i: nat)
    requires i < |commits| && commits[i] in parents
    ensures EdgesOf(parents, Elems(commits[..i + 1]))
         == EdgesOf(parents, Elems(commits[..i])) + PairsWith(commits[i], parents[commits[i]])
  {
    ElemsPrefixStep(commits, i);
  }

  lemma EdgeLinesSnoc(order: seq<(Id, Id)>, e: (Id, Id))
    ensures EdgeLines(order + [e]) == EdgeLines(order) + [EdgeLine(e)]
  {
  }

  /** Two different commits name `p` as a parent. */
  ghost predicate TwoChildren(parents: Graph, p: Id)
  {
    exists a, b :: a in parents && b in parents && a != b && p in parents[a] && p in parents[b]
  }

  lemma TwoChildrenByTranspose(parents: Graph, children: Graph, p: Id)
    requires Transposed(parents, children)
    ensures (p in children && |children[p]| > 1) <==> TwoChildren(parents, p)
  {
    if p in children && |children[p]| > 1 {
      var a, b := TwoMembers(children[p]);
      assert p in parents[a] && p in parents[b];
    }
    if TwoChildren(parents, p) {
      var a, b :| a in parents && b in parents && a != b && p in parents[a] && p in parents[b];
      assert a in children[p] && b in children[p];
      CardOfSubset({a, b}, children[p]);
    }
  }

  lemma TwoMembers(s: set<Id>) returns (a: Id, b: Id)
    requires |s| > 1
    ensures a in s && b in s && a != b
  {
    a :| a in s;
    assert |s - {a}| > 0;
    b :| b in s - {a};
  }

  lemma CardOfSubset(a: set<Id>, b: set<Id>)
    requires a <= b
    ensures |a| <= |b|
  {
    assert b == a + (b - a);
  }
}
