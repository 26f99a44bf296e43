# git-big-picture's commit graph, modelled in Dafny

git-big-picture draws the shape of a git repository's history. It reads the
parent map of every commit and the branches and tags that point at commits.
It keeps only the "interesting" commits: ref targets, roots, merges,
bifurcations and any extra ones the user names. Then it writes the reduced
graph as Graphviz DOT text. This project models the class that does this,
`CommitGraph`, in both of its generations:

- `git_big_picture/_main.py` (module `CommitGraphs`):
  - the child map and its check;
  - the `roots`, `merges` and `bifurcations` properties;
  - `filter`, which connects each interesting commit to the nearest
    interesting commits above it;
  - the minimal id width;
  - the DOT serializer, with `RANKDIR_OF_HISTORY_DIRECTION` and
    `FILTER_DEFAULTS`;
  - the helpers `set_settings` and `guess_format_from_filename`
    (module `Settings`).
- `git_big_picture/main.py` (module `Legacy`): the older Python 2 class.
  - `_remove_non_labels` reduces the graph to the transitive reduction of
    the order between labelled commits.
  - `_remove_linear_runs` collapses each run of unlabelled single-parent,
    single-child commits into one `...` node.
  - It also has its own DOT serializer.

The shared parts are in module `Dag`: the child map as the transpose of the
parent map, the check on the child map, reachability through unimportant
commits, the worklist search both generations use, and the minimal id
width. Module `Builtins` holds the Python built-ins the code relies on, as
far as they matter here:
- `sorted` on strings;
- `str.join`;
- `str.replace` for quotes;
- slicing;
- iteration over a set.

Module `Scenarios` works through the history of `test_parent_of_parent_loop`
from the test suite with both generations.

Maps and sets of the source are Dafny `map`s and `set`s. Lists the source
treats as sets (the `interesting` list, the children sets) are sets.

Each class whose methods update fields in place is a Dafny `class`:
- `parents`, `children` and `dotdot` are fields that the methods reassign;
- `branches` and `tags` are `const`, because no method reassigns them.

Loops of the source are `while`/`for` loops with invariants. Each is proved
against a specification function:
- `AddChildren`/`Transpose` for the child map;
- `NearestInteresting` for the filter's search;
- `LabelReduction` for `_remove_non_labels`;
- `Chain`, `CollapseParents`, `CollapseChildren` and `Shrunk` for
  `_remove_linear_runs`;
- the line functions for the serializers.

Where the source iterates over a set or dict, the model leaves the order
open. The order comes back as a ghost sequence that lists every member once
(`Enumerates`).

Git histories have no cycles, and the recursive parts depend on that. The
model states it with a ghost `rank` map that puts every parent below its
child (`Dag.Ranked`).

## Model

| member | source | states |
|---|---|---|
| Builtins.SortedNames | git_big_picture/_main.py:954 | the sorted list of a set of ref names holds each name once and is strictly increasing in Python's string order |
| Builtins.SortedListingUnique | git_big_picture/_main.py:954-957 | two strictly sorted lists of the same names are equal, so `sorted` has exactly one possible result |
| Builtins.BelowTotal | git_big_picture/_main.py:954 | Python's string order is total: two different strings are ordered one way or the other |
| Builtins.BelowTransitive | git_big_picture/_main.py:954 | Python's string order is transitive |
| Builtins.Join | git_big_picture/_main.py:967-969 | joining no parts gives the empty string, and joining one part gives that part |
| Builtins.JoinAppend | git_big_picture/_main.py:967-969 | joining one more part appends the separator and that part |
| Builtins.EscapeRoundTrip | git_big_picture/_main.py:970 | reading the escaped label back (a backslash-quote becomes a quote) gives the label before escaping |
| Builtins.EscapedQuotesArePreceded | git_big_picture/_main.py:970 | every double quote in an escaped label directly follows a backslash, so none ends the DOT string |
| Builtins.StripQuotes | git_big_picture/_main.py:942 | the stripped commit message holds exactly the characters of the message other than the two quote characters; a single character is dropped exactly when it is a quote |
| Builtins.StripQuotesConcat | git_big_picture/_main.py:942 | stripping quotes works character by character: stripping a concatenation is stripping each part, so order and repeats of the other characters are kept |
| Builtins.StripQuotesKeepsPlainText | git_big_picture/_main.py:942 | a message without quotes is left unchanged |
| Builtins.Prefix | git_big_picture/_main.py:937 | the slice `sha_one[0:d]` is a prefix of the id, of length d, or the whole id when it is shorter |
| Builtins.ListOf | git_big_picture/_main.py:786 | iterating over a set visits each member once |
| Dag.Transpose | git_big_picture/_main.py:784-792 | the child map lists `c` under `p` exactly when `p` is a parent of `c`; its keys are the commits plus every parent named |
| Dag.TransposeOfClosed | git_big_picture/_main.py:784-792 | when every parent is itself a commit, the child map has the same keys as the parent map |
| Dag.AddChildEdges | git_big_picture/_main.py:787-790 | the inner loop adds `c` to the children of each of its parents, creating missing entries |
| Dag.AddChildMapping | git_big_picture/_main.py:784-792 | the whole loop adds, on top of the child map that is there, every child edge and an entry for every commit |
| Dag.AddChildrenStep | git_big_picture/_main.py:786-792 | handling one more commit adds exactly that commit's child edges and its own entry |
| Dag.TransposePassesCheck | git_big_picture/_main.py:794-804 | a child map computed from the parent map passes every assertion of `_verify_child_mapping` |
| Dag.CheckMissesLostChildEdge | git_big_picture/_main.py:794-804 | the check as written accepts a child map that lacks the child edge of a parent edge (see Findings) |
| Dag.MirrorsIsTransposed | git_big_picture/_main.py:794-796 | the check the docstring describes (every edge recorded both ways), plus an entry for every commit, holds exactly for the transposed child map |
| Dag.ParentIsQuietlyReached | git_big_picture/_main.py:878 | every direct parent is reached by the search |
| Dag.QuietReachDescends | git_big_picture/_main.py:886-897 | in an acyclic history the search only reaches commits of a lower generation, so a commit never reaches itself |
| Dag.NearestInterestingParents | git_big_picture/_main.py:875-897 | the worklist search returns exactly the interesting commits that can be reached through parents without passing another interesting commit |
| Dag.QuietReachSet | git_big_picture/_main.py:886-897 | the commits the search can reach form a set closed under the parents of uninteresting commits |
| Dag.SearchComplete | git_big_picture/_main.py:886-897 | once the worklist is empty, the interesting commits seen are all the nearest interesting ones |
| Dag.PrefixCountIsInjectivity | git_big_picture/_main.py:907 | the number of distinct prefixes equals the number of commits exactly when no two commits share a prefix of that width |
| Dag.DigitsFrom | git_big_picture/_main.py:906-909 | the loop returns the first width from `start` at which the prefixes are all distinct, or 40 |
| Dag.MinimalShaOneDigits | git_big_picture/_main.py:902-909 | the width is between 7 and 40, makes all prefixes distinct when below 40, and no smaller width from 7 does; `git_big_picture/main.py:467-474` is the same loop |
| Dag.ShaOneDigitsUnambiguous | git_big_picture/_main.py:902-909 | for 40-character ids, the chosen width never makes two commits look the same |
| CommitGraphs.Rankdir | git_big_picture/_main.py:108-115 | since edges point from child to parent, the `rankdir` code of a history direction lays edges out in the opposite direction, so history runs in the named one |
| CommitGraphs.RankdirMirrored | git_big_picture/_main.py:110-115 | opposite directions get reversed `rankdir` codes, and no two directions share a code |
| CommitGraphs.CommitGraph.DefaultsKeepRefsAndRoots | git_big_picture/_main.py:75-81 | with the filter defaults, exactly the branch targets, tag targets and roots are interesting |
| CommitGraphs.FilteredParentsClosed | git_big_picture/_main.py:873-900 | the filtered graph's commits are the interesting ones, and every parent it lists is one of them |
| CommitGraphs.FilterIdempotent | git_big_picture/_main.py:821-900 | filtering the filtered graph again with the same interesting commits changes nothing |
| CommitGraphs.OneStepInFiltered | git_big_picture/_main.py:892-894 | in a filtered graph, every interesting commit the search reaches is a direct parent |
| CommitGraphs.RootStaysRoot | git_big_picture/_main.py:806-809 | a root that is kept stays a root, with no parents, after filtering |
| CommitGraphs.CommitGraph.EveryCommitReachesRoot | git_big_picture/_main.py:806-809 | in an acyclic history with every parent a commit, every commit is a root or reaches one through parents |
| CommitGraphs.CommitGraph.MergesHaveTwoParents | git_big_picture/_main.py:811-814 | a commit is a merge exactly when it has two different parents |
| CommitGraphs.CommitGraph.HasLabelIsRefNode | git_big_picture/_main.py:773-782 | a commit has a label exactly when a branch or a tag points at it, which is when it gets a ref node |
| CommitGraphs.CommitGraph.InterestingSources | git_big_picture/_main.py:857-872 | each switched-on kind (branch and tag targets, roots, merges, bifurcations) and each additional id is interesting; every interesting id is a ref target, a commit or an additional id |
| CommitGraphs.CommitGraph.BifurcationsHaveTwoChildren | git_big_picture/_main.py:816-819 | a commit is a bifurcation exactly when two different commits name it as a parent |
| CommitGraphs.CommitGraph.constructor | git_big_picture/_main.py:762-771 | the graph stores the maps, starts with no `...` commits, and its child map is the transpose and passes the check |
| CommitGraphs.CommitGraph.CalculateChildMapping | git_big_picture/_main.py:784-792 | the child map gains every child edge on top of what it held |
| CommitGraphs.CommitGraph.Filter | git_big_picture/_main.py:821-900 | the result is a new graph with the same refs, no `...` commits and a valid child map, whose parents are each interesting commit's nearest interesting ancestors |
| CommitGraphs.ColorCaseDecodes | git_big_picture/_main.py:951-959 | the colour number is 1 to 3, odd exactly for tag targets and at least 2 exactly for branch targets |
| CommitGraphs.RefLabelReadsBack | git_big_picture/_main.py:966-970 | for every option setting, Graphviz reads the escaped label back as the tag names, then the branch names, then the formatted id when ids or messages are shown, joined by `\n`; with neither shown, just the joined ref names |
| CommitGraphs.RefLabelQuotesEscaped | git_big_picture/_main.py:966-972 | every double quote in a ref label follows a backslash, so none ends the quoted `label` attribute |
| CommitGraphs.RefLinesOnePerNode | git_big_picture/_main.py:947-972 | one node statement per ref target, no two alike |
| CommitGraphs.DotDotLinesOnePerId | git_big_picture/_main.py:973-974 | one `...` node statement per collapsed commit, no two alike |
| CommitGraphs.AbbrevLinesOnePerNode | git_big_picture/_main.py:975-979 | one shortened-id node statement per unlabelled commit, no two alike |
| CommitGraphs.EdgeLinesOnePerEdge | git_big_picture/_main.py:980-982 | one edge statement per parent edge, every edge present and no two alike |
| CommitGraphs.ShortIdsDistinct | git_big_picture/_main.py:932-937 | ids cut to the minimal width never clash |
| CommitGraphs.FormatShaOne | git_big_picture/_main.py:932-937 | the shown id is a prefix of the commit id, cut to the width unless no width or 40 is given or the id is shorter |
| CommitGraphs.FormatLabel | git_big_picture/_main.py:939-945 | the label is the shown id, followed, only when commit messages are asked for, by a newline and a message free of quotes |
| CommitGraphs.CommitGraph.EveryCommitGetsANode | git_big_picture/_main.py:947-979 | with a width other than 40, every commit gets a ref node, a `...` node or a shortened-id node, and the shortened ones are neither ref targets nor `...` commits |
| CommitGraphs.CommitGraph.RefNodeBlock | git_big_picture/_main.py:947-972 | the ref-node block is the node line of each ref target, in some order that lists each once; it has exactly one line per ref target and contains each target's line |
| CommitGraphs.DotDotBlock | git_big_picture/_main.py:973-974 | the `...` block is the line of each collapsed commit, in some order that lists each once; one line per collapsed commit, each one's line present |
| CommitGraphs.AbbrevBlock | git_big_picture/_main.py:975-979 | the shortened-id block is the line of each given commit, in some order that lists each once; one line per commit, each one's line present |
| CommitGraphs.EdgeBlock | git_big_picture/_main.py:980-982 | the edge block is one line per (child, parent) pair of the parent map, in some order that lists each once; its length is the number of pairs and every pair's line is in it |
| CommitGraphs.CommitGraph.GenerateDotFile | git_big_picture/_main.py:911-984 | the document is `digraph {`, the optional `rankdir`, the ref, `...`, shortened-id and edge blocks, then `}`; it has two lines more than the rankdir line, ref targets, collapsed commits, shortened commits and edges together, and contains the line of each of them |
| Settings.LastSetIsLatest | git_big_picture/_main.py:543-557 | a setting takes the value of the last source that gives one and that is not followed by another that does; it is `None` exactly when no source gives one |
| Settings.Precedence | git_big_picture/_main.py:543 | the command line beats the configuration, which beats the defaults |
| Settings.SetSettings | git_big_picture/_main.py:521-561 | the output has one entry per setting, holding the value from the latest source that sets it, with absent sources skipped |
| Settings.TextAfterLastDot | git_big_picture/_main.py:480 | the text after the last dot is a suffix of the name, holds no dot, and follows a dot when the name has one |
| Settings.GuessFormatFromFilename | git_big_picture/_main.py:463-482 | the name has a suffix exactly when it holds a dot, and then the guess is the text after the last dot, which holds no dot |
| Settings.GuessFormatFindsExtension | git_big_picture/_main.py:463-482 | a name `base.ext` gives `(True, ext)` and a name without a dot gives `(False, None)` |
| Legacy.CommitGraph.constructor | git_big_picture/main.py:43-51 | the older graph stores the maps, starts with no `...` commits, and its child map is the transpose and passes the check |
| Legacy.CommitGraph.CalculateChildMapping | git_big_picture/main.py:64-72 | the child map gains every child edge on top of what it held |
| Legacy.CommitGraph.HasLabelIsLabel | git_big_picture/main.py:53-62 | a commit has a label exactly when it is a branch or tag target |
| Legacy.ReachableLabeledParents | git_big_picture/main.py:428-448 | step 1 maps each label to the labels it reaches without passing another label |
| Legacy.StepOneIsDag | git_big_picture/main.py:428-448 | the step-1 graph between labels is acyclic, ranked by the history's own generations |
| Legacy.Recurse | git_big_picture/main.py:396-426 | `recurse` returns every label reachable from `commit` in the step-1 graph, plus `commit`, and its memo only ever holds such full answers |
| Legacy.ReachedTransitive | git_big_picture/main.py:396-426 | what a label reaches, it reaches through every label it reaches |
| Legacy.ReachedIrreflexive | git_big_picture/main.py:396-426 | no label reaches itself, so `recurse` ends |
| Legacy.SeenCommits | git_big_picture/main.py:450-453 | step 2 maps every label to all the labels it reaches |
| Legacy.RemoveEach | git_big_picture/main.py:460-462 | the inner loop of step 3 removes from the label's set exactly the listed labels |
| Legacy.ReduceLabel | git_big_picture/main.py:459-462 | for one label, step 3 removes everything listed under the labels it lists, and changes no other label |
| Legacy.StepThreeRemovesIndirect | git_big_picture/main.py:455-462 | a label reached through another reached label is removed, whatever step 3 did to other labels first |
| Legacy.StepThreeKeepsDirect | git_big_picture/main.py:455-462 | a label reached through no other reached label is kept |
| Legacy.StepThreeReduces | git_big_picture/main.py:455-462 | what step 3 leaves for a label is exactly its direct parents in the label order |
| Legacy.ReduceAll | git_big_picture/main.py:455-462 | step 3 over all labels gives each label exactly its direct parents in the label order |
| Legacy.LabelsAboveAreAncestors | git_big_picture/main.py:371-453 | the labels step 2 records for a label are exactly the labelled ancestors of that commit |
| Legacy.LabelReductionIsTransitiveReduction | git_big_picture/main.py:371-465 | the new parent map keeps a labelled ancestor exactly when no other labelled ancestor lies between: the transitive reduction |
| Legacy.LabelReductionKeepsReach | git_big_picture/main.py:455-465 | every labelled ancestor is still reached through a kept parent, so the reduction loses no ancestry |
| Legacy.CommitGraph.RemoveNonLabels | git_big_picture/main.py:371-465 | the parent map becomes the label reduction of the old one; the child map is recomputed on top of the old one |
| Legacy.ChainSnoc | git_big_picture/main.py:102-107 | the walk may step to the one parent of a linear commit and stay a chain |
| Legacy.CommitGraph.Walk | git_big_picture/main.py:92-107 | the walk from a commit through one of its parents passes only unlabelled commits with one parent and one child, and stops at the first commit that is not one |
| Legacy.InteriorIsLinear | git_big_picture/main.py:115 | every commit to delete is unlabelled, with one parent and one child |
| Legacy.CommitGraph.CollapseRun | git_big_picture/main.py:113-128 | the run's first commit gets the run's end as its parent, the end gets it as a child, and the commits in between are deleted from both maps |
| Legacy.CollapseKeys | git_big_picture/main.py:125-128 | a collapse deletes exactly the commits strictly inside the run |
| Legacy.CollapseTransposed | git_big_picture/main.py:120-128 | after a collapse the child map is still the transpose of the parent map |
| Legacy.CollapseRanked | git_big_picture/main.py:120-121 | the new edge keeps the history acyclic |
| Legacy.CollapseDegrees | git_big_picture/main.py:120-123 | every commit that survives a collapse keeps its number of parents and of children |
| Legacy.CollapseKeepsLinked | git_big_picture/main.py:113-128 | a collapse keeps the maps each other's transpose over the same commits, acyclic, with degrees kept |
| Legacy.RunStartKept | git_big_picture/main.py:92-128 | the walk's starting commit survives its own collapse with its parents unchanged |
| Legacy.CollapseStep | git_big_picture/main.py:113-128 | one collapse keeps the maps linked and acyclic and deletes only linear unlabelled commits; the only new `...` commit is the run's first commit |
| Legacy.ShrunkTrans | git_big_picture/main.py:89-128 | the effect of successive collapses composes |
| Legacy.ShrunkResult | git_big_picture/main.py:130 | intersecting `dotdot` with the surviving commits leaves only `...` commits that exist and were linear and unlabelled |
| Legacy.CommitGraph.CollapseWalk | git_big_picture/main.py:92-128 | one walk from a commit through its parent `p` stops at a commit that is not linear; a walk of two commits changes nothing, and a longer one leaves exactly the collapsed maps, adds `p` to `dotdot` and blacklists `p` and the commits strictly inside the walk; the maps stay linked and acyclic and the starting commit keeps its parents |
| Legacy.RunSettlesStart | git_big_picture/main.py:113-124 | after a collapse the run's first commit is a `...` commit whose one parent, the run's end, is not linear |
| Legacy.CollapseKeepsLinearity | git_big_picture/main.py:113-128 | a commit that survives a collapse is linear afterwards exactly when it was linear before |
| Legacy.CollapseKeepsSettled | git_big_picture/main.py:92-128 | a collapse keeps every settled commit settled (each linear parent is a `...` commit whose parent is not linear) and settles the commits it blacklists |
| Legacy.WalkKeepsSettled | git_big_picture/main.py:92-128 | one walk, collapsed or not, leaves its parent `p` settled and keeps what was settled |
| Legacy.AllSettled | git_big_picture/main.py:86-130 | once every commit is settled, each linear commit left is a `...` commit whose parent and child are not linear |
| Legacy.ShrunkLinear | git_big_picture/main.py:92-128 | a commit that survives the collapses so far is linear exactly when it was linear at the start |
| Legacy.InteriorNotHead | git_big_picture/main.py:102-115 | a commit strictly inside a run has a linear child, so it is never a run head |
| Legacy.CollapseKeepsHeads | git_big_picture/main.py:113-128 | one collapse deletes no run head and leaves the children of every linear commit as they were |
| Legacy.HeadStaysHead | git_big_picture/main.py:92-128 | a run head of the start is still a run head after the collapses so far |
| Legacy.KeepsHeadsTrans | git_big_picture/main.py:89-128 | keeping the heads composes over successive stretches of the pass |
| Legacy.HeadsSurvive | git_big_picture/main.py:86-130 | at the end of the pass every run head of the start is still present and still linear |
| Legacy.CommitGraph.CollapseAbove | git_big_picture/main.py:92-128 | collapsing above each parent of a commit keeps the same invariants relative to the maps the pass started from, deletes no run head and keeps the children of every linear commit, everything it does not blacklist survives, and the commit and everything it blacklists are settled: every linear parent of theirs is a `...` commit with a parent that is not linear |
| Legacy.CommitGraph.CollapseAll | git_big_picture/main.py:87-129 | the loop over all commits, skipping blacklisted ones, keeps the maps linked and acyclic, removes only linear unlabelled commits, deletes no run head, and leaves every original commit settled |
| Legacy.CommitGraph.RemoveLinearRuns | git_big_picture/main.py:86-130 | `_remove_linear_runs` keeps a valid, acyclic graph; it deletes only unlabelled commits with one parent and one child, and survivors keep their degrees; `dotdot` holds only surviving commits, and every new one was linear and unlabelled; every linear commit left is in `dotdot`, and neither its parent nor its child is linear, so no run of two or more linear commits remains; every run head of the original graph (a linear commit none of whose children is linear) survives as a `...` commit, so no run is deleted whole |
| Legacy.LegacyLabelLeavesQuoteBare | git_big_picture/main.py:499-519 | a tag name with a double quote goes into the older label unescaped (see Findings) |
| Legacy.CommitGraph.RefNodeBlock | git_big_picture/main.py:499-519 | the older ref-node block is the node line of each labelled commit, in some order that lists each once; one line per labelled commit, each one's line present |
| Legacy.CommitGraph.EveryCommitGetsANode | git_big_picture/main.py:499-527 | with a width other than 40, every commit gets a label node, a `...` node or a shortened-id node, and the shortened ones are neither labelled nor `...` commits |
| Legacy.CommitGraph.GenerateDotFile | git_big_picture/main.py:476-532 | the older document is `digraph {`, the ref, `...`, shortened-id and edge blocks, then `}`; it has two lines more than labels, collapsed commits, shortened commits and edges together, and contains the line of each of them |
| Scenarios.FilterKeepsGrandparent | test.py:244-283 | on the history and refs of `test_parent_of_parent_loop` (master on F, tags on A and D), `filter` with the default kinds gives exactly the expected map: F keeps both D and A |
| Scenarios.RemoveNonLabelsDropsGrandparent | git_big_picture/main.py:455-465 | on the same history and refs, the older `_remove_non_labels` keeps only D as F's parent, since A is already above D |

## Left out

- Git itself is not part of this model. That covers reading the parent map
  and refs, running `git log` for commit subjects, and the `git` object the
  class keeps. Commit subjects are a parameter `subject: Id -> string`.
- Command-line parsing, configuration reading, running Graphviz and
  viewers, and the experimental passes of the older class
  (`_optimize_merge_branch_fits_away` and the others between
  `git_big_picture/main.py:132` and `:369`) are not part of this model.
- The debug messages of `set_settings` are output only and are left out.
- Iteration order of sets and dicts is left open: serializers return the
  order they used as a ghost sequence that lists every member once.
  `_remove_linear_runs` is proved for every visiting order.
- CommitGraphs.CommitGraph.GenerateDotFile: the edge loop rebinds
  `self.parents` to each parent set in turn (`for child, self.parents in
  ...`). That leaves the object's parent map broken after serialization,
  which is evidently unintended. The model keeps the parent map unchanged.
- Legacy.CommitGraph.GenerateDotFile: the same `self.parents` rebinding as
  in the newer class is not reproduced.
- CommitGraphs.CommitGraph.Filter: requires `SearchSafe`: every
  uninteresting parent in the map must itself be a key. The source stops
  with a `KeyError` only for such a parent that the search reaches, so the
  requirement is stronger than the source's. A parent map read with
  `git rev-list --all` lists every parent as a commit and always meets it.
- Legacy.CommitGraph.RemoveNonLabels: takes a ghost `rank` that witnesses
  an acyclic history, which `recurse` needs in order to end. It requires
  that every unlabelled parent in the map is a key. The source raises
  `KeyError` only for such a parent that a walk reaches, so this is stronger
  than the source's need; a full `git rev-list --all` map always meets it. The child map is stale after the call: the source adds the new
  child edges to the old child map without clearing it, and the model does
  the same.
- Legacy.CommitGraph.RemoveLinearRuns: the contract states the invariants
  the pass keeps and that no run of linear commits is left, not the exact
  maps it returns as one closed formula. Each collapse is stated exactly by
  CollapseWalk. It requires every parent to be a key, and a ghost `rank` for
  acyclicity. In the source, a parent that is not a key raises `KeyError`
  only on some walks.
- Legacy.CommitGraph.RemoveLinearRuns: does not state that ancestry among
  surviving commits is kept. Each collapse replaces a run by one edge, so it
  holds, but carrying a path witness through every collapse was not
  modelled.
- Legacy.CommitGraph.CollapseWalk: `dotdot` is updated after the maps are
  rewritten rather than before. The three fields are independent, so the
  final state is the same.
- CommitGraphs.CommitGraph.AbbreviatedNodes: the source tests the width
  before the loop. The model folds that test into the set of nodes, which
  is empty unless a width other than 40 is given.
- Legacy.CommitGraph.AbbreviatedNodes: the same folding of the width test
  (`git_big_picture/main.py:523`) into the set of nodes.
- The `interesting` list of `filter`, and the `branches.keys() +
  tags.keys()` list of the older class, are sets, and so is the search's
  `to_visit` membership. Duplicates in those lists change nothing the
  source computes.

## Findings

| source | as written | input that shows it | evidently intended | confidence | as-written member | corrected member |
|---|---|---|---|---|---|---|
| git_big_picture/_main.py:794-804 | checks only that the child sets that exist point back, so a child edge missing from the child map passes | parents `{c: {p}}`, children `{c: {}, p: {}}` | parents and children describe the same graph, each edge recorded both ways | medium, not executed | Dag.CheckMissesLostChildEdge | Dag.MirrorsIsTransposed |
| git_big_picture/main.py:514-519 | the ref label is written into the quoted `label` attribute unescaped; the newer class escapes it at `git_big_picture/_main.py:970` | a tag `v"1` on commit `c` gives the label `v"1`, whose quote ends the attribute | quotes in ref names escaped as `\"` | high, not executed | Legacy.LegacyLabelLeavesQuoteBare | CommitGraphs.RefLabelQuotesEscaped |
