# gyr launcher filter state, in Dafny

This project models `UI` from the gyr application launcher (`src/ui.rs`). `UI` is
the state behind the launcher's list of applications:

- every application sits in exactly one of two vectors, `shown` or `hidden`;
- `selected` is the highlighted row, or nothing;
- `query` is the search text typed so far;
- `verbose` is a detail level set from the command line;
- `text` is the detail pane for the highlighted application;
- `log` is an append-only debug log.

`update_filter` re-partitions the applications against the query. `update_info`
rebuilds the detail pane. `new` builds the initial state. `verbose` sets the
detail level.

Modules, one per file:

- `Options` (options.dfy): Rust's `Option`.
- `Apps` (apps.dfy): an application (`Item`: name, description, command line,
  terminal flag and the score field the filter writes). `Zeroed` resets the
  scores of a list.
- `Sorting` (sorting.dfy): the three-way `Ordering`; what an `Ord` promises
  (`TotalPreorder`); and `StableSort`, a pure definition of the result of
  `sort_by`. Lemmas prove it a sorted, stable permutation.
- `Filter` (filter.dfy): `Refilter`, a pure definition of what `update_filter`
  makes of the two lists, built from `Scored` (the items the matcher accepts,
  rescored) and `Unmatched` (the items it rejects). Lemmas state what
  `Refilter` guarantees.
- `Info` (info.dfy): text segments (`Raw` or `Styled` with a colour), the
  decimal rendering of the score, and `InfoText`, the detail pane for an item.
- `Ui` (ui.dfy): the class `UI`, with one field per field of the Rust struct.
  Its methods change those fields in place:
  - `UpdateFilter` keeps both `while` loops of the source (`Demote`, `Promote`),
    with `remove(i)` and `push` written as sequence updates;
  - the loops are proved to compute `Refilter`, step by step, through the
    invariants `DemoteInv` and `PromoteInv`.

The fuzzy matcher and the ordering of applications come from code this file does
not contain. Both are function-valued constants of the class, supplied to the
constructor. A `Matcher` is any function from (name, query) to an optional
score; being a function, it answers the same pair the same way every time. The
ordering is any three-way comparison. The sort facts hold when it is a total
preorder: reversing the arguments reverses the answer, and "not greater" is
transitive.

Where the written description of gyr and `src/ui.rs` differ, the model follows
the code:

- At verbosity 2 and above the detail pane adds only a "Matching score" line
  (src/ui.rs:57-59). There is no run-count line.
- `new` selects row 0 even when the item list is empty (src/ui.rs:25). So the
  selection invariant `SelectionValid` is not established by the constructor;
  `UpdateFilter` establishes it.

## Model

| member | source | states |
|---|---|---|
| Ui.UI.constructor | src/ui.rs:21-32 | all items start shown, nothing hidden, row 0 selected (even for no items), empty query, pane and log, verbosity 0; hidden items trivially have score 0 |
| Ui.UI.SetVerbose | src/ui.rs:34-36 | sets the verbosity level and no other field |
| Ui.UI.UpdateInfo | src/ui.rs:38-64 | with nothing selected the pane becomes empty; otherwise it becomes the detail segments of the selected item for the current verbosity; only `text` changes |
| Info.InfoTextLayout | src/ui.rs:40-59 | the pane has 2, 4 or 5 segments for verbosity 0, 1 and 2 or more; the name in the given colour, then the description; from level 1 the "Exec (terminal)" or "Exec" label chosen by the terminal flag, then the command in dark gray; from level 2 a "Matching score" line whose number parses back to the item's score |
| Info.IntToDecimalRoundTrip | src/ui.rs:58 | the score as `{}` prints it is a well-formed integer that reads back as the score, negative scores included |
| Info.DecimalRoundTrip | src/ui.rs:58 | the decimal digits of a natural number read back as that number |
| Info.InfoTextGrows | src/ui.rs:47-59 | raising the verbosity only appends segments, and strictly adds some up to level 2 |
| Ui.UI.UpdateFilter | src/ui.rs:66-102 | the new lists are exactly `Refilter` of the old ones; the items, scores aside, are the same multiset; shown items carry the matcher's score and hidden ones are rejected; under a total preorder `shown` is sorted; hidden items keep score 0 once they all have it; row 0 is selected, or nothing when `shown` is empty, so the selection is valid; the log gains "NO ITEMS!" only when nothing is shown, then "update_filter\n"; `query`, `verbose` and `text` are untouched |
| Ui.UI.Rearrange | src/ui.rs:66-92 | the two loops followed by the sort leave `shown` and `hidden` equal to `Refilter` of their old values |
| Ui.UI.Demote | src/ui.rs:67-79 | the first loop leaves in `shown` exactly the accepted items, rescored, in their old order, and appends the rejected ones, score reset, to `hidden` in their old order |
| Ui.UI.Promote | src/ui.rs:81-89 | the second loop appends the accepted hidden items, rescored, to `shown` in their hidden order, and leaves exactly the rejected ones in `hidden`, in order |
| Ui.UI.ResetSelection | src/ui.rs:94-101 | selects row 0, or nothing when `shown` is empty, and appends the warning and the pass marker to the log, earlier entries unchanged |
| Ui.DemoteDrop | src/ui.rs:70-72 | resetting and removing the rejected item at the cursor and pushing it onto `hidden` moves one item from the unvisited to the visited part and keeps the first loop's invariant without moving the cursor |
| Ui.DemoteKeep | src/ui.rs:74-76 | rescoring the accepted item at the cursor and advancing keeps the first loop's invariant |
| Ui.PromoteMove | src/ui.rs:83-85 | rescoring and removing the accepted item at the cursor and pushing it onto `shown` keeps the second loop's invariant without moving the cursor |
| Ui.PromoteSkip | src/ui.rs:86-87 | stepping past a rejected hidden item keeps the second loop's invariant |
| Filter.PromotionSkipsDemoted | src/ui.rs:81-89 | the second loop also passes over the items the first loop just demoted; it promotes none of them and leaves them, in order, at the end of `hidden` |
| Filter.ScoredAgrees | src/ui.rs:74-75 | every item the matcher accepts carries exactly the matcher's score for it |
| Filter.UnmatchedRejected | src/ui.rs:70-72 | every item left unmatched comes from the input and the matcher rejects it |
| Filter.ScoredEmpty | src/ui.rs:68-89 | no item is accepted exactly when the matcher rejects every item, both directions |
| Filter.SplitPermutation | src/ui.rs:68-89 | splitting a list into accepted and rejected items loses and duplicates nothing, scores aside |
| Filter.RefilterPartition | src/ui.rs:66-89 | after a filter pass the two lists together hold the same items as before, scores aside: nothing is lost or duplicated |
| Filter.RefilterAgrees | src/ui.rs:68-89 | every shown item carries the matcher's score for the query; the matcher rejects every hidden item |
| Filter.RefilterHiddenUnscored | src/ui.rs:70-88 | every hidden item was hidden before or has just been demoted with score 0; so from the constructor on, hidden items have score 0 |
| Filter.RefilterSorted | src/ui.rs:92 | under a total preorder the shown list comes out sorted: no adjacent pair is out of order |
| Filter.RefilterStable | src/ui.rs:92 | among shown items that compare equal, the kept ones come first in their old order, then the promoted ones in their hidden order |
| Filter.RefilterEmpty | src/ui.rs:94-96 | `shown` comes out empty exactly when the matcher rejects every item of both lists |
| Filter.RefilterSettled | src/ui.rs:66-102 | a state the query already settles (shown items scored, hidden items rejected, shown sorted) is left exactly as it is |
| Filter.RefilterIdempotent | src/ui.rs:66-102 | filtering twice with the same query gives the same lists, scores and order as filtering once |
| Sorting.SortPermutation | src/ui.rs:92 | the sort rearranges its input and does nothing else: same multiset |
| Sorting.InsertPermutation | src/ui.rs:92 | inserting an element adds exactly that element |
| Sorting.SortSorted | src/ui.rs:92 | under a total preorder the sort's result has no adjacent pair out of order |
| Sorting.InsertSorted | src/ui.rs:92 | inserting into a sorted list keeps it sorted and adds one element |
| Sorting.SortOfSorted | src/ui.rs:92 | sorting a list that is already sorted returns it unchanged |
| Sorting.SortStable | src/ui.rs:92 | under a total preorder the sort is stable: the members of any equivalence class keep their relative order |
| Sorting.SortStableInClass | src/ui.rs:92 | the sort keeps the order within a class whenever the comparison never ranks one member of the class above another |
| Sorting.InsertStable | src/ui.rs:92 | insertion puts the new element after the existing members of its class |
| Sorting.PreorderClassUnsplit | src/ui.rs:92 | under a total preorder no member of a class compares greater than another member |

## Left out

- The fuzzy matcher (`SkimMatcherV2::fuzzy_match`) is a library call. It is any deterministic function from name and query to an optional score; its scoring is not modelled.
- The ordering of applications (`Ord` for `apps::Application`) lives in apps.rs, which is not part of this model. It is an arbitrary comparison, and sortedness and stability are proved for total preorders.
- `sort_by` is the standard library's merge sort. It is specified by its result, a stable insertion sort; for a total preorder every stable sort gives that same result. The in-place steps of the library sort are not modelled.
- `tui`'s `Text`, `Style` and `Color` are reduced to plain or coloured segments; the colour passed to `update_info` is opaque.
- Integer widths: `verbose` (u64), indices (usize) and scores (i64) are unbounded integers. Overflow cannot arise in these operations, but the model does not show it.
- Ui.UI.UpdateInfo: requires the selected row to lie inside `shown`; the source indexes `shown` there and would panic otherwise, and the panic is not modelled.
- Ui.UI.UpdateFilter: states sortedness only when the ordering is a total preorder; for other orderings the order `sort_by` produces is not described.
- The event loop, key handling, edits to `query` (a public field written by the caller), terminal drawing and launching the chosen command are outside this file and are not modelled.
