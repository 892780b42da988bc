/** The launcher's filter state (`UI` in src/ui.rs): every item sits in
    exactly one of `shown` and `hidden`; a query re-partitions them, ranks the
    shown ones and resets the selection; the detail pane describes the
    selected item; and a debug log records each filter pass. */
module Ui {
  import opened Options
  import opened Sorting
  import opened Apps
  import opened Filter
  import opened Info

  /** One step of either loop of `update_filter` moves the next unvisited
      item from `rest` to the end of `visited`. */
  lemma Advance<T>(visited: seq<T>, rest: seq<T>)
    requires rest != []
    ensures visited + rest == (visited + [rest[0]]) + rest[1..]
  {
    assert rest == [rest[0]] + rest[1..];
  }

  /** The state of the demotion loop once the items `visited` of the original
      `shown` have been handled and `rest` remain: the kept ones, rescored, sit
      before the cursor `i`, and the demoted ones, zeroed, follow `hidden0`. */
  ghost predicate DemoteInv(m: Matcher, q: string, visited: seq<Item>, rest: seq<Item>,
                            shown: seq<Item>, i: int, hidden0: seq<Item>, hidden: seq<Item>)
  {
    && shown == Scored(m, q, visited) + rest
    && i == |Scored(m, q, visited)|
    && hidden == hidden0 + Zeroed(Unmatched(m, q, visited))
  }

  /** Demoting the item at the cursor keeps the demotion invariant. */
  lemma DemoteDrop(m: Matcher, q: string, visited: seq<Item>, rest: seq<Item>,
                   shown: seq<Item>, i: int, hidden0: seq<Item>, hidden: seq<Item>)
    requires DemoteInv(m, q, visited, rest, shown, i, hidden0, hidden)
    requires rest != [] && m(rest[0].name, q).None?
    ensures 0 <= i < |shown| && shown[i] == rest[0]
    ensures var zeroed := shown[i := shown[i].(score := 0)];
      DemoteInv(m, q, visited + [rest[0]], rest[1..], zeroed[..i] + zeroed[i + 1..], i, hidden0, hidden + [zeroed[i]])
  {
    var kept, x := Scored(m, q, visited), rest[0];
    var zeroed := (kept + rest)[|kept| := x.(score := 0)];
    assert zeroed == kept + [x.(score := 0)] + rest[1..];
    assert zeroed[..|kept|] == kept && zeroed[|kept| + 1..] == rest[1..];
    ScoredSnoc(m, q, visited, x);
    UnmatchedSnoc(m, q, visited, x);
    ZeroedAppend(Unmatched(m, q, visited), [x]);
  }

  /** Rescoring the item at the cursor and stepping past it keeps the
      demotion invariant. */
  lemma DemoteKeep(m: Matcher, q: string, visited: seq<Item>, rest: seq<Item>,
                   shown: seq<Item>, i: int, hidden0: seq<Item>, hidden: seq<Item>, score: int)
    requires DemoteInv(m, q, visited, rest, shown, i, hidden0, hidden)
    requires rest != [] && m(rest[0].name, q) == Some(score)
    ensures 0 <= i < |shown| && shown[i] == rest[0]
    ensures DemoteInv(m, q, visited + [rest[0]], rest[1..], shown[i := shown[i].(score := score)], i + 1, hidden0, hidden)
  {
    var kept, x := Scored(m, q, visited), rest[0];
    assert (kept + rest)[|kept| := x.(score := score)] == kept + [x.(score := score)] + rest[1..];
    ScoredSnoc(m, q, visited, x);
    UnmatchedSnoc(m, q, visited, x);
  }

  /** The state of the promotion loop once the items `visited` of the original
      `hidden` have been handled and `rest` remain: the rejected ones sit
      before the cursor `i`, and the accepted ones, rescored, follow `shown0`. */
  ghost predicate PromoteInv(m: Matcher, q: string, visited: seq<Item>, rest: seq<Item>,
                             hidden: seq<Item>, i: int, shown0: seq<Item>, shown: seq<Item>)
  {
    && hidden == Unmatched(m, q, visited) + rest
    && i == |Unmatched(m, q, visited)|
    && shown == shown0 + Scored(m, q, visited)
  }

  /** Promoting the item at the cursor keeps the promotion invariant. */
  lemma PromoteMove(m: Matcher, q: string, visited: seq<Item>, rest: seq<Item>,
                    hidden: seq<Item>, i: int, shown0: seq<Item>, shown: seq<Item>, score: int)
    requires PromoteInv(m, q, visited, rest, hidden, i, shown0, shown)
    requires rest != [] && m(rest[0].name, q) == Some(score)
    ensures 0 <= i < |hidden| && hidden[i] == rest[0]
    ensures var rescored := hidden[i := hidden[i].(score := score)];
      PromoteInv(m, q, visited + [rest[0]], rest[1..], rescored[..i] + rescored[i + 1..], i, shown0, shown + [rescored[i]])
  {
    var left, x := Unmatched(m, q, visited), rest[0];
    var rescored := (left + rest)[|left| := x.(score := score)];
    assert rescored == left + [x.(score := score)] + rest[1..];
    assert rescored[..|left|] == left && rescored[|left| + 1..] == rest[1..];
    ScoredSnoc(m, q, visited, x);
    UnmatchedSnoc(m, q, visited, x);
  }

  /** Leaving the item at the cursor in place and stepping past it keeps the
      promotion invariant. */
  lemma PromoteSkip(m: Matcher, q: string, visited: seq<Item>, rest: seq<Item>,
                    hidden: seq<Item>, i: int, shown0: seq<Item>, shown: seq<Item>)
    requires PromoteInv(m, q, visited, rest, hidden, i, shown0, shown)
    requires rest != [] && m(rest[0].name, q).None?
    ensures 0 <= i < |hidden| && hidden[i] == rest[0]
    ensures PromoteInv(m, q, visited + [rest[0]], rest[1..], hidden, i + 1, shown0, shown)
  {
    var left, x := Unmatched(m, q, visited), rest[0];
    assert left + rest == (left + [x]) + rest[1..];
    ScoredSnoc(m, q, visited, x);
    UnmatchedSnoc(m, q, visited, x);
  }

  class UI {
    var hidden: seq<Item>
    var shown: seq<Item>
    var selected: Option<nat>
    var text: seq<Segment>
    var query: string
    var log: seq<Segment>
    var verbose: nat
    /** The fuzzy matcher the state owns. */
    const matcher: Matcher
    /** The ordering of `apps::Application` (its `Ord` implementation). */
    const order: (Item, Item) -> Ordering

    /** Items enter `hidden` only with their score reset. */
    ghost predicate HiddenUnscored()
      reads this
    {
      forall x :: x in hidden ==> x.score == 0
    }

    /** The selection is empty exactly when nothing is shown, and otherwise
        points into `shown`. */
    ghost predicate SelectionValid()
      reads this
    {
      && (selected == None <==> shown == [])
      && (selected.Some? ==> selected.value < |shown|)
    }

    /** All items start shown, with the first one selected (even when there
        is none), an empty query, pane and log, and verbosity 0. */
    constructor (items: seq<Item>, matcher: Matcher, order: (Item, Item) -> Ordering)
      ensures shown == items && hidden == [] && selected == Some(0)
      ensures query == [] && text == [] && log == [] && verbose == 0
      ensures this.matcher == matcher && this.order == order
      ensures HiddenUnscored()
    {
      shown := items;
      hidden := [];
      selected := Some(0);
      text := [];
      query := [];
      log := [];
      verbose := 0;
      this.matcher := matcher;
      this.order := order;
    }

    /** Sets the verbosity level and nothing else. */
    method SetVerbose(b: nat)
      modifies this`verbose
      ensures verbose == b
    {
      verbose := b;
    }

    /** Rebuilds the detail pane for the selected item, or clears it when
        nothing is selected. The selected index must lie inside `shown`. */
    method UpdateInfo(color: Color)
      requires selected.Some? ==> selected.value < |shown|
      modifies this`text
      ensures selected == None ==> text == []
      ensures selected.Some? ==> text == InfoText(shown[selected.value], verbose, color)
    {
      if selected.Some? {
        var s := selected.value;
        text := [Styled(shown[s].name + "\n\n", color), Raw(shown[s].description + "\n")];
        if verbose > 0 {
          text := text + [if shown[s].terminalExec then Raw("\nExec (terminal): ") else Raw("\nExec: ")];
          text := text + [Styled(shown[s].exec, DarkGray)];
          if verbose > 1 {
            text := text + [Raw("\nMatching score: " + IntToDecimal(shown[s].score))];
          }
        }
      } else {
        text := [];
      }
    }

    /** Re-partitions the items against the current query, ranks the shown
        ones, resets the selection and logs the pass. */
    method UpdateFilter()
      modifies this`shown, this`hidden, this`selected, this`log
      ensures Lists(shown, hidden) == Refilter(matcher, order, query, old(shown), old(hidden))
      ensures multiset(Zeroed(shown + hidden)) == multiset(Zeroed(old(shown) + old(hidden)))
      ensures forall x :: x in shown ==> matcher(x.name, query) == Some(x.score)
      ensures forall x :: x in hidden ==> matcher(x.name, query) == None
      ensures TotalPreorder(order) ==> Sorted(order, shown)
      ensures old(HiddenUnscored()) ==> HiddenUnscored()
      ensures selected == (if shown == [] then None else Some(0))
      ensures SelectionValid()
      ensures log == old(log) + (if shown == [] then [Raw("NO ITEMS!")] else []) + [Raw("update_filter\n")]
    {
      ghost var shown0, hidden0 := shown, hidden;
      Rearrange();
      ResetSelection();

      assert multiset(Zeroed(shown + hidden)) == multiset(Zeroed(shown0 + hidden0)) by {
        RefilterPartition(matcher, order, query, shown0, hidden0);
      }
      assert (forall x :: x in shown ==> matcher(x.name, query) == Some(x.score))
          && (forall x :: x in hidden ==> matcher(x.name, query) == None) by {
        RefilterAgrees(matcher, order, query, shown0, hidden0);
      }
      assert TotalPreorder(order) ==> Sorted(order, shown) by {
        if TotalPreorder(order) {
          RefilterSorted(matcher, order, query, shown0, hidden0);
        }
      }
      assert forall x :: x in hidden ==> x in hidden0 || x.score == 0 by {
        RefilterHiddenUnscored(matcher, order, query, shown0, hidden0);
      }
    }

    /** The tail of `update_filter`: selects the first shown item, or nothing
        (with a warning in the log) when none is shown, then logs the pass. */
    method ResetSelection()
      modifies this`selected, this`log
      ensures selected == (if shown == [] then None else Some(0))
      ensures SelectionValid()
      ensures log == old(log) + (if shown == [] then [Raw("NO ITEMS!")] else []) + [Raw("update_filter\n")]
    {
      if shown == [] {
        selected := None;
        log := log + [Raw("NO ITEMS!")];
      } else {
        selected := Some(0);
      }
      log := log + [Raw("update_filter\n")];
    }

    /** The list work of `update_filter`: the demotion loop, the promotion
        loop, then the sort of `shown` by the items' ordering. */
    method Rearrange()
      modifies this`shown, this`hidden
      ensures Lists(shown, hidden) == Refilter(matcher, order, query, old(shown), old(hidden))
    {
      ghost var shown0, hidden0 := shown, hidden;
      Demote();
      Promote();
      PromotionSkipsDemoted(matcher, query, shown0, hidden0);
      shown := StableSort(order, shown);
    }

    /** The first loop of `update_filter`: keeps and rescores each shown item
        the matcher accepts, and moves each other one, score reset, to the end
        of `hidden`. The index advances only past kept items. */
    method Demote()
      modifies this`shown, this`hidden
      ensures shown == Scored(matcher, query, old(shown))
      ensures hidden == old(hidden) + Zeroed(Unmatched(matcher, query, old(shown)))
    {
      var m, q := matcher, query;
      ghost var shown0, hidden0 := shown, hidden;
      var i := 0;
      ghost var visited, rest := [], shown;  // the old `shown`, handled and not yet
      while i != |shown|
        invariant shown0 == visited + rest
        invariant DemoteInv(m, q, visited, rest, shown, i, hidden0, hidden)
        decreases |rest|
      {
        match m(shown[i].name, q) {
          case None =>
            DemoteDrop(m, q, visited, rest, shown, i, hidden0, hidden);
            shown := shown[i := shown[i].(score := 0)];
            var x := shown[i];
            shown := shown[..i] + shown[i + 1..];
            hidden := hidden + [x];
          case Some(score) =>
            DemoteKeep(m, q, visited, rest, shown, i, hidden0, hidden, score);
            shown := shown[i := shown[i].(score := score)];
            i := i + 1;
        }
        Advance(visited, rest);
        visited, rest := visited + [rest[0]], rest[1..];
      }
      assert visited == shown0;
    }

    /** The second loop of `update_filter`: moves each hidden item the matcher
        accepts, rescored, to the end of `shown`, and leaves the others. The
        index advances only past items left in place. */
    method Promote()
      modifies this`shown, this`hidden
      ensures shown == old(shown) + Scored(matcher, query, old(hidden))
      ensures hidden == Unmatched(matcher, query, old(hidden))
    {
      var m, q := matcher, query;
      ghost var shown0, hidden0 := shown, hidden;
      var i := 0;
      ghost var visited, rest := [], hidden;  // the old `hidden`, handled and not yet
      while i != |hidden|
        invariant hidden0 == visited + rest
        invariant PromoteInv(m, q, visited, rest, hidden, i, shown0, shown)
        decreases |rest|
      {
        match m(hidden[i].name, q) {
          case Some(score) =>
            PromoteMove(m, q, visited, rest, hidden, i, shown0, shown, score);
            hidden := hidden[i := hidden[i].(score := score)];
            var x := hidden[i];
            hidden := hidden[..i] + hidden[i + 1..];
            shown := shown + [x];
          case None =>
            PromoteSkip(m, q, visited, rest, hidden, i, shown0, shown);
            i := i + 1;
        }
        Advance(visited, rest);
        visited, rest := visited + [rest[0]], rest[1..];
      }
      assert visited == hidden0;
    }
  }
}
