/** The pure specification of `UI::update_filter`: which list each item ends
    up in, with which score, and in which order. The method in module Ui is
    proved to compute exactly `Refilter`; the lemmas here state what
    `Refilter` guarantees. */
module Filter {
  import opened Options
  import opened Sorting
  import opened Apps

  /** The fuzzy matcher: a candidate name and a query to a score, or to no
      match. A function value, so the same pair always gets the same answer. */
  type Matcher = (string, string) -> Option<int>

  /** The items of `s` that the matcher accepts for `q`, in order, each with
      its score set to the matcher's score. */
  function Scored(m: Matcher, q: string, s: seq<Item>): (r: seq<Item>)
    ensures |r| <= |s|
    decreases |s|
  {
    if s == [] then []
    else
      var x := s[|s| - 1];
      Scored(m, q, s[..|s| - 1]) + match m(x.name, q) { case None => [] case Some(v) => [x.(score := v)] }
  }

  /** The items of `s` that the matcher rejects for `q`, in order, unchanged. */
  function Unmatched(m: Matcher, q: string, s: seq<Item>): (r: seq<Item>)
    ensures |r| <= |s|
    decreases |s|
  {
    if s == [] then []
    else
      var x := s[|s| - 1];
      Unmatched(m, q, s[..|s| - 1]) + (if m(x.name, q).None? then [x] else [])
  }

  /** One more visited item: kept with its new score, or not. */
  lemma ScoredSnoc(m: Matcher, q: string, s: seq<Item>, x: Item)
    ensures Scored(m, q, s + [x])
            == Scored(m, q, s) + match m(x.name, q) { case None => [] case Some(v) => [x.(score := v)] }
  {
    assert (s + [x])[..|s|] == s;
  }

  /** One more visited item: left unmatched, or not. */
  lemma UnmatchedSnoc(m: Matcher, q: string, s: seq<Item>, x: Item)
    ensures Unmatched(m, q, s + [x]) == Unmatched(m, q, s) + (if m(x.name, q).None? then [x] else [])
  {
    assert (s + [x])[..|s|] == s;
  }

  /** Every promoted or kept item carries the matcher's score for it. */
  lemma {:induction false} ScoredAgrees(m: Matcher, q: string, s: seq<Item>)
    ensures forall x :: x in Scored(m, q, s) ==> m(x.name, q) == Some(x.score)
    decreases |s|
  {
    if s != [] {
      ScoredAgrees(m, q, s[..|s| - 1]);
    }
  }

  /** Every item left unmatched comes from the list and is rejected by the
      matcher. */
  lemma {:induction false} UnmatchedRejected(m: Matcher, q: string, s: seq<Item>)
    ensures forall x :: x in Unmatched(m, q, s) ==> x in s && m(x.name, q) == None
    decreases |s|
  {
    if s != [] {
      UnmatchedRejected(m, q, s[..|s| - 1]);
      assert forall y :: y in s[..|s| - 1] ==> y in s;
    }
  }

  /** The two lists of the filter state. */
  datatype Lists = Lists(shown: seq<Item>, hidden: seq<Item>)

  /** What `update_filter` makes of the two lists for query `q`. Shown: the
      shown items the matcher keeps followed by the hidden items it promotes,
      all rescored, then stably sorted. Hidden: the hidden items it still
      rejects, followed by the demoted shown items with their score reset. */
  function Refilter(m: Matcher, cmp: (Item, Item) -> Ordering, q: string,
                    shown: seq<Item>, hidden: seq<Item>): Lists
  {
    Lists(StableSort(cmp, Scored(m, q, shown) + Scored(m, q, hidden)),
          Unmatched(m, q, hidden) + Zeroed(Unmatched(m, q, shown)))
  }

  lemma ZeroedAppend(a: seq<Item>, b: seq<Item>)
    ensures Zeroed(a + b) == Zeroed(a) + Zeroed(b)
  {
  }

  lemma {:induction false} ScoredAppend(m: Matcher, q: string, a: seq<Item>, b: seq<Item>)
    ensures Scored(m, q, a + b) == Scored(m, q, a) + Scored(m, q, b)
    decreases |b|
  {
    if b == [] {
      assert a + b == a;
    } else {
      assert (a + b)[..|a + b| - 1] == a + b[..|b| - 1];
      ScoredAppend(m, q, a, b[..|b| - 1]);
    }
  }

  lemma {:induction false} UnmatchedAppend(m: Matcher, q: string, a: seq<Item>, b: seq<Item>)
    ensures Unmatched(m, q, a + b) == Unmatched(m, q, a) + Unmatched(m, q, b)
    decreases |b|
  {
    if b == [] {
      assert a + b == a;
    } else {
      assert (a + b)[..|a + b| - 1] == a + b[..|b| - 1];
      UnmatchedAppend(m, q, a, b[..|b| - 1]);
    }
  }

  /** On a list the matcher rejects entirely, nothing is promoted and
      nothing moves. */
  lemma {:induction false} AllRejected(m: Matcher, q: string, s: seq<Item>)
    requires forall i :: 0 <= i < |s| ==> m(s[i].name, q) == None
    ensures Scored(m, q, s) == [] && Unmatched(m, q, s) == s
    decreases |s|
  {
    if s != [] {
      var init, x := s[..|s| - 1], s[|s| - 1];
      assert forall i :: 0 <= i < |init| ==> init[i] == s[i];
      AllRejected(m, q, init);
      assert s == init + [x];
      ScoredSnoc(m, q, init, x);
      UnmatchedSnoc(m, q, init, x);
    }
  }

  /** On a list whose every item already carries the matcher's score,
      rescoring changes nothing and nothing is demoted. */
  lemma {:induction false} AllAccepted(m: Matcher, q: string, s: seq<Item>)
    requires forall i :: 0 <= i < |s| ==> m(s[i].name, q) == Some(s[i].score)
    ensures Scored(m, q, s) == s && Unmatched(m, q, s) == []
    decreases |s|
  {
    if s != [] {
      var init, x := s[..|s| - 1], s[|s| - 1];
      assert forall i :: 0 <= i < |init| ==> init[i] == s[i];
      AllAccepted(m, q, init);
      assert x.(score := x.score) == x;
      assert s == init + [x];
      ScoredSnoc(m, q, init, x);
      UnmatchedSnoc(m, q, init, x);
    }
  }

  /** Nothing is promoted exactly when the matcher rejects every item. */
  lemma {:induction false} ScoredEmpty(m: Matcher, q: string, s: seq<Item>)
    ensures Scored(m, q, s) == [] <==> forall x :: x in s ==> m(x.name, q) == None
    decreases |s|
  {
    if s != [] {
      var init := s[..|s| - 1];
      ScoredEmpty(m, q, init);
      assert s == init + [s[|s| - 1]];
    }
  }

  /** Resetting scores keeps names, so the matcher still rejects every
      demoted item. */
  lemma DemotedStayRejected(m: Matcher, q: string, s: seq<Item>)
    ensures forall x :: x in Zeroed(Unmatched(m, q, s)) ==> m(x.name, q) == None
  {
    var u := Unmatched(m, q, s);
    UnmatchedRejected(m, q, s);
    forall x | x in Zeroed(u) ensures m(x.name, q) == None {
      var i :| 0 <= i < |u| && Zeroed(u)[i] == x;
      assert u[i] in u;
    }
  }

  /** Splitting a list into its matched and unmatched items loses and
      duplicates nothing, once scores are ignored. */
  lemma {:induction false} SplitPermutation(m: Matcher, q: string, s: seq<Item>)
    ensures multiset(Zeroed(Scored(m, q, s))) + multiset(Zeroed(Unmatched(m, q, s)))
            == multiset(Zeroed(s))
    decreases |s|
  {
    if s != [] {
      var init, x := s[..|s| - 1], s[|s| - 1];
      SplitPermutation(m, q, init);
      assert s == init + [x];
      ZeroedAppend(init, [x]);
      match m(x.name, q)
      case None =>
        assert Scored(m, q, s) == Scored(m, q, init);
        assert Unmatched(m, q, s) == Unmatched(m, q, init) + [x];
        ZeroedAppend(Unmatched(m, q, init), [x]);
      case Some(v) =>
        assert Scored(m, q, s) == Scored(m, q, init) + [x.(score := v)];
        assert Unmatched(m, q, s) == Unmatched(m, q, init);
        ZeroedAppend(Scored(m, q, init), [x.(score := v)]);
        assert Zeroed([x.(score := v)]) == Zeroed([x]);
    }
  }

  /** Removing the element at `k` before or after resetting scores comes to
      the same. */
  lemma ZeroedRemove(b: seq<Item>, k: nat)
    requires k < |b|
    ensures multiset(Zeroed(b)) == multiset(Zeroed(b[..k] + b[k + 1..])) + multiset{b[k].(score := 0)}
  {
    assert b == b[..k] + [b[k]] + b[k + 1..];
    ZeroedAppend(b[..k] + [b[k]], b[k + 1..]);
    ZeroedAppend(b[..k], [b[k]]);
    ZeroedAppend(b[..k], b[k + 1..]);
  }

  /** Two lists with the same elements still have the same elements once
      their scores are reset. */
  lemma {:induction false} ZeroedPermutation(a: seq<Item>, b: seq<Item>)
    requires multiset(a) == multiset(b)
    ensures multiset(Zeroed(a)) == multiset(Zeroed(b))
    decreases |a|
  {
    if a == [] {
      assert b == [] by { assert |b| == |multiset(b)| == 0; }
    } else {
      var init, x := a[..|a| - 1], a[|a| - 1];
      assert a == init + [x];
      assert x in multiset(b);
      var k :| 0 <= k < |b| && b[k] == x;
      var rest := b[..k] + b[k + 1..];
      assert multiset(rest) == multiset(b) - multiset{x} by {
        assert b == b[..k] + [x] + b[k + 1..];
      }
      assert multiset(init) == multiset(a) - multiset{x};
      ZeroedPermutation(init, rest);
      ZeroedAppend(init, [x]);
      assert Zeroed([x]) == [x.(score := 0)];
      assert multiset(Zeroed(a)) == multiset(Zeroed(init)) + multiset{x.(score := 0)};
      ZeroedRemove(b, k);
    }
  }

  /** The promotion pass runs over the old hidden items followed by the ones
      just demoted: it promotes none of the demoted ones and leaves them in
      order at the end. */
  lemma PromotionSkipsDemoted(m: Matcher, q: string, shown: seq<Item>, hidden: seq<Item>)
    ensures Scored(m, q, hidden + Zeroed(Unmatched(m, q, shown))) == Scored(m, q, hidden)
    ensures Unmatched(m, q, hidden + Zeroed(Unmatched(m, q, shown)))
            == Unmatched(m, q, hidden) + Zeroed(Unmatched(m, q, shown))
  {
    var demoted := Zeroed(Unmatched(m, q, shown));
    DemotedStayRejected(m, q, shown);
    AllRejected(m, q, demoted);
    ScoredAppend(m, q, hidden, demoted);
    UnmatchedAppend(m, q, hidden, demoted);
    assert Scored(m, q, hidden + demoted) == Scored(m, q, hidden) + [];
    assert Unmatched(m, q, hidden + demoted) == Unmatched(m, q, hidden) + demoted;
  }

  /** Partition preserved: the two lists together hold the same items as
      before, scores aside. */
  lemma RefilterPartition(m: Matcher, cmp: (Item, Item) -> Ordering, q: string,
                          shown: seq<Item>, hidden: seq<Item>)
    ensures var r := Refilter(m, cmp, q, shown, hidden);
      multiset(Zeroed(r.shown + r.hidden)) == multiset(Zeroed(shown + hidden))
  {
    var r := Refilter(m, cmp, q, shown, hidden);
    var promoted := Scored(m, q, shown) + Scored(m, q, hidden);
    var demoted := Unmatched(m, q, shown);
    ZeroedAppend(r.shown, r.hidden);
    ZeroedAppend(shown, hidden);
    SortPermutation(cmp, promoted);
    ZeroedPermutation(r.shown, promoted);
    ZeroedAppend(Scored(m, q, shown), Scored(m, q, hidden));
    ZeroedAppend(Unmatched(m, q, hidden), Zeroed(demoted));
    assert Zeroed(Zeroed(demoted)) == Zeroed(demoted);
    SplitPermutation(m, q, shown);
    SplitPermutation(m, q, hidden);
  }

  /** Every shown item carries the matcher's score for it, and the matcher
      rejects every hidden item. */
  lemma RefilterAgrees(m: Matcher, cmp: (Item, Item) -> Ordering, q: string,
                       shown: seq<Item>, hidden: seq<Item>)
    ensures var r := Refilter(m, cmp, q, shown, hidden);
      && (forall x :: x in r.shown ==> m(x.name, q) == Some(x.score))
      && (forall x :: x in r.hidden ==> m(x.name, q) == None)
  {
    var r := Refilter(m, cmp, q, shown, hidden);
    var promoted := Scored(m, q, shown) + Scored(m, q, hidden);
    ScoredAgrees(m, q, shown);
    ScoredAgrees(m, q, hidden);
    UnmatchedRejected(m, q, hidden);
    SortPermutation(cmp, promoted);
    forall x | x in r.shown ensures m(x.name, q) == Some(x.score) {
      assert x in multiset(r.shown);
      assert x in multiset(promoted);
    }
    DemotedStayRejected(m, q, shown);
  }

  /** Every hidden item was hidden before or has just been demoted with its
      score reset; so hidden items keep score 0 once they all have it. */
  lemma RefilterHiddenUnscored(m: Matcher, cmp: (Item, Item) -> Ordering, q: string,
                               shown: seq<Item>, hidden: seq<Item>)
    ensures forall x :: x in Refilter(m, cmp, q, shown, hidden).hidden ==> x in hidden || x.score == 0
  {
    var u := Unmatched(m, q, shown);
    UnmatchedRejected(m, q, hidden);
    forall x | x in Zeroed(u) ensures x.score == 0 {
      var i :| 0 <= i < |u| && Zeroed(u)[i] == x;
    }
  }

  /** The shown list comes out sorted. */
  lemma RefilterSorted(m: Matcher, cmp: (Item, Item) -> Ordering, q: string,
                       shown: seq<Item>, hidden: seq<Item>)
    requires TotalPreorder(cmp)
    ensures Sorted(cmp, Refilter(m, cmp, q, shown, hidden).shown)
  {
    SortSorted(cmp, Scored(m, q, shown) + Scored(m, q, hidden));
  }

  /** Among shown items that compare equal, the kept ones come first, in
      their old order, then the promoted ones in their hidden order. */
  lemma RefilterStable(m: Matcher, cmp: (Item, Item) -> Ordering, q: string,
                       shown: seq<Item>, hidden: seq<Item>, k: Item)
    requires TotalPreorder(cmp)
    ensures EquivalentTo(cmp, Refilter(m, cmp, q, shown, hidden).shown, k)
            == EquivalentTo(cmp, Scored(m, q, shown), k) + EquivalentTo(cmp, Scored(m, q, hidden), k)
  {
    SortStable(cmp, Scored(m, q, shown) + Scored(m, q, hidden), k);
    EquivalentToAppend(cmp, Scored(m, q, shown), Scored(m, q, hidden), k);
  }

  /** The shown list comes out empty exactly when the matcher rejects every
      item of both lists. */
  lemma RefilterEmpty(m: Matcher, cmp: (Item, Item) -> Ordering, q: string,
                      shown: seq<Item>, hidden: seq<Item>)
    ensures Refilter(m, cmp, q, shown, hidden).shown == []
            <==> forall x :: x in shown + hidden ==> m(x.name, q) == None
  {
    var promoted := Scored(m, q, shown) + Scored(m, q, hidden);
    SortPermutation(cmp, promoted);
    assert |multiset(StableSort(cmp, promoted))| == |multiset(promoted)|;
    ScoredEmpty(m, q, shown);
    ScoredEmpty(m, q, hidden);
  }

  /** A state the query already settles (every shown item carries the
      matcher's score, every hidden one is rejected, and `shown` is sorted)
      is left exactly as it is. */
  lemma RefilterSettled(m: Matcher, cmp: (Item, Item) -> Ordering, q: string,
                        shown: seq<Item>, hidden: seq<Item>)
    requires forall i :: 0 <= i < |shown| ==> m(shown[i].name, q) == Some(shown[i].score)
    requires forall i :: 0 <= i < |hidden| ==> m(hidden[i].name, q) == None
    requires Sorted(cmp, shown)
    ensures Refilter(m, cmp, q, shown, hidden) == Lists(shown, hidden)
  {
    AllAccepted(m, q, shown);
    AllRejected(m, q, hidden);
    SortOfSorted(cmp, shown);
    assert Scored(m, q, shown) + Scored(m, q, hidden) == shown;
    assert Unmatched(m, q, hidden) + Zeroed(Unmatched(m, q, shown)) == hidden;
  }

  /** Filtering again with the same query changes nothing: no item moves,
      no score drifts and the order stays. */
  lemma RefilterIdempotent(m: Matcher, cmp: (Item, Item) -> Ordering, q: string,
                           shown: seq<Item>, hidden: seq<Item>)
    requires TotalPreorder(cmp)
    ensures var r := Refilter(m, cmp, q, shown, hidden);
      Refilter(m, cmp, q, r.shown, r.hidden) == r
  {
    var r := Refilter(m, cmp, q, shown, hidden);
    RefilterAgrees(m, cmp, q, shown, hidden);
    RefilterSorted(m, cmp, q, shown, hidden);
    RefilterSettled(m, cmp, q, r.shown, r.hidden);
  }
}
