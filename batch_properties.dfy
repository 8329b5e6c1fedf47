/**
 * What a call of `in_batches` with a block promises its caller, stated on
 * the closed form `Expected` that the batch loop is proved to compute:
 * coverage of the window, ascending order within and across pages, the page
 * size bound, the inclusive window bounds, the number of pages and of batch
 * queries, the ArgumentError raised before anything is yielded, and the
 * equivalence of load mode.
 */
module BatchProperties {
  import opened Wrappers
  import opened Sequences
  import opened Batches

  /** The keys of the window a call with these bounds pages through, in batch order. */
  function WindowKeys<V>(relation: Relation<V>, beginAt: Option<int>, endAt: Option<int>): (keys: seq<int>)
    ensures Increasing(keys)
    ensures forall k :: k in keys <==> k in relation.rows && InBounds(k, beginAt, endAt)
  {
    BatchOrder(ApplyLimits(relation.rows.Keys, beginAt, endAt))
  }

  /** The keys selected by each yielded relation, one entry per page. */
  function PagesKeys<V>(relation: Relation<V>, pages: seq<Page<V>>): (keys: seq<seq<int>>)
    ensures |keys| == |pages|
    ensures forall i :: 0 <= i < |pages| ==> keys[i] == PageKeys(relation, pages[i])
  {
    seq(|pages|, i requires 0 <= i < |pages| => PageKeys(relation, pages[i]))
  }

  /**
   * The relation yielded for a batch selects exactly the keys of that batch,
   * in the same order, when the key is plucked.
   */
  lemma PageKeysOf<V>(relation: Relation<V>, batch: seq<int>, load: bool)
    requires relation.selectsKey && Increasing(batch)
    requires forall k :: k in batch ==> k in relation.rows
    ensures PageKeys(relation, PageFor(relation, batch, load)) == batch
  {
    var page := PageFor(relation, batch, load);
    var ids := page.ids;
    forall k ensures k in PageKeys(relation, page) <==> k in batch {
      if k in batch {
        var i :| 0 <= i < |batch| && batch[i] == k;
        assert ids[i] == Some(k);
      }
      if Some(k) in ids {
        var i :| 0 <= i < |ids| && ids[i] == Some(k);
        assert batch[i] == k;
      }
    }
    IncreasingUnique(PageKeys(relation, page), batch);
  }

  /**
   * Reading a relation yielded for a batch returns the records of that
   * batch's keys, in the batch's order.
   */
  lemma PageRecordsOf<V>(relation: Relation<V>, batch: seq<int>, load: bool)
    requires relation.selectsKey && Increasing(batch)
    requires forall k :: k in batch ==> k in relation.rows
    ensures PageRecords(relation, PageFor(relation, batch, load)) == Records(relation.rows, batch)
  {
    PageKeysOf(relation, batch, load);
  }

  /**
   * With the key selected, a call with a block finishes, and its pages select
   * the split of the window into pages of `of` keys, page by page.
   */
  lemma YieldedPages<V>(relation: Relation<V>, of: int, beginAt: Option<int>, endAt: Option<int>, load: bool)
    requires of >= 1 && relation.selectsKey
    ensures var outcome := Expected(relation, true, of, beginAt, endAt, load);
      && outcome.Finished?
      && PagesKeys(relation, outcome.pages) == Chunks(WindowKeys(relation, beginAt, endAt), of)
  {
    var keys := WindowKeys(relation, beginAt, endAt);
    var batches := Chunks(keys, of);
    DivNat(|keys|, of);
    ExpectedFinished(relation, of, beginAt, endAt, load, batches, |keys| / of + 1);
    FlattenIncreasing(batches);
    FlattenMember(batches);
    PagesKeysOf(relation, batches, load);
  }

  /** The relations yielded for ascending batches of rows select those batches. */
  lemma PagesKeysOf<V>(relation: Relation<V>, batches: seq<seq<int>>, load: bool)
    requires relation.selectsKey
    requires forall i :: 0 <= i < |batches| ==> Increasing(batches[i])
    requires forall i, k :: 0 <= i < |batches| && k in batches[i] ==> k in relation.rows
    ensures PagesKeys(relation, PagesFor(relation, batches, load)) == batches
  {
    var pages := PagesFor(relation, batches, load);
    forall i | 0 <= i < |batches| ensures PageKeys(relation, pages[i]) == batches[i] {
      PageKeysOf(relation, batches[i], load);
    }
  }

  /**
   * Coverage: laid end to end, the yielded pages select every key of the
   * window exactly once, in ascending order.
   */
  lemma Coverage<V>(relation: Relation<V>, of: int, beginAt: Option<int>, endAt: Option<int>, load: bool)
    requires of >= 1 && relation.selectsKey
    ensures var outcome := Expected(relation, true, of, beginAt, endAt, load);
      && outcome.Finished?
      && Flatten(PagesKeys(relation, outcome.pages)) == WindowKeys(relation, beginAt, endAt)
  {
    YieldedPages(relation, of, beginAt, endAt, load);
  }

  /**
   * Ordering: each page is ascending, and every key of a page is below every
   * key of a later page, so no key is yielded twice.
   */
  lemma Ordering<V>(relation: Relation<V>, of: int, beginAt: Option<int>, endAt: Option<int>, load: bool)
    requires of >= 1 && relation.selectsKey
    ensures var outcome := Expected(relation, true, of, beginAt, endAt, load);
      var keys := PagesKeys(relation, outcome.pages);
      && outcome.Finished?
      && (forall i :: 0 <= i < |keys| ==> Increasing(keys[i]))
      && (forall i, j, x, y :: 0 <= i < j < |keys| && x in keys[i] && y in keys[j] ==> x < y)
  {
    YieldedPages(relation, of, beginAt, endAt, load);
    FlattenIncreasing(Chunks(WindowKeys(relation, beginAt, endAt), of));
  }

  /**
   * Page size: every page holds between 1 and `of` keys, and every page but
   * the last holds exactly `of`.
   */
  lemma PageSize<V>(relation: Relation<V>, of: int, beginAt: Option<int>, endAt: Option<int>, load: bool)
    requires of >= 1 && relation.selectsKey
    ensures var outcome := Expected(relation, true, of, beginAt, endAt, load);
      var keys := PagesKeys(relation, outcome.pages);
      && outcome.Finished?
      && (forall i :: 0 <= i < |keys| ==> 0 < |keys[i]| <= of)
      && (forall i :: 0 <= i < |keys| - 1 ==> |keys[i]| == of)
  {
    YieldedPages(relation, of, beginAt, endAt, load);
  }

  /**
   * Window bound: every yielded key is a row of the relation with
   * `begin_at <= k` when `begin_at` is given and `k <= end_at` when `end_at`
   * is given.
   */
  lemma WindowBound<V>(relation: Relation<V>, of: int, beginAt: Option<int>, endAt: Option<int>, load: bool)
    requires of >= 1 && relation.selectsKey
    ensures var outcome := Expected(relation, true, of, beginAt, endAt, load);
      var keys := PagesKeys(relation, outcome.pages);
      && outcome.Finished?
      && forall i, k :: 0 <= i < |keys| && k in keys[i] ==> k in relation.rows && InBounds(k, beginAt, endAt)
  {
    YieldedPages(relation, of, beginAt, endAt, load);
    var batches := Chunks(WindowKeys(relation, beginAt, endAt), of);
    FlattenMember(batches);
  }

  /**
   * Termination and the stopping rule, counted: for `n` keys in the window
   * there are ceil(n / of) pages and n div of + 1 batch queries, since the
   * loop stops on an empty batch or right after a short one.
   */
  lemma Counts<V>(relation: Relation<V>, of: int, beginAt: Option<int>, endAt: Option<int>, load: bool)
    requires of >= 1 && relation.selectsKey
    ensures var outcome := Expected(relation, true, of, beginAt, endAt, load);
      var n := |ApplyLimits(relation.rows.Keys, beginAt, endAt)|;
      && outcome.Finished?
      && |outcome.pages| == (n + of - 1) / of
      && outcome.fetches == n / of + 1
  {
    var keys := WindowKeys(relation, beginAt, endAt);
    ChunksCount(keys, of);
    assert |keys| == |ApplyLimits(relation.rows.Keys, beginAt, endAt)|;
    assert Expected(relation, true, of, beginAt, endAt, load)
        == Finished(PagesFor(relation, Chunks(keys, of), load), |keys| / of + 1);
  }

  /**
   * The ArgumentError: when the key is not selected, a call over a non-empty
   * window raises on its first batch query, before anything is yielded; over
   * an empty window it stops after that query without raising.
   */
  lemma KeyNotSelectedRaises<V>(relation: Relation<V>, of: int, beginAt: Option<int>, endAt: Option<int>, load: bool)
    requires of >= 1 && !relation.selectsKey
    ensures var outcome := Expected(relation, true, of, beginAt, endAt, load);
      var window := ApplyLimits(relation.rows.Keys, beginAt, endAt);
      && (window != {} ==> outcome == Raised(KeyNotSelected, [], 1))
      && (window == {} ==> outcome == Finished([], 1))
  {
    var window := ApplyLimits(relation.rows.Keys, beginAt, endAt);
    if window != {} {
      var k := Pick(window);
      ExpectedRaised(relation, of, beginAt, endAt, load, k);
    } else {
      assert WindowKeys(relation, beginAt, endAt) == [];
    }
  }

  /** A call with a block raises exactly when the key is not selected and the window has a row. */
  lemma RaisesIff<V>(relation: Relation<V>, of: int, beginAt: Option<int>, endAt: Option<int>, load: bool)
    requires of >= 1
    ensures Expected(relation, true, of, beginAt, endAt, load).Raised?
        <==> !relation.selectsKey && ApplyLimits(relation.rows.Keys, beginAt, endAt) != {}
  {
    if relation.selectsKey {
      YieldedPages(relation, of, beginAt, endAt, load);
    } else {
      KeyNotSelectedRaises(relation, of, beginAt, endAt, load);
    }
  }

  /**
   * Load mode: the same call with and without `load` issues the same batch
   * queries and yields relations over the same ids; with `load` each one
   * carries, preloaded, the records the relation yielded without `load`
   * would read.
   */
  lemma LoadAgnostic<V>(relation: Relation<V>, of: int, beginAt: Option<int>, endAt: Option<int>)
    requires of >= 1
    ensures var loaded := Expected(relation, true, of, beginAt, endAt, true);
      var lazy := Expected(relation, true, of, beginAt, endAt, false);
      && loaded.Finished? == lazy.Finished?
      && loaded.Raised? == lazy.Raised?
      && (loaded.Finished? ==>
            && loaded.fetches == lazy.fetches
            && |loaded.pages| == |lazy.pages|
            && forall i :: 0 <= i < |lazy.pages| ==>
                 && loaded.pages[i].ids == lazy.pages[i].ids
                 && lazy.pages[i].preloaded.None?
                 && loaded.pages[i].preloaded == Some(PageRecords(relation, lazy.pages[i])))
  {
    if relation.selectsKey {
      var keys := WindowKeys(relation, beginAt, endAt);
      var batches := Chunks(keys, of);
      DivNat(|keys|, of);
      ExpectedFinished(relation, of, beginAt, endAt, true, batches, |keys| / of + 1);
      ExpectedFinished(relation, of, beginAt, endAt, false, batches, |keys| / of + 1);
      FlattenIncreasing(batches);
      FlattenMember(batches);
      LoadPages(relation, batches);
    } else {
      KeyNotSelectedRaises(relation, of, beginAt, endAt, true);
      KeyNotSelectedRaises(relation, of, beginAt, endAt, false);
    }
  }

  /** Page by page, the relations yielded with and without `load` for ascending batches of rows. */
  lemma LoadPages<V>(relation: Relation<V>, batches: seq<seq<int>>)
    requires relation.selectsKey
    requires forall i :: 0 <= i < |batches| ==> Increasing(batches[i])
    requires forall i, k :: 0 <= i < |batches| && k in batches[i] ==> k in relation.rows
    ensures var loaded := PagesFor(relation, batches, true);
      var lazy := PagesFor(relation, batches, false);
      forall i :: 0 <= i < |batches| ==>
        && loaded[i].ids == lazy[i].ids
        && lazy[i].preloaded.None?
        && loaded[i].preloaded == Some(PageRecords(relation, lazy[i]))
  {
    forall i | 0 <= i < |batches|
      ensures PageRecords(relation, PageFor(relation, batches[i], false)) == Records(relation.rows, batches[i])
    {
      PageRecordsOf(relation, batches[i], false);
    }
  }

  /**
   * Restartability: after a full page whose last key is `last`, a new call
   * starting at `last + 1` (the bound is inclusive) yields exactly the pages
   * the uninterrupted call yields after that page.
   */
  lemma Restart<V>(relation: Relation<V>, of: int, beginAt: Option<int>, endAt: Option<int>, load: bool,
                   i: int, last: int)
    requires of >= 1 && relation.selectsKey
    requires var batches := Chunks(WindowKeys(relation, beginAt, endAt), of);
      0 <= i < |batches| && |batches[i]| == of && last == batches[i][of - 1]
    ensures var whole := Expected(relation, true, of, beginAt, endAt, load);
      var resumed := Expected(relation, true, of, Some(last + 1), endAt, load);
      && whole.Finished? && resumed.Finished? && i < |whole.pages|
      && PagesKeys(relation, resumed.pages) == PagesKeys(relation, whole.pages)[i + 1..]
  {
    YieldedPages(relation, of, beginAt, endAt, load);
    YieldedPages(relation, of, Some(last + 1), endAt, load);
    RestChunks(relation, of, beginAt, endAt, i, last);
  }

  /** The split of the window above the last key of a full page is the split's later pages. */
  lemma RestChunks<V>(relation: Relation<V>, of: int, beginAt: Option<int>, endAt: Option<int>, i: int, last: int)
    requires of >= 1
    requires var batches := Chunks(WindowKeys(relation, beginAt, endAt), of);
      0 <= i < |batches| && |batches[i]| == of && last == batches[i][of - 1]
    ensures var batches := Chunks(WindowKeys(relation, beginAt, endAt), of);
      Chunks(WindowKeys(relation, Some(last + 1), endAt), of) == batches[i + 1..]
  {
    var batches := Chunks(WindowKeys(relation, beginAt, endAt), of);
    RestWindow(relation, of, beginAt, endAt, i, last);
    ChunksFlatten(batches[i + 1..], of);
  }

  /** The keys of the window above the last key of a page are the later pages laid end to end. */
  lemma RestWindow<V>(relation: Relation<V>, of: int, beginAt: Option<int>, endAt: Option<int>, i: int, last: int)
    requires of >= 1
    requires var batches := Chunks(WindowKeys(relation, beginAt, endAt), of);
      0 <= i < |batches| && |batches[i]| == of && last == batches[i][of - 1]
    ensures var batches := Chunks(WindowKeys(relation, beginAt, endAt), of);
      WindowKeys(relation, Some(last + 1), endAt) == Flatten(batches[i + 1..])
  {
    var w := WindowKeys(relation, beginAt, endAt);
    var batches := Chunks(w, of);
    var rest := Flatten(batches[i + 1..]);
    var resumed := WindowKeys(relation, Some(last + 1), endAt);
    assert Flatten(batches) == w;
    assert batches[i][|batches[i]| - 1] == last;
    FlattenAfter(batches, i);
    assert last in w by {
      FlattenMember(batches);
      assert last in batches[i];
    }
    WindowAbove(relation, beginAt, endAt, last);
    forall k ensures k in resumed <==> k in rest {
      assert k in rest <==> k in w && last < k;
    }
    IncreasingUnique(resumed, rest);
  }

  /** Above a key of the window, restarting at the next key keeps exactly the window's later keys. */
  lemma WindowAbove<V>(relation: Relation<V>, beginAt: Option<int>, endAt: Option<int>, last: int)
    requires last in WindowKeys(relation, beginAt, endAt)
    ensures forall k :: (k in WindowKeys(relation, Some(last + 1), endAt)
      <==> k in WindowKeys(relation, beginAt, endAt) && last < k)
  {
    assert InBounds(last, beginAt, endAt);
  }

  /**
   * Splitting the work between two workers at a point `m` with
   * `begin_at <= m <= end_at + 1`, the first one ending at `m - 1` and the
   * second starting at `m` (both bounds are inclusive, so ending the first at
   * `m` would hand key `m` to both): the pages of the two calls together
   * select the keys of the whole window, in order, each exactly once.
   */
  lemma SplitWindow<V>(relation: Relation<V>, of: int, beginAt: Option<int>, endAt: Option<int>, m: int, load: bool)
    requires of >= 1 && relation.selectsKey
    requires InBounds(m, beginAt, endAt) || InBounds(m - 1, beginAt, endAt)
    ensures var first := Expected(relation, true, of, beginAt, Some(m - 1), load);
      var second := Expected(relation, true, of, Some(m), endAt, load);
      var whole := Expected(relation, true, of, beginAt, endAt, load);
      && first.Finished? && second.Finished? && whole.Finished?
      && Flatten(PagesKeys(relation, first.pages)) + Flatten(PagesKeys(relation, second.pages))
         == Flatten(PagesKeys(relation, whole.pages))
  {
    Coverage(relation, of, beginAt, Some(m - 1), load);
    Coverage(relation, of, Some(m), endAt, load);
    Coverage(relation, of, beginAt, endAt, load);
    WindowSplit(relation, beginAt, endAt, m);
  }

  /**
   * The split as the documentation words it, the first worker ending at `m`
   * and the second starting at `m`: both bounds are inclusive, so a row with
   * key `m` in the window is yielded by both workers.
   */
  lemma DocumentedSplitOverlaps<V>(relation: Relation<V>, of: int, beginAt: Option<int>, endAt: Option<int>,
                                   m: int, load: bool)
    requires of >= 1 && relation.selectsKey
    requires m in relation.rows && InBounds(m, beginAt, endAt)
    ensures var first := Expected(relation, true, of, beginAt, Some(m), load);
      var second := Expected(relation, true, of, Some(m), endAt, load);
      && first.Finished? && second.Finished?
      && m in Flatten(PagesKeys(relation, first.pages))
      && m in Flatten(PagesKeys(relation, second.pages))
  {
    Coverage(relation, of, beginAt, Some(m), load);
    Coverage(relation, of, Some(m), endAt, load);
  }

  /** The window cut at key `m` lists as the part below `m` followed by the part from `m` on. */
  lemma WindowSplit<V>(relation: Relation<V>, beginAt: Option<int>, endAt: Option<int>, m: int)
    requires InBounds(m, beginAt, endAt) || InBounds(m - 1, beginAt, endAt)
    ensures WindowKeys(relation, beginAt, Some(m - 1)) + WindowKeys(relation, Some(m), endAt)
         == WindowKeys(relation, beginAt, endAt)
  {
    var a := WindowKeys(relation, beginAt, Some(m - 1));
    var b := WindowKeys(relation, Some(m), endAt);
    var w := WindowKeys(relation, beginAt, endAt);
    ConcatIncreasing(a, b);
    forall k ensures k in a + b <==> k in w {
      assert k in a + b <==> k in a || k in b;
    }
    IncreasingUnique(a + b, w);
  }
}
