/**
 * Keyset pagination over a filtered relation: the batching loop of
 * `in_batches`, the inclusive bound filters of `apply_limits` and the
 * ascending primary-key order of `batch_order`.
 *
 * The relation is the set of rows that satisfy the caller's filter, keyed by
 * their (integer) primary key. A batch query is modelled by what it returns:
 * the first `of` keys, in ascending order, of the rows inside the
 * `[begin_at, end_at]` window and, after the first batch, above the last key
 * seen.
 */
module Batches {
  import opened Wrappers
  import opened Sequences

  /** The batch size used when the caller passes no `of`. */
  const DefaultBatchSize := 1000

  /** The message of the ArgumentError raised when a batch has no usable last key. */
  const KeyNotSelected := "Primary key not included in the custom select clause"

  /**
   * The relation `in_batches` is called on: the rows matching the caller's
   * filter, by primary key, and whether plucking the primary key from it
   * yields the key (false when a custom select clause leaves the key out, so
   * that every plucked id is nil).
   */
  datatype Relation<V> = Relation(rows: map<int, V>, selectsKey: bool)

  /**
   * A yielded relation: the rows of the original relation whose key is among
   * `ids`, reordered by ascending key. In load mode `preloaded` holds the
   * records the batch query already returned.
   */
  datatype Page<V> = Page(ids: seq<Option<int>>, preloaded: Option<seq<V>>)

  /** What `in_batches` returns when no block is given. */
  datatype BatchEnumerator<V> =
    BatchEnumerator(of: int, beginAt: Option<int>, endAt: Option<int>, relation: Relation<V>)

  /**
   * The observable result of one call: the enumerator (no block given), or
   * the pages yielded to the block and the number of batch queries issued,
   * ending normally or by the ArgumentError.
   */
  datatype Outcome<V> =
    | Enumerator(enumerator: BatchEnumerator<V>)
    | Finished(pages: seq<Page<V>>, fetches: nat)
    | Raised(message: string, pages: seq<Page<V>>, fetches: nat)

  /** A key passes the inclusive `begin_at` / `end_at` bounds; an absent bound passes every key. */
  predicate InBounds(k: int, beginAt: Option<int>, endAt: Option<int>) {
    (beginAt.None? || beginAt.value <= k) && (endAt.None? || k <= endAt.value)
  }

  /** apply_limits: add `key >= begin_at` when given, then `key <= end_at` when given. */
  function ApplyLimits(keys: set<int>, beginAt: Option<int>, endAt: Option<int>): (window: set<int>)
    ensures window <= keys
    ensures forall k :: k in window <==> k in keys && InBounds(k, beginAt, endAt)
    ensures beginAt.None? && endAt.None? ==> window == keys
  {
    var lowered := if beginAt.Some? then set k | k in keys && k >= beginAt.value else keys;
    if endAt.Some? then set k | k in lowered && k <= endAt.value else lowered
  }

  /** A set with no members is the empty set. */
  lemma NoMembers(keys: set<int>)
    requires forall x :: x !in keys
    ensures keys == {}
  {
    assert forall x :: x in keys <==> x in {};
  }

  /** Some member of a non-empty set. */
  lemma Pick(keys: set<int>) returns (x: int)
    requires keys != {}
    ensures x in keys
  {
    if forall y :: y !in keys {
      NoMembers(keys);
      assert false;
    }
    x :| x in keys;
  }

  lemma {:induction false} LeastWitness(keys: set<int>) returns (m: int)
    requires keys != {}
    ensures m in keys && forall k :: k in keys ==> m <= k
    decreases |keys|
  {
    var x := Pick(keys);
    var others := keys - {x};
    if others == {} {
      m := x;
      forall k | k in keys ensures m <= k {
        assert k !in others;
      }
    } else {
      var least := LeastWitness(others);
      m := if x < least then x else least;
      forall k | k in keys ensures m <= k {
        if k != x {
          assert k in others;
        }
      }
    }
  }

  lemma LeastExists(keys: set<int>)
    requires keys != {}
    ensures exists m :: m in keys && forall k :: k in keys ==> m <= k
  {
    var m := LeastWitness(keys);
  }

  /** The smallest key of a non-empty set. */
  function Least(keys: set<int>): (m: int)
    requires keys != {}
    ensures m in keys && forall k :: k in keys ==> m <= k
  {
    LeastExists(keys);
    var m :| m in keys && forall k :: k in keys ==> m <= k;
    m
  }

  /**
   * batch_order: the rows of a query listed by ascending primary key. The
   * listing holds every key exactly once.
   */
  function BatchOrder(keys: set<int>): (r: seq<int>)
    ensures Increasing(r)
    ensures |r| == |keys|
    ensures forall k :: k in r <==> k in keys
    decreases |keys|
  {
    if keys == {} then []
    else
      var m := Least(keys);
      [m] + BatchOrder(keys - {m})
  }

  /** An ascending listing is the batch order of its own keys. */
  lemma BatchOrderOf(s: seq<int>, keys: set<int>)
    requires Increasing(s)
    requires forall k :: k in s <==> k in keys
    ensures BatchOrder(keys) == s
  {
    IncreasingUnique(BatchOrder(keys), s);
  }

  /** The keys a batch query may return: the window, above the cursor once one is set. */
  function AfterCursor(window: set<int>, cursor: Option<int>): (remaining: set<int>)
    ensures remaining <= window
    ensures forall k :: k in remaining <==> k in window && (cursor.None? || cursor.value < k)
  {
    if cursor.None? then window else set k | k in window && k > cursor.value
  }

  /**
   * One batch query (`pluck` of the primary key on the ordered, limited
   * relation): the `of` smallest keys of the window above the cursor.
   */
  function Fetch(window: set<int>, cursor: Option<int>, of: int): (rows: seq<int>)
    requires of >= 1
    ensures Increasing(rows)
    ensures |rows| <= of
    ensures forall k :: k in rows <==> k in window && (cursor.None? || cursor.value < k) && (|rows| < of || k <= rows[of - 1])
  {
    var listing := BatchOrder(AfterCursor(window, cursor));
    TakeMembers(listing, of);
    Take(listing, of)
  }

  /**
   * After a full batch the cursor moves to its last key, and the keys still
   * to come are exactly those that follow the batch in the listing.
   */
  lemma NextCursor(window: set<int>, cursor: Option<int>, of: int)
    requires of >= 1
    requires |BatchOrder(AfterCursor(window, cursor))| >= of
    ensures BatchOrder(AfterCursor(window, Some(BatchOrder(AfterCursor(window, cursor))[of - 1])))
         == BatchOrder(AfterCursor(window, cursor))[of..]
  {
    var listing := BatchOrder(AfterCursor(window, cursor));
    var last := listing[of - 1];
    assert last in listing;
    DropMembers(listing, of);
    BatchOrderOf(listing[of..], AfterCursor(window, Some(last)));
  }

  /**
   * The state of a pass between two batch queries: the pages yielded so far
   * followed by the split of the keys still to come make up the split of the
   * whole window, and every yielded page is full.
   */
  ghost predicate Progress(window: set<int>, of: int, cursor: Option<int>, batches: seq<seq<int>>)
    requires of >= 1
  {
    && Chunks(BatchOrder(window), of) == batches + Chunks(BatchOrder(AfterCursor(window, cursor)), of)
    && forall i :: 0 <= i < |batches| ==> |batches[i]| == of
  }

  /** Progress holds before the first batch query. */
  lemma ProgressStart(window: set<int>, of: int)
    requires of >= 1
    ensures Progress(window, of, None, [])
  {
    assert AfterCursor(window, None) == window;
  }

  /**
   * One batch query from a state of progress: a short (or empty) batch
   * completes the split and accounts for every query issued; a full batch
   * moves the cursor to its last key, shrinks what is left and keeps the
   * progress.
   */
  lemma Step(window: set<int>, of: int, cursor: Option<int>, batches: seq<seq<int>>)
    requires of >= 1 && Progress(window, of, cursor, batches)
    ensures var rows := Fetch(window, cursor, of);
      var keys := BatchOrder(window);
      && (|rows| < of ==>
            Chunks(keys, of) == batches + (if rows == [] then [] else [rows]) && |keys| / of == |batches|)
      && (|rows| == of ==>
            Progress(window, of, Some(rows[of - 1]), batches + [rows])
            && |AfterCursor(window, Some(rows[of - 1]))| < |AfterCursor(window, cursor)|)
  {
    var listing := BatchOrder(AfterCursor(window, cursor));
    var rows := Fetch(window, cursor, of);
    assert rows == Take(listing, of);
    if |listing| < of {
      ShortStep(window, of, cursor, batches);
    } else {
      FullStep(window, of, cursor, batches);
    }
  }

  lemma ShortStep(window: set<int>, of: int, cursor: Option<int>, batches: seq<seq<int>>)
    requires of >= 1 && Progress(window, of, cursor, batches)
    requires |BatchOrder(AfterCursor(window, cursor))| < of
    ensures var rows := BatchOrder(AfterCursor(window, cursor));
      var keys := BatchOrder(window);
      Chunks(keys, of) == batches + (if rows == [] then [] else [rows]) && |keys| / of == |batches|
  {
    var keys := BatchOrder(window);
    var rows := BatchOrder(AfterCursor(window, cursor));
    assert Chunks(rows, of) == if rows == [] then [] else [rows];
    var done := Flatten(batches);
    FlattenFull(batches, of);
    assert Flatten(Chunks(keys, of)) == keys;
    FlattenConcat(batches, Chunks(rows, of));
    assert keys == done + rows;
    DivUnique(|keys|, of, |batches|, |rows|);
  }

  lemma FullStep(window: set<int>, of: int, cursor: Option<int>, batches: seq<seq<int>>)
    requires of >= 1 && Progress(window, of, cursor, batches)
    requires |BatchOrder(AfterCursor(window, cursor))| >= of
    ensures var listing := BatchOrder(AfterCursor(window, cursor));
      var rows := listing[..of];
      && Progress(window, of, Some(rows[of - 1]), batches + [rows])
      && |AfterCursor(window, Some(rows[of - 1]))| < |AfterCursor(window, cursor)|
  {
    var listing := BatchOrder(AfterCursor(window, cursor));
    var rows := listing[..of];
    var next := AfterCursor(window, Some(rows[of - 1]));
    NextCursor(window, cursor, of);
    assert BatchOrder(next) == listing[of..];
    SplitOff(BatchOrder(window), batches, listing, of);
    AllFull(batches, rows, of);
  }

  /** Splitting a full page off the keys still to come keeps the split of the whole. */
  lemma SplitOff(keys: seq<int>, batches: seq<seq<int>>, listing: seq<int>, of: int)
    requires of >= 1 && |listing| >= of
    requires Chunks(keys, of) == batches + Chunks(listing, of)
    ensures Chunks(keys, of) == (batches + [listing[..of]]) + Chunks(listing[of..], of)
  {
    var later := Chunks(listing[of..], of);
    assert Chunks(listing, of) == [listing[..of]] + later;
    ConcatAssoc(batches, [listing[..of]], later);
  }

  lemma AllFull(batches: seq<seq<int>>, rows: seq<int>, of: int)
    requires forall i :: 0 <= i < |batches| ==> |batches[i]| == of
    requires |rows| == of
    ensures forall i :: 0 <= i < |batches + [rows]| ==> |(batches + [rows])[i]| == of
  {
  }

  /** The ids plucked from a batch: the keys themselves, or nil for each row when the key is not selected. */
  function Pluck(rows: seq<int>, selectsKey: bool): (ids: seq<Option<int>>)
    ensures |ids| == |rows|
    ensures forall i :: 0 <= i < |ids| ==> ids[i] == (if selectsKey then Some(rows[i]) else None)
  {
    seq(|rows|, i requires 0 <= i < |rows| => if selectsKey then Some(rows[i]) else None)
  }

  /** The records of the given keys that the relation holds, in the order of the keys. */
  function Records<V>(rows: map<int, V>, keys: seq<int>): seq<V>
  {
    if keys == [] then []
    else (if keys[0] in rows then [rows[keys[0]]] else []) + Records(rows, keys[1..])
  }

  /** When every key is held, the records are exactly those of the keys, in order. */
  lemma {:induction false} RecordsOf<V>(rows: map<int, V>, keys: seq<int>)
    requires forall i :: 0 <= i < |keys| ==> keys[i] in rows
    ensures |Records(rows, keys)| == |keys|
    ensures forall i :: 0 <= i < |keys| ==> Records(rows, keys)[i] == rows[keys[i]]
    decreases |keys|
  {
    if keys != [] {
      RecordsOf(rows, keys[1..]);
      forall i | 0 <= i < |keys| ensures Records(rows, keys)[i] == rows[keys[i]] {
        if i > 0 {
          assert keys[i] == keys[1..][i - 1];
        }
      }
    }
  }

  /** The relation yielded for one batch of keys: scoped to the plucked ids, preloaded in load mode. */
  function PageFor<V>(relation: Relation<V>, keys: seq<int>, load: bool): Page<V>
  {
    Page(Pluck(keys, relation.selectsKey), if load then Some(Records(relation.rows, keys)) else None)
  }

  /** The relations yielded for a sequence of batches. */
  function PagesFor<V>(relation: Relation<V>, batches: seq<seq<int>>, load: bool): (pages: seq<Page<V>>)
    ensures |pages| == |batches|
    ensures forall i :: 0 <= i < |batches| ==> pages[i] == PageFor(relation, batches[i], load)
  {
    seq(|batches|, i requires 0 <= i < |batches| => PageFor(relation, batches[i], load))
  }

  lemma PagesForAppend<V>(relation: Relation<V>, batches: seq<seq<int>>, batch: seq<int>, load: bool)
    ensures PagesFor(relation, batches + [batch], load) == PagesFor(relation, batches, load) + [PageFor(relation, batch, load)]
  {
  }

  /** The keys a yielded relation selects, in the order it returns them. */
  function PageKeys<V>(relation: Relation<V>, page: Page<V>): (keys: seq<int>)
    ensures Increasing(keys)
    ensures forall k :: k in keys <==> k in relation.rows && Some(k) in page.ids
  {
    BatchOrder(set k | k in relation.rows && Some(k) in page.ids)
  }

  /** The records a consumer reads from a yielded relation: the preloaded ones, or a fresh query's. */
  function PageRecords<V>(relation: Relation<V>, page: Page<V>): seq<V>
  {
    if page.preloaded.Some? then page.preloaded.value
    else Records(relation.rows, PageKeys(relation, page))
  }

  /**
   * The whole call in closed form: with no block, the enumerator (which does
   * not carry `load`); otherwise the window listed in batch order and split
   * into pages of `of`, with one batch query per full page plus the last one,
   * which comes back short or empty; when the key is not selected, the first
   * non-empty batch raises before anything is yielded.
   */
  function Expected<V>(relation: Relation<V>, blockGiven: bool, of: int,
                       beginAt: Option<int>, endAt: Option<int>, load: bool): Outcome<V>
    requires of >= 1
  {
    if !blockGiven then Enumerator(BatchEnumerator(of, beginAt, endAt, relation))
    else
      var keys := BatchOrder(ApplyLimits(relation.rows.Keys, beginAt, endAt));
      if keys != [] && !relation.selectsKey then Raised(KeyNotSelected, [], 1)
      else
        DivNat(|keys|, of);
        Finished(PagesFor(relation, Chunks(keys, of), load), |keys| / of + 1)
  }

  /** A pass that ends normally: the closed form holds once the pages and the fetch count match it. */
  lemma ExpectedFinished<V>(relation: Relation<V>, of: int, beginAt: Option<int>, endAt: Option<int>,
                            load: bool, batches: seq<seq<int>>, fetches: nat)
    requires of >= 1
    requires var keys := BatchOrder(ApplyLimits(relation.rows.Keys, beginAt, endAt));
      && (keys == [] || relation.selectsKey)
      && batches == Chunks(keys, of)
      && fetches == |keys| / of + 1
    ensures Expected(relation, true, of, beginAt, endAt, load) == Finished(PagesFor(relation, batches, load), fetches)
  {
  }

  /** A pass over a non-empty window whose key is not selected raises on its first batch. */
  lemma ExpectedRaised<V>(relation: Relation<V>, of: int, beginAt: Option<int>, endAt: Option<int>,
                          load: bool, k: int)
    requires of >= 1 && !relation.selectsKey
    requires k in ApplyLimits(relation.rows.Keys, beginAt, endAt)
    ensures Expected(relation, true, of, beginAt, endAt, load) == Raised(KeyNotSelected, [], 1)
  {
    assert k in BatchOrder(ApplyLimits(relation.rows.Keys, beginAt, endAt));
  }

  /**
   * What the batch loop does from a given cursor on, with the pages yielded
   * and the queries issued so far: the specification the loop is proved to
   * run.
   */
  ghost function Run<V>(relation: Relation<V>, window: set<int>, of: int, load: bool,
                        cursor: Option<int>, pages: seq<Page<V>>, fetches: nat): Outcome<V>
    requires of >= 1
    decreases |AfterCursor(window, cursor)|
  {
    var rows := Fetch(window, cursor, of);
    var ids := Pluck(rows, relation.selectsKey);
    if ids == [] then Finished(pages, fetches + 1)
    else if ids[|ids| - 1].None? then Raised(KeyNotSelected, pages, fetches + 1)
    else if |ids| < of then Finished(pages + [PageFor(relation, rows, load)], fetches + 1)
    else
      Shrinks(window, cursor, of);
      Run(relation, window, of, load, Some(rows[of - 1]), pages + [PageFor(relation, rows, load)], fetches + 1)
  }

  /** A full batch leaves fewer keys to come. */
  lemma Shrinks(window: set<int>, cursor: Option<int>, of: int)
    requires of >= 1
    ensures var rows := Fetch(window, cursor, of);
      |rows| == of ==> |AfterCursor(window, Some(rows[of - 1]))| < |AfterCursor(window, cursor)|
  {
    var listing := BatchOrder(AfterCursor(window, cursor));
    if |listing| >= of {
      NextCursor(window, cursor, of);
    }
  }

  /** From any state of progress, the rest of the loop completes the closed form. */
  lemma {:induction false} RunExpected<V>(relation: Relation<V>, of: int, beginAt: Option<int>, endAt: Option<int>,
                                         load: bool, cursor: Option<int>, batches: seq<seq<int>>)
    requires of >= 1
    requires Progress(ApplyLimits(relation.rows.Keys, beginAt, endAt), of, cursor, batches)
    requires batches != [] ==> relation.selectsKey
    ensures Run(relation, ApplyLimits(relation.rows.Keys, beginAt, endAt), of, load, cursor, PagesFor(relation, batches, load), |batches|)
         == Expected(relation, true, of, beginAt, endAt, load)
    decreases |AfterCursor(ApplyLimits(relation.rows.Keys, beginAt, endAt), cursor)|
  {
    var window := ApplyLimits(relation.rows.Keys, beginAt, endAt);
    var rows := Fetch(window, cursor, of);
    if |rows| == of && relation.selectsKey {
      Step(window, of, cursor, batches);
      RunNext(relation, window, of, load, cursor, PagesFor(relation, batches, load), |batches|);
      PagesForAppend(relation, batches, rows, load);
      RunExpected(relation, of, beginAt, endAt, load, Some(rows[of - 1]), batches + [rows]);
    } else {
      RunEnd(relation, of, beginAt, endAt, load, cursor, batches);
    }
  }

  /** A full batch with the key selected: the loop goes on from its last key. */
  lemma RunNext<V>(relation: Relation<V>, window: set<int>, of: int, load: bool,
                   cursor: Option<int>, pages: seq<Page<V>>, fetches: nat)
    requires of >= 1 && relation.selectsKey
    requires |Fetch(window, cursor, of)| == of
    ensures var rows := Fetch(window, cursor, of);
      Run(relation, window, of, load, cursor, pages, fetches)
      == Run(relation, window, of, load, Some(rows[of - 1]), pages + [PageFor(relation, rows, load)], fetches + 1)
  {
  }

  /** A batch that is short, or whose key is not selected, ends the loop as the closed form says. */
  lemma RunEnd<V>(relation: Relation<V>, of: int, beginAt: Option<int>, endAt: Option<int>,
                  load: bool, cursor: Option<int>, batches: seq<seq<int>>)
    requires of >= 1
    requires Progress(ApplyLimits(relation.rows.Keys, beginAt, endAt), of, cursor, batches)
    requires batches != [] ==> relation.selectsKey
    requires |Fetch(ApplyLimits(relation.rows.Keys, beginAt, endAt), cursor, of)| < of || !relation.selectsKey
    ensures Run(relation, ApplyLimits(relation.rows.Keys, beginAt, endAt), of, load, cursor, PagesFor(relation, batches, load), |batches|)
         == Expected(relation, true, of, beginAt, endAt, load)
  {
    var window := ApplyLimits(relation.rows.Keys, beginAt, endAt);
    var rows := Fetch(window, cursor, of);
    if rows == [] {
      RunEmpty(relation, of, beginAt, endAt, load, cursor, batches);
    } else if !relation.selectsKey {
      assert batches == [];
      ExpectedRaised(relation, of, beginAt, endAt, load, rows[0]);
    } else {
      RunShort(relation, of, beginAt, endAt, load, cursor, batches);
    }
  }

  /** An empty batch ends the loop with the pages yielded so far. */
  lemma RunEmpty<V>(relation: Relation<V>, of: int, beginAt: Option<int>, endAt: Option<int>,
                    load: bool, cursor: Option<int>, batches: seq<seq<int>>)
    requires of >= 1
    requires Progress(ApplyLimits(relation.rows.Keys, beginAt, endAt), of, cursor, batches)
    requires batches != [] ==> relation.selectsKey
    requires Fetch(ApplyLimits(relation.rows.Keys, beginAt, endAt), cursor, of) == []
    ensures Run(relation, ApplyLimits(relation.rows.Keys, beginAt, endAt), of, load, cursor, PagesFor(relation, batches, load), |batches|)
         == Expected(relation, true, of, beginAt, endAt, load)
  {
    var window := ApplyLimits(relation.rows.Keys, beginAt, endAt);
    Step(window, of, cursor, batches);
    ExpectedFinished(relation, of, beginAt, endAt, load, batches, |batches| + 1);
  }

  /** A short, non-empty batch with the key selected is yielded and ends the loop. */
  lemma RunShort<V>(relation: Relation<V>, of: int, beginAt: Option<int>, endAt: Option<int>,
                    load: bool, cursor: Option<int>, batches: seq<seq<int>>)
    requires of >= 1 && relation.selectsKey
    requires Progress(ApplyLimits(relation.rows.Keys, beginAt, endAt), of, cursor, batches)
    requires 0 < |Fetch(ApplyLimits(relation.rows.Keys, beginAt, endAt), cursor, of)| < of
    ensures Run(relation, ApplyLimits(relation.rows.Keys, beginAt, endAt), of, load, cursor, PagesFor(relation, batches, load), |batches|)
         == Expected(relation, true, of, beginAt, endAt, load)
  {
    var window := ApplyLimits(relation.rows.Keys, beginAt, endAt);
    var rows := Fetch(window, cursor, of);
    var ids := Pluck(rows, relation.selectsKey);
    assert ids[|ids| - 1] == Some(rows[|rows| - 1]);
    assert Run(relation, window, of, load, cursor, PagesFor(relation, batches, load), |batches|)
        == Finished(PagesFor(relation, batches, load) + [PageFor(relation, rows, load)], |batches| + 1);
    Step(window, of, cursor, batches);
    PagesForAppend(relation, batches, rows, load);
    ExpectedFinished(relation, of, beginAt, endAt, load, batches + [rows], |batches| + 1);
  }

  /**
   * in_batches. Without a block, returns the enumerator and queries nothing.
   * With a block, runs the batch loop: fetch the next batch of keys, stop on
   * an empty one, raise when its last id is nil, yield it, stop after a short
   * one, and otherwise move the cursor to its last key.
   */
  method InBatches<V>(relation: Relation<V>, blockGiven: bool, of: int,
                      beginAt: Option<int>, endAt: Option<int>, load: bool)
    returns (outcome: Outcome<V>)
    requires of >= 1
    ensures outcome == Expected(relation, blockGiven, of, beginAt, endAt, load)
    ensures !blockGiven ==> outcome == Enumerator(BatchEnumerator(of, beginAt, endAt, relation))
    ensures blockGiven ==> !outcome.Enumerator?
  {
    if !blockGiven {
      return Enumerator(BatchEnumerator(of, beginAt, endAt, relation));
    }
    var window := ApplyLimits(relation.rows.Keys, beginAt, endAt);
    var cursor: Option<int> := None;
    var pages: seq<Page<V>> := [];
    var fetches: nat := 0;
    ProgressStart(window, of);
    RunExpected(relation, of, beginAt, endAt, load, None, []);
    ghost var goal := Run(relation, window, of, load, cursor, pages, fetches);
    while true
      invariant Run(relation, window, of, load, cursor, pages, fetches) == goal
      decreases |AfterCursor(window, cursor)|
    {
      var rows := Fetch(window, cursor, of);
      var ids := Pluck(rows, relation.selectsKey);
      var yielded := PageFor(relation, rows, load);
      if |rows| == of && relation.selectsKey {
        RunNext(relation, window, of, load, cursor, pages, fetches);
        Shrinks(window, cursor, of);
      }
      fetches := fetches + 1;
      if |ids| == 0 {
        return Finished(pages, fetches);
      }
      var offset := ids[|ids| - 1];
      if offset.None? {
        return Raised(KeyNotSelected, pages, fetches);
      }
      pages := pages + [yielded];
      if |ids| < of {
        return Finished(pages, fetches);
      }
      cursor := offset;
    }
  }
}
