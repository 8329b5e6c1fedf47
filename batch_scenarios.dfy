/**
 * The repository's own examples: three users with money 100, 200 and 0,
 * listed by id, paged with `of: 2` and with the default batch size. Each
 * page is read back through the yielded relation; a query count is the batch
 * queries plus one statement per yielded page (as `update_all` on each page
 * issues).
 */
module BatchScenarios {
  import opened Wrappers
  import opened Sequences
  import opened Batches
  import opened BatchProperties

  /** The users table: ids 1, 2 and 3 with money 100, 200 and 0. */
  function Users(): Relation<int> {
    Relation(map[1 := 100, 2 := 200, 3 := 0], true)
  }

  /** The whole table in batch order. */
  lemma UsersWindow()
    ensures WindowKeys(Users(), None, None) == [1, 2, 3]
  {
    BatchOrderOf([1, 2, 3], Users().rows.Keys);
  }

  /** `of: 2` yields [100, 200] then [0], with 2 batch queries and 4 queries in all. */
  lemma SmallBatches()
    ensures var outcome := Expected(Users(), true, 2, None, None, false);
      && outcome.Finished?
      && |outcome.pages| == 2
      && PageRecords(Users(), outcome.pages[0]) == [100, 200]
      && PageRecords(Users(), outcome.pages[1]) == [0]
      && outcome.fetches == 2
      && outcome.fetches + |outcome.pages| == 4
  {
    var batches := [[1, 2], [3]];
    UsersWindow();
    UserPages();
    ExpectedFinished(Users(), 2, None, None, false, batches, 2);
    ReadSmallPages();
  }

  /** The default batch size yields all three users in one page, with 2 queries in all. */
  lemma DefaultBatches()
    ensures var outcome := Expected(Users(), true, DefaultBatchSize, None, None, false);
      && outcome.Finished?
      && |outcome.pages| == 1
      && PageRecords(Users(), outcome.pages[0]) == [100, 200, 0]
      && outcome.fetches == 1
      && outcome.fetches + |outcome.pages| == 2
  {
    var batches := [[1, 2, 3]];
    UsersWindow();
    UserPages();
    ExpectedFinished(Users(), DefaultBatchSize, None, None, false, batches, 1);
    ReadDefaultPage();
  }

  /** Reading the relations yielded for pages of 2 users returns their money, in id order. */
  lemma ReadSmallPages()
    ensures var pages := PagesFor(Users(), [[1, 2], [3]], false);
      |pages| == 2 && PageRecords(Users(), pages[0]) == [100, 200] && PageRecords(Users(), pages[1]) == [0]
  {
    PageRecordsOf(Users(), [1, 2], false);
    PageRecordsOf(Users(), [3], false);
    UserRecords();
  }

  /** Reading the relation yielded for one page of all users returns their money, in id order. */
  lemma ReadDefaultPage()
    ensures var pages := PagesFor(Users(), [[1, 2, 3]], false);
      |pages| == 1 && PageRecords(Users(), pages[0]) == [100, 200, 0]
  {
    PageRecordsOf(Users(), [1, 2, 3], false);
    UserRecords();
  }

  /** The ids split into pages of 2 and of the default batch size. */
  lemma UserPages()
    ensures Chunks([1, 2, 3], 2) == [[1, 2], [3]]
    ensures Chunks([1, 2, 3], DefaultBatchSize) == [[1, 2, 3]]
  {
    var ids := [1, 2, 3];
    assert ids[..2] == [1, 2];
    assert ids[2..] == [3];
    assert Chunks([3], 2) == [[3]];
  }

  /** The money of the users, read in id order. */
  lemma UserRecords()
    ensures Records(Users().rows, [3]) == [0]
    ensures Records(Users().rows, [1, 2]) == [100, 200]
    ensures Records(Users().rows, [1, 2, 3]) == [100, 200, 0]
  {
    var rows := Users().rows;
    assert [3][1..] == [] && [2][1..] == [] && [1, 2][1..] == [2] && [2, 3][1..] == [3] && [1, 2, 3][1..] == [2, 3];
    assert Records(rows, [2]) == [200];
    assert Records(rows, [2, 3]) == [200] + Records(rows, [3]);
  }
}
