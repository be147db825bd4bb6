/** Concrete runs of the synchroniser, worked out against the specification. */
module SyncScenarios {
  import opened Wrappers
  import opened ProductModel
  import SyncProperties

  /** A new code on an empty collection creates one published post titled with the description; the null photo is stored as absent. */
  lemma NewCodeOnEmptyCollection()
    ensures var run := Reconcile(Table(map[], 1), [Row("A1", Some("Widget"), Some("EA"), None)]);
      && run.touched == [1]
      && run.table == Table(map[1 := Post(Some("Widget"), Publish, Some("A1"), Some("EA"), None)], 2)
  {
    var rows := [Row("A1", Some("Widget"), Some("EA"), None)];
    assert rows[..0] == [];
    assert UpsertAll(Table(map[], 1), []) == Pass(Table(map[], 1), []);
    assert Lookup(Table(map[], 1), "A1") == None;
  }

  /**
   * An existing code keeps its post and its title: only unit and photo are
   * rewritten, so the post stays titled "Widget" although the row now says
   * "Widget v2".
   */
  lemma ExistingCodeKeepsTitle()
    ensures var old5 := Post(Some("Widget"), Publish, Some("A1"), Some("UN"), Some("a.jpg"));
      var run := Reconcile(Table(map[5 := old5], 6), [Row("A1", Some("Widget v2"), Some("EA"), None)]);
      && run.touched == [5]
      && run.table == Table(map[5 := Post(Some("Widget"), Publish, Some("A1"), Some("EA"), None)], 6)
  {
    var old5 := Post(Some("Widget"), Publish, Some("A1"), Some("UN"), Some("a.jpg"));
    var t := Table(map[5 := old5], 6);
    var rows := [Row("A1", Some("Widget v2"), Some("EA"), None)];
    assert rows[..0] == [];
    assert UpsertAll(t, []) == Pass(t, []);
    assert Lookup(t, "A1") == Some(5);
  }

  /** An empty snapshot deletes the only post. */
  lemma EmptySnapshotDeletes()
    ensures Reconcile(Table(map[3 := Post(Some("Widget"), Publish, Some("A1"), None, None)], 4), []).table.posts == map[]
  {
    assert UpsertAll(Table(map[3 := Post(Some("Widget"), Publish, Some("A1"), None, None)], 4), []).touched == [];
  }

  // The collection and the snapshot of the duplicates-and-repeats scenario.
  // Posts 4 and 7 are drafts: the lookup and the sweep ignore the status.

  const P2 := Post(Some("Old A1"), Publish, Some("A1"), None, None)
  const P4 := Post(Some("Manual"), OtherStatus("draft"), None, None, None)
  const P7 := Post(Some("New A1"), OtherStatus("draft"), Some("A1"), None, None)
  const R0 := Row("A1", Some("x"), Some("CX"), None)
  const R1 := Row("B2", Some("Bolt"), Some("UN"), None)
  const R2 := Row("A1", Some("y"), Some("KG"), Some("a1.jpg"))
  const T0 := Table(map[2 := P2, 4 := P4, 7 := P7], 8)
  const Q7 := Post(Some("New A1"), OtherStatus("draft"), Some("A1"), Some("CX"), None)
  const Q8 := Post(Some("Bolt"), Publish, Some("B2"), Some("UN"), None)
  const S7 := Post(Some("New A1"), OtherStatus("draft"), Some("A1"), Some("KG"), Some("a1.jpg"))
  const T1 := Table(map[2 := P2, 4 := P4, 7 := Q7], 8)
  const T2 := Table(map[2 := P2, 4 := P4, 7 := Q7, 8 := Q8], 9)
  const T3 := Table(map[2 := P2, 4 := P4, 7 := S7, 8 := Q8], 9)

  /** The first A1 row reuses the newer of the two A1 posts. */
  lemma FirstRowReusesNewest()
    ensures WellFormed(T0) && Upsert(T0, R0) == Upserted(T1, 7)
  {
    assert Lookup(T0, "A1") == Some(7);
  }

  /** B2 has no post, so its row creates one under the next id. */
  lemma UnknownCodeCreates()
    ensures WellFormed(T1) && Upsert(T1, R1) == Upserted(T2, 8)
  {
    assert T1.posts.Keys == {2, 4, 7};
  }

  /** The repeated A1 row finds the same post again and overwrites its unit and photo. */
  lemma RepeatedCodeRewrites()
    ensures WellFormed(T2) && Upsert(T2, R2) == Upserted(T3, 7)
  {
    assert LatestBelow(T2.posts, "A1", 9) == LatestBelow(T2.posts, "A1", 8);
  }

  /** The upsert loop over the first two rows. */
  lemma TwoRowPass()
    ensures WellFormed(T0) && UpsertAll(T0, [R0, R1]) == Pass(T2, [7, 8])
  {
    FirstRowReusesNewest();
    UnknownCodeCreates();
    assert UpsertAll(T0, []) == Pass(T0, []);
    SyncProperties.UpsertAllAppend(T0, [], R0);
    assert [] + [R0] == [R0];
    SyncProperties.UpsertAllAppend(T0, [R0], R1);
    assert [R0] + [R1] == [R0, R1];
  }

  /** The upsert loop over the three rows. */
  lemma ThreeRowPass()
    ensures WellFormed(T0) && UpsertAll(T0, [R0, R1, R2]) == Pass(T3, [7, 8, 7])
  {
    TwoRowPass();
    RepeatedCodeRewrites();
    SyncProperties.UpsertAllAppend(T0, [R0, R1], R2);
    assert [R0, R1] + [R2] == [R0, R1, R2];
  }

  /** The sweep after the three rows keeps posts 7 and 8 only. */
  lemma ThreeRowSweep()
    ensures Sweep(T3.posts, [7, 8, 7]) == map[7 := S7, 8 := Q8]
  {
    var swept := Sweep(T3.posts, [7, 8, 7]);
    forall id ensures id in swept <==> id == 7 || id == 8 {
      assert id in [7, 8, 7] <==> id == 7 || id == 8;
    }
    assert swept[7] == S7 && swept[8] == Q8;
  }

  /**
   * Duplicates and repeats: the collection holds two posts with code A1
   * (ids 2 and 7, the newer one a draft) and one draft with no code (id 4);
   * the snapshot names A1 twice and B2 once. The newest A1 post (7) is
   * reused, stays a draft and ends with the second A1 row's unit and photo,
   * B2 gets a fresh published post (8), and posts 2 and 4 are deleted.
   */
  lemma DuplicatesAndRepeats()
    ensures WellFormed(T0)
    ensures var run := Reconcile(T0, [R0, R1, R2]);
      run.touched == [7, 8, 7] && run.table == Table(map[7 := S7, 8 := Q8], 9)
  {
    ThreeRowPass();
    ThreeRowSweep();
  }
}
