/**
 * What one run of the synchroniser guarantees, proved about the pure
 * specification in ProductModel (which Store.Sync is proved to follow).
 */
module SyncProperties {
  import opened Wrappers
  import opened ProductModel

  /** The lookup after one upsert: the row's code now resolves to the written post; no other code moves. */
  lemma LookupAfterUpsert(t: Table, row: Row, c: Code)
    requires WellFormed(t)
    ensures Lookup(Upsert(t, row).table, c) == if c == row.codProd then Some(Upsert(t, row).id) else Lookup(t, c)
  {
    var u := Upsert(t, row);
    if u.id in t.posts {
      assert t.posts[u.id].codigoProduto == Some(row.codProd);
    }
  }

  /** The upsert loop over `rows + [row]` is the loop over `rows` followed by one upsert. */
  lemma UpsertAllAppend(t: Table, rows: seq<Row>, row: Row)
    requires WellFormed(t)
    ensures var before := UpsertAll(t, rows);
      UpsertAll(t, rows + [row]) == Pass(Upsert(before.table, row).table, before.touched + [Upsert(before.table, row).id])
  {
    assert (rows + [row])[..|rows|] == rows;
  }

  /** The ids after the loop: the old ones plus a run of freshly created ones. */
  ghost predicate IdsGrown(t0: Table, t: Table) {
    && WellFormed(t0) && WellFormed(t)
    && t0.nextId <= t.nextId
    && (forall id :: id in t.posts <==> id in t0.posts || t0.nextId <= id < t.nextId)
  }

  /**
   * Each row's code resolves to the id recorded for that row, and that post
   * mirrors the last row with the same code.
   */
  ghost predicate RowsStored(rows: seq<Row>, t: Table, touched: seq<Id>) {
    && WellFormed(t)
    && |touched| == |rows|
    && (forall k :: 0 <= k < |rows| ==>
          Lookup(t, rows[k].codProd) == Some(touched[k]) && Mirrors(t.posts[touched[k]], rows[LastOf(rows, k)]))
  }

  /** Old posts keep title, status and code; untouched old posts are unchanged. */
  ghost predicate OldPostsKept(t0: Table, t: Table, touched: seq<Id>)
    requires IdsGrown(t0, t)
  {
    && (forall id :: id in t0.posts ==> SameIdentity(t.posts[id], t0.posts[id]))
    && (forall id :: id in t0.posts && id !in touched ==> t.posts[id] == t0.posts[id])
  }

  /** Every created post was touched and is published. */
  ghost predicate NewPostsTouched(t0: Table, t: Table, touched: seq<Id>)
    requires IdsGrown(t0, t)
  {
    forall id :: t0.nextId <= id < t.nextId ==> id in touched && t.posts[id].status == Publish
  }

  /** A created post is titled by the row that created it: the first row to touch it. */
  ghost predicate NewPostsTitled(t0: Table, rows: seq<Row>, t: Table, touched: seq<Id>)
    requires |touched| == |rows|
  {
    forall k :: 0 <= k < |rows| && touched[k] in t.posts && t0.nextId <= touched[k] && touched[k] !in touched[..k] ==>
      t.posts[touched[k]].title == rows[k].descricao
  }

  /**
   * The state reached after the upsert loop has processed `rows` from `t0`:
   * the invariant of the loop in Store.Sync, stated over the whole prefix.
   */
  ghost predicate Reached(t0: Table, rows: seq<Row>, t: Table, touched: seq<Id>) {
    && IdsGrown(t0, t)
    && RowsStored(rows, t, touched)
    && OldPostsKept(t0, t, touched)
    && NewPostsTouched(t0, t, touched)
    && NewPostsTitled(t0, rows, t, touched)
  }

  lemma IdsGrownStep(t0: Table, t: Table, row: Row)
    requires IdsGrown(t0, t)
    ensures IdsGrown(t0, Upsert(t, row).table)
  {
  }

  lemma RowsStoredStep(rows: seq<Row>, t: Table, touched: seq<Id>, row: Row)
    requires RowsStored(rows, t, touched)
    ensures RowsStored(rows + [row], Upsert(t, row).table, touched + [Upsert(t, row).id])
  {
    var u := Upsert(t, row);
    var rows' := rows + [row];
    var touched' := touched + [u.id];
    forall k | 0 <= k < |rows'|
      ensures Lookup(u.table, rows'[k].codProd) == Some(touched'[k])
      ensures Mirrors(u.table.posts[touched'[k]], rows'[LastOf(rows', k)])
    {
      LookupAfterUpsert(t, row, rows'[k].codProd);
      if k < |rows| && rows[k].codProd != row.codProd {
        assert rows' [..|rows|] == rows;
        assert LastOf(rows', k) == LastOf(rows, k);
      }
    }
  }

  lemma AllTouchedPresent(rows: seq<Row>, t: Table, touched: seq<Id>)
    requires RowsStored(rows, t, touched)
    ensures forall k :: 0 <= k < |touched| ==> touched[k] in t.posts
  {
    forall k | 0 <= k < |touched| ensures touched[k] in t.posts {
      assert Lookup(t, rows[k].codProd) == Some(touched[k]);
    }
  }

  lemma OldPostsKeptStep(t0: Table, t: Table, touched: seq<Id>, row: Row)
    requires IdsGrown(t0, t) && OldPostsKept(t0, t, touched)
    ensures IdsGrown(t0, Upsert(t, row).table)
    ensures OldPostsKept(t0, Upsert(t, row).table, touched + [Upsert(t, row).id])
  {
    IdsGrownStep(t0, t, row);
  }

  lemma NewPostsTouchedStep(t0: Table, t: Table, touched: seq<Id>, row: Row)
    requires IdsGrown(t0, t) && NewPostsTouched(t0, t, touched)
    ensures IdsGrown(t0, Upsert(t, row).table)
    ensures NewPostsTouched(t0, Upsert(t, row).table, touched + [Upsert(t, row).id])
  {
    IdsGrownStep(t0, t, row);
    var u := Upsert(t, row);
    var touched' := touched + [u.id];
    forall id | t0.nextId <= id < u.table.nextId
      ensures id in touched' && u.table.posts[id].status == Publish
    {
      if id < t.nextId {
        assert id in touched;
      }
    }
  }

  lemma NewPostsTitledStep(t0: Table, rows: seq<Row>, t: Table, touched: seq<Id>, row: Row)
    requires IdsGrown(t0, t) && NewPostsTouched(t0, t, touched)
    requires |touched| == |rows| && forall k :: 0 <= k < |touched| ==> touched[k] in t.posts
    requires NewPostsTitled(t0, rows, t, touched)
    ensures NewPostsTitled(t0, rows + [row], Upsert(t, row).table, touched + [Upsert(t, row).id])
  {
    var u := Upsert(t, row);
    var rows' := rows + [row];
    var touched' := touched + [u.id];
    forall k | 0 <= k < |rows'| && touched'[k] in u.table.posts && t0.nextId <= touched'[k] && touched'[k] !in touched'[..k]
      ensures u.table.posts[touched'[k]].title == rows'[k].descricao
    {
      if k < |rows| {
        assert touched'[..k] == touched[..k];
        assert touched[k] in t.posts;
      } else {
        assert touched'[..k] == touched;
        assert u.id !in t.posts;
      }
    }
  }

  /** One upsert keeps the loop invariant. */
  lemma ReachedStep(t0: Table, rows: seq<Row>, t: Table, touched: seq<Id>, row: Row)
    requires Reached(t0, rows, t, touched)
    ensures Reached(t0, rows + [row], Upsert(t, row).table, touched + [Upsert(t, row).id])
  {
    RowsStoredStep(rows, t, touched, row);
    OldPostsKeptStep(t0, t, touched, row);
    NewPostsTouchedStep(t0, t, touched, row);
    AllTouchedPresent(rows, t, touched);
    NewPostsTitledStep(t0, rows, t, touched, row);
  }

  /** The upsert loop reaches the state described by Reached. */
  lemma {:induction false} UpsertAllReached(t0: Table, rows: seq<Row>)
    requires WellFormed(t0)
    ensures Reached(t0, rows, UpsertAll(t0, rows).table, UpsertAll(t0, rows).touched)
    decreases |rows|
  {
    if rows == [] {
      assert UpsertAll(t0, rows) == Pass(t0, []);
    } else {
      var n := |rows| - 1;
      var prefix := rows[..n];
      assert rows == prefix + [rows[n]];
      var before := UpsertAll(t0, prefix);
      UpsertAllReached(t0, prefix);
      ReachedStep(t0, prefix, before.table, before.touched, rows[n]);
    }
  }

  /** The part of Reached about the rows: each row's code resolves to its recorded id. */
  lemma UpsertAllStoresRows(t0: Table, rows: seq<Row>)
    requires WellFormed(t0)
    ensures RowsStored(rows, UpsertAll(t0, rows).table, UpsertAll(t0, rows).touched)
    ensures forall k :: 0 <= k < |rows| ==> UpsertAll(t0, rows).touched[k] in UpsertAll(t0, rows).table.posts
  {
    UpsertAllReached(t0, rows);
    AllTouchedPresent(rows, UpsertAll(t0, rows).table, UpsertAll(t0, rows).touched);
  }

  /** The part of Reached about the ids and the old posts. */
  lemma UpsertAllKeepsOld(t0: Table, rows: seq<Row>)
    requires WellFormed(t0)
    ensures IdsGrown(t0, UpsertAll(t0, rows).table)
    ensures OldPostsKept(t0, UpsertAll(t0, rows).table, UpsertAll(t0, rows).touched)
  {
    UpsertAllReached(t0, rows);
  }

  /** The part of Reached about created posts: each was touched. */
  lemma UpsertAllTouchesNew(t0: Table, rows: seq<Row>)
    requires WellFormed(t0)
    ensures IdsGrown(t0, UpsertAll(t0, rows).table)
    ensures NewPostsTouched(t0, UpsertAll(t0, rows).table, UpsertAll(t0, rows).touched)
  {
    UpsertAllReached(t0, rows);
  }

  // ----- lookups that outlast the upsert loop and the sweep -----

  /** A code that already had a match keeps resolving to that same post through the whole loop. */
  lemma {:induction false} MatchPersists(t0: Table, rows: seq<Row>, c: Code)
    requires WellFormed(t0) && Lookup(t0, c).Some?
    ensures Lookup(UpsertAll(t0, rows).table, c) == Lookup(t0, c)
    decreases |rows|
  {
    if rows != [] {
      var n := |rows| - 1;
      var before := UpsertAll(t0, rows[..n]);
      MatchPersists(t0, rows[..n], c);
      LookupAfterUpsert(before.table, rows[n], c);
    }
  }

  /** The sweep does not move a lookup whose answer it keeps. */
  lemma LookupAfterSweep(t: Table, keep: seq<Id>, c: Code)
    requires WellFormed(t) && Lookup(t, c).Some? && Lookup(t, c).value in keep
    ensures WellFormed(Table(Sweep(t.posts, keep), t.nextId))
    ensures Lookup(Table(Sweep(t.posts, keep), t.nextId), c) == Lookup(t, c)
  {
    var swept := Table(Sweep(t.posts, keep), t.nextId);
    var found := Lookup(t, c).value;
    assert found in swept.posts && swept.posts[found].codigoProduto == Some(c);
    var r := Lookup(swept, c);
    assert r.value in t.posts && t.posts[r.value] == swept.posts[r.value];
  }

  // ----- what one run leaves behind -----

  /**
   * Every row ends up stored: the id recorded for row `k` survives, and its
   * post carries the row's code and the unit and photo of the last row with
   * that code (row `k` itself when no later row repeats it), nulls included.
   */
  lemma EveryRowStored(t0: Table, rows: seq<Row>)
    requires WellFormed(t0)
    ensures var run := Reconcile(t0, rows);
      forall k :: 0 <= k < |rows| ==>
        && run.touched[k] in run.table.posts
        && Mirrors(run.table.posts[run.touched[k]], rows[LastOf(rows, k)])
  {
    UpsertAllStoresRows(t0, rows);
  }

  /** The surviving ids are exactly the ids the upsert loop returned; everything else was deleted. */
  lemma SurvivorsAreTouched(t0: Table, rows: seq<Row>)
    requires WellFormed(t0)
    ensures var run := Reconcile(t0, rows);
      forall id :: id in run.table.posts <==> id in run.touched
  {
    UpsertAllStoresRows(t0, rows);
  }

  /** An empty snapshot deletes every post, also those without a product code. */
  lemma EmptySourceEmptiesCollection(t0: Table)
    requires WellFormed(t0)
    ensures Reconcile(t0, []).table.posts == map[]
    ensures Reconcile(t0, []).table.nextId == t0.nextId
  {
    assert UpsertAll(t0, []) == Pass(t0, []);
  }

  /**
   * Each code of the snapshot is held by exactly one surviving post. When
   * the collection already had posts with that code, the one the lookup
   * answers survives and its duplicates are deleted.
   * `SurvivorsHoldSnapshotCodes` adds the converse.
   */
  lemma DuplicatesCollapse(t0: Table, rows: seq<Row>, c: Code)
    requires WellFormed(t0) && c in Codes(rows)
    ensures var posts := Reconcile(t0, rows).table.posts;
      && (exists id :: id in posts && posts[id].codigoProduto == Some(c))
      && (forall id1, id2 :: id1 in posts && id2 in posts && posts[id1].codigoProduto == Some(c) && posts[id2].codigoProduto == Some(c) ==> id1 == id2)
      && (Lookup(t0, c).Some? ==> Lookup(t0, c).value in posts)
      && (forall id :: id in t0.posts && t0.posts[id].codigoProduto == Some(c) && Some(id) != Lookup(t0, c) ==> id !in posts)
  {
    var pre := UpsertAll(t0, rows);
    SoleSurvivor(t0, rows, c);
    if Lookup(t0, c).Some? {
      MatchPersists(t0, rows, c);
    }
    UpsertAllKeepsOld(t0, rows);
    forall id | id in t0.posts && t0.posts[id].codigoProduto == Some(c)
      ensures pre.table.posts[id].codigoProduto == Some(c)
    {
      assert SameIdentity(pre.table.posts[id], t0.posts[id]);
    }
  }

  /**
   * Every surviving post holds a code, and that code is in the snapshot:
   * posts without a code and posts whose code is no longer fetched are gone.
   */
  lemma SurvivorsHoldSnapshotCodes(t0: Table, rows: seq<Row>)
    requires WellFormed(t0)
    ensures var posts := Reconcile(t0, rows).table.posts;
      forall id :: id in posts ==> posts[id].codigoProduto.Some? && posts[id].codigoProduto.value in Codes(rows)
  {
    var run := Reconcile(t0, rows);
    SurvivorsAreTouched(t0, rows);
    EveryRowStored(t0, rows);
    forall id | id in run.table.posts
      ensures run.table.posts[id].codigoProduto.Some? && run.table.posts[id].codigoProduto.value in Codes(rows)
    {
      var k :| 0 <= k < |run.touched| && run.touched[k] == id;
      assert rows[LastOf(rows, k)].codProd == rows[k].codProd;
    }
  }

  /** After a run, the only surviving post with a code of the snapshot is the one that code resolved to after the upsert loop. */
  lemma SoleSurvivor(t0: Table, rows: seq<Row>, c: Code)
    requires WellFormed(t0) && c in Codes(rows)
    ensures var pre := UpsertAll(t0, rows);
      var posts := Reconcile(t0, rows).table.posts;
      && Lookup(pre.table, c).Some?
      && Lookup(pre.table, c).value in posts
      && posts[Lookup(pre.table, c).value] == pre.table.posts[Lookup(pre.table, c).value]
      && (forall id :: id in posts && posts[id].codigoProduto == Some(c) ==> Some(id) == Lookup(pre.table, c))
  {
    var pre := UpsertAll(t0, rows);
    var posts := Reconcile(t0, rows).table.posts;
    UpsertAllStoresRows(t0, rows);
    var k :| 0 <= k < |rows| && rows[k].codProd == c;
    assert Lookup(pre.table, c) == Some(pre.touched[k]);
    forall id | id in posts && posts[id].codigoProduto == Some(c)
      ensures Some(id) == Lookup(pre.table, c)
    {
      var j :| 0 <= j < |rows| && pre.touched[j] == id;
      assert Lookup(pre.table, rows[j].codProd) == Some(id);
    }
  }

  /** The ids a sequence of ids contains, as a set. */
  ghost function IdSet(ids: seq<Id>): set<Id> {
    set id | id in ids
  }

  lemma CodesSnoc(rows: seq<Row>, row: Row)
    ensures Codes(rows + [row]) == Codes(rows) + {row.codProd}
  {
    var rows' := rows + [row];
    forall c | c in Codes(rows') ensures c in Codes(rows) + {row.codProd} {
      var k :| 0 <= k < |rows'| && rows'[k].codProd == c;
      if k < |rows| { assert rows[k] == rows'[k]; }
    }
    forall c | c in Codes(rows) ensures c in Codes(rows') {
      var k :| 0 <= k < |rows| && rows[k].codProd == c;
      assert rows'[k] == rows[k];
    }
    assert rows'[|rows|] == row;
  }

  /** The next upsert reuses a touched post exactly when its code was seen before. */
  lemma TouchesAgainIffSeen(rows: seq<Row>, t: Table, touched: seq<Id>, row: Row)
    requires RowsStored(rows, t, touched)
    ensures Upsert(t, row).id in touched <==> row.codProd in Codes(rows)
  {
    var u := Upsert(t, row);
    if row.codProd in Codes(rows) {
      var j :| 0 <= j < |rows| && rows[j].codProd == row.codProd;
      assert Lookup(t, row.codProd) == Some(touched[j]);
    }
    if u.id in touched {
      var j :| 0 <= j < |rows| && touched[j] == u.id;
      assert Lookup(t, rows[j].codProd) == Some(u.id);
      assert u.id in t.posts;
      assert rows[j].codProd == row.codProd;
    }
  }

  /** Counting: appending an id that is new exactly when the row's code is new keeps ids and codes level. */
  lemma TouchedCountStep(rows: seq<Row>, touched: seq<Id>, row: Row, id: Id)
    requires |IdSet(touched)| == |Codes(rows)|
    requires id in touched <==> row.codProd in Codes(rows)
    ensures |IdSet(touched + [id])| == |Codes(rows + [row])|
  {
    CodesSnoc(rows, row);
    assert IdSet(touched + [id]) == IdSet(touched) + {id};
    if id in touched {
      assert IdSet(touched) + {id} == IdSet(touched);
      assert Codes(rows) + {row.codProd} == Codes(rows);
    }
  }

  /** The upsert loop touches exactly one post per distinct code. */
  lemma {:induction false} TouchedCount(t0: Table, rows: seq<Row>)
    requires WellFormed(t0)
    ensures |IdSet(UpsertAll(t0, rows).touched)| == |Codes(rows)|
    decreases |rows|
  {
    if rows == [] {
      assert Codes(rows) == {};
      assert IdSet(UpsertAll(t0, rows).touched) == {};
    } else {
      var n := |rows| - 1;
      assert rows == rows[..n] + [rows[n]];
      var before := UpsertAll(t0, rows[..n]);
      TouchedCount(t0, rows[..n]);
      UpsertAllStoresRows(t0, rows[..n]);
      TouchesAgainIffSeen(rows[..n], before.table, before.touched, rows[n]);
      TouchedCountStep(rows[..n], before.touched, rows[n], Upsert(before.table, rows[n]).id);
    }
  }

  /** After a run there are exactly as many posts as distinct codes in the snapshot. */
  lemma PostCountIsDistinctCodes(t0: Table, rows: seq<Row>)
    requires WellFormed(t0)
    ensures |Reconcile(t0, rows).table.posts| == |Codes(rows)|
  {
    SurvivorsAreTouched(t0, rows);
    TouchedCount(t0, rows);
    var posts := Reconcile(t0, rows).table.posts;
    assert posts.Keys == IdSet(Reconcile(t0, rows).touched);
  }

  // ----- idempotence -----

  /** After a run, every code of the snapshot resolves to the post recorded for it. */
  lemma RunResolvesRows(t0: Table, rows: seq<Row>)
    requires WellFormed(t0)
    ensures var run := Reconcile(t0, rows);
      forall k :: 0 <= k < |rows| ==> Lookup(run.table, rows[k].codProd) == Some(run.touched[k])
  {
    var pre := UpsertAll(t0, rows);
    UpsertAllStoresRows(t0, rows);
    forall k | 0 <= k < |rows|
      ensures Lookup(Reconcile(t0, rows).table, rows[k].codProd) == Some(pre.touched[k])
    {
      LookupAfterSweep(pre.table, pre.touched, rows[k].codProd);
    }
  }

  /** When every row's code already has a post, each row touches the post its code resolved to beforehand. */
  lemma AllMatchedTouchesResolved(t: Table, rows: seq<Row>)
    requires WellFormed(t)
    requires forall k :: 0 <= k < |rows| ==> Lookup(t, rows[k].codProd).Some?
    ensures forall k :: 0 <= k < |rows| ==> Some(UpsertAll(t, rows).touched[k]) == Lookup(t, rows[k].codProd)
    ensures forall id :: id in UpsertAll(t, rows).touched ==> id in t.posts
  {
    UpsertAllStoresRows(t, rows);
    forall k | 0 <= k < |rows| ensures Some(UpsertAll(t, rows).touched[k]) == Lookup(t, rows[k].codProd) {
      MatchPersists(t, rows, rows[k].codProd);
    }
  }

  /**
   * When every row's code already has a post, the upsert loop creates
   * nothing: the ids stay the same and each row touches the post its code
   * resolved to beforehand.
   */
  lemma AllMatchedCreatesNothing(t: Table, rows: seq<Row>)
    requires WellFormed(t)
    requires forall k :: 0 <= k < |rows| ==> Lookup(t, rows[k].codProd).Some?
    ensures var pass := UpsertAll(t, rows);
      && pass.table.nextId == t.nextId
      && pass.table.posts.Keys == t.posts.Keys
      && forall k :: 0 <= k < |rows| ==> Some(pass.touched[k]) == Lookup(t, rows[k].codProd)
  {
    var pass := UpsertAll(t, rows);
    AllMatchedTouchesResolved(t, rows);
    UpsertAllTouchesNew(t, rows);
  }

  /**
   * Idempotence: a second run on the same snapshot creates nothing, deletes
   * nothing, touches the same ids in the same order and leaves every post as
   * the first run left it.
   */
  lemma SecondRunChangesNothing(t0: Table, rows: seq<Row>)
    requires WellFormed(t0)
    ensures Reconcile(Reconcile(t0, rows).table, rows) == Reconcile(t0, rows)
  {
    var first := Reconcile(t0, rows);
    var t1 := first.table;
    var pre2 := UpsertAll(t1, rows);
    SecondPassRewritesSameValues(t0, rows);
    assert pre2.table == t1;
    assert Sweep(t1.posts, first.touched) == t1.posts;
  }

  /** The second upsert loop touches the same ids, in the same order, and creates nothing. */
  lemma SecondPassSameIds(t0: Table, rows: seq<Row>)
    requires WellFormed(t0)
    ensures var first := Reconcile(t0, rows);
      var pre2 := UpsertAll(first.table, rows);
      pre2.touched == first.touched && pre2.table.nextId == first.table.nextId && pre2.table.posts.Keys == first.table.posts.Keys
  {
    var first := Reconcile(t0, rows);
    RunResolvesRows(t0, rows);
    AllMatchedCreatesNothing(first.table, rows);
  }

  /** The second upsert loop touches the same ids and writes back the values already there. */
  lemma SecondPassRewritesSameValues(t0: Table, rows: seq<Row>)
    requires WellFormed(t0)
    ensures UpsertAll(Reconcile(t0, rows).table, rows) == Pass(Reconcile(t0, rows).table, Reconcile(t0, rows).touched)
  {
    var first := Reconcile(t0, rows);
    var t1 := first.table;
    var pre2 := UpsertAll(t1, rows);
    SecondPassSameIds(t0, rows);
    forall id | id in t1.posts ensures pre2.table.posts[id] == t1.posts[id] {
      SecondPassPostOf(t0, rows, id);
    }
    assert pre2.table.posts == t1.posts;
  }

  /** Every post the first run leaves reads the same after the second upsert loop. */
  lemma SecondPassPostOf(t0: Table, rows: seq<Row>, id: Id)
    requires WellFormed(t0) && id in Reconcile(t0, rows).table.posts
    ensures id in UpsertAll(Reconcile(t0, rows).table, rows).table.posts
    ensures UpsertAll(Reconcile(t0, rows).table, rows).table.posts[id] == Reconcile(t0, rows).table.posts[id]
  {
    SurvivorsAreTouched(t0, rows);
    var k :| 0 <= k < |rows| && Reconcile(t0, rows).touched[k] == id;
    SecondPassPostAt(t0, rows, k);
  }

  /** The post recorded for row `k` reads the same after the second upsert loop as after the first run. */
  lemma SecondPassPostAt(t0: Table, rows: seq<Row>, k: nat)
    requires WellFormed(t0) && k < |rows|
    ensures var first := Reconcile(t0, rows);
      && first.touched[k] in first.table.posts
      && first.touched[k] in UpsertAll(first.table, rows).table.posts
      && UpsertAll(first.table, rows).table.posts[first.touched[k]] == first.table.posts[first.touched[k]]
  {
    var first := Reconcile(t0, rows);
    var t1 := first.table;
    var id := first.touched[k];
    var pre1 := UpsertAll(t0, rows);
    var pre2 := UpsertAll(t1, rows);
    UpsertAllStoresRows(t0, rows);
    RunResolvesRows(t0, rows);
    AllMatchedCreatesNothing(t1, rows);
    UpsertAllStoresRows(t1, rows);
    UpsertAllKeepsOld(t1, rows);
    assert Mirrors(pre1.table.posts[id], rows[LastOf(rows, k)]);
    assert Mirrors(pre2.table.posts[pre2.touched[k]], rows[LastOf(rows, k)]);
    assert SameIdentity(pre2.table.posts[id], t1.posts[id]);
  }
}
