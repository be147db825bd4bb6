/**
 * The synchroniser as it runs: a store of `produto` posts updated in place,
 * one primitive write at a time, by an upsert loop over the fetched rows and
 * a sweep loop that deletes what the upsert loop did not touch.
 */
module ProductStore {
  import opened Wrappers
  import opened ProductModel

  /** What the catalog connection yields: the snapshot, or the driver's error. */
  datatype Fetch = Connected(rows: seq<Row>) | ConnectionFailed(message: string)

  /** How a run ends: with the ids it touched, or aborted before any write. */
  datatype Outcome = Completed(touched: seq<Id>) | Aborted(message: string)

  class Store {
    var posts: map<Id, Post>
    var nextId: Id

    ghost predicate Valid()
      reads this
    {
      WellFormed(State())
    }

    function State(): Table
      reads this
    {
      Table(posts, nextId)
    }

    constructor (initial: Table)
      requires WellFormed(initial)
      ensures Valid() && State() == initial
    {
      posts := initial.posts;
      nextId := initial.nextId;
    }

    /** `wp_insert_post`: a new published post under a fresh id. */
    method Insert(title: Option<string>) returns (id: Id)
      requires Valid()
      modifies this
      ensures Valid()
      ensures id == old(nextId) && id !in old(posts)
      ensures posts == old(posts)[id := NewPost(title)] && nextId == old(nextId) + 1
    {
      id := nextId;
      posts := posts[id := NewPost(title)];
      nextId := nextId + 1;
    }

    /** `update_post_meta` on an existing post. */
    method UpdateMeta(id: Id, key: MetaKey, value: Option<string>)
      requires Valid() && id in posts
      modifies this
      ensures Valid()
      ensures posts == old(posts)[id := SetMeta(old(posts)[id], key, value)] && nextId == old(nextId)
    {
      posts := posts[id := SetMeta(posts[id], key, value)];
    }

    /** `wp_delete_post` with force: the post is gone, nothing else changes. */
    method Delete(id: Id)
      requires Valid()
      modifies this
      ensures Valid()
      ensures posts == old(posts) - {id} && nextId == old(nextId)
    {
      posts := posts - {id};
    }

    /**
     * Reuse the newest post with the row's code or create one titled with the
     * description, then overwrite its three meta fields; returns the post's id.
     */
    method UpdateOrCreate(row: Row) returns (id: Id)
      requires Valid()
      modifies this
      ensures Valid()
      ensures Upserted(State(), id) == Upsert(old(State()), row)
      ensures id in posts && Mirrors(posts[id], row)
      ensures id in old(posts) ==> SameIdentity(posts[id], old(posts)[id]) && nextId == old(nextId)
      ensures id !in old(posts) ==> id == old(nextId) && posts[id].title == row.descricao && posts[id].status == Publish
    {
      var found := Lookup(State(), row.codProd);
      if found.Some? {
        id := found.value;
      } else {
        id := Insert(row.descricao);
      }
      UpdateMeta(id, CodigoProduto, Some(row.codProd));
      UpdateMeta(id, Unidade, row.unidade);
      UpdateMeta(id, FotoProduto, row.dirFotoProd);
    }

    /**
     * The sweep: collect every post whose id is not in `keep`, then delete
     * them one at a time.
     */
    method DeleteUntouched(keep: seq<Id>)
      requires Valid()
      modifies this
      ensures Valid()
      ensures posts == Sweep(old(posts), keep) && nextId == old(nextId)
    {
      var doomed := set id | id in posts && id !in keep;
      while doomed != {}
        invariant Valid() && nextId == old(nextId)
        invariant forall id :: id in posts <==> id in old(posts) && (id in keep || id in doomed)
        invariant forall id :: id in posts ==> posts[id] == old(posts)[id]
        decreases doomed
      {
        var id :| id in doomed;
        Delete(id);
        doomed := doomed - {id};
      }
      assert posts == Sweep(old(posts), keep);
    }

    /**
     * One run. A failed connection aborts before anything is written.
     * Otherwise every row is upserted in source order, and then every post
     * whose id was not returned by an upsert is deleted.
     */
    method Sync(fetch: Fetch) returns (outcome: Outcome)
      requires Valid()
      modifies this
      ensures Valid()
      ensures fetch.ConnectionFailed? ==>
        outcome == Aborted(fetch.message) && posts == old(posts) && nextId == old(nextId)
      ensures fetch.Connected? ==>
        var run := Reconcile(old(State()), fetch.rows);
        outcome == Completed(run.touched) && State() == run.table
    {
      if fetch.ConnectionFailed? {
        return Aborted(fetch.message);
      }
      var rows := fetch.rows;
      var updated: seq<Id> := [];
      var i := 0;
      while i < |rows|
        invariant 0 <= i <= |rows|
        invariant Valid()
        invariant UpsertAll(old(State()), rows[..i]) == Pass(State(), updated)
      {
        var id := UpdateOrCreate(rows[i]);
        updated := updated + [id];
        assert rows[..i + 1][..i] == rows[..i];
        i := i + 1;
      }
      assert rows[..i] == rows;

      DeleteUntouched(updated);
      return Completed(updated);
    }
  }
}
