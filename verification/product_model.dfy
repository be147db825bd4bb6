/**
 * The data of the product synchroniser and the specification of one run,
 * as pure functions.
 *
 * A run reads a snapshot of rows (CODPROD, DESCRICAO, UNIDADE, DIRFOTOPROD)
 * from the catalog and reconciles the collection of `produto` posts with it:
 * every row is upserted by its product code, in source order, and afterwards
 * every post that no row touched is deleted.
 */
module ProductModel {
  import opened Wrappers

  type Id = nat
  type Code = string

  /** One row of the catalog query; every column but the key may be null. */
  datatype Row = Row(codProd: Code, descricao: Option<string>, unidade: Option<string>, dirFotoProd: Option<string>)

  datatype Status = Publish | OtherStatus(name: string)

  /** A `produto` post: its title and status, and its three meta fields. */
  datatype Post = Post(
    title: Option<string>,
    status: Status,
    codigoProduto: Option<Code>,
    unidade: Option<string>,
    fotoProduto: Option<string>)

  /** The meta keys the synchroniser writes. */
  datatype MetaKey = CodigoProduto | Unidade | FotoProduto

  /**
   * The managed collection: posts by id, and the id the store hands out to
   * the next post it creates.
   */
  datatype Table = Table(posts: map<Id, Post>, nextId: Id)

  /** Every existing id was handed out before `nextId`. */
  ghost predicate WellFormed(t: Table) {
    forall id :: id in t.posts ==> id < t.nextId
  }

  /** The result of one upsert: the new table and the id that was written. */
  datatype Upserted = Upserted(table: Table, id: Id)

  /** The result of the upsert loop: the table and the ids in the order they were touched. */
  datatype Pass = Pass(table: Table, touched: seq<Id>)

  /** A post whose meta fields hold exactly what `row` carries. */
  ghost predicate Mirrors(p: Post, row: Row) {
    p.codigoProduto == Some(row.codProd) && p.unidade == row.unidade && p.fotoProduto == row.dirFotoProd
  }

  /** What an update keeps of a post: everything but the two mirrored columns. */
  ghost predicate SameIdentity(p: Post, q: Post) {
    p.title == q.title && p.status == q.status && p.codigoProduto == q.codigoProduto
  }

  // ----- the store's primitive operations -----

  /** The post `wp_insert_post` creates: the given title, published, no meta. */
  function NewPost(title: Option<string>): (p: Post)
    ensures p.title == title && p.status == Publish
    ensures p.codigoProduto.None? && p.unidade.None? && p.fotoProduto.None?
  {
    Post(title, Publish, None, None, None)
  }

  /** `update_post_meta`: overwrite one meta field, whatever it held. */
  function SetMeta(p: Post, key: MetaKey, value: Option<string>): (q: Post)
    ensures q.title == p.title && q.status == p.status
    ensures q.codigoProduto == (if key == CodigoProduto then value else p.codigoProduto)
    ensures q.unidade == (if key == Unidade then value else p.unidade)
    ensures q.fotoProduto == (if key == FotoProduto then value else p.fotoProduto)
  {
    match key
    case CodigoProduto => p.(codigoProduto := value)
    case Unidade => p.(unidade := value)
    case FotoProduto => p.(fotoProduto := value)
  }

  /** The three meta writes of one row, in the order the synchroniser issues them. */
  function WriteRow(p: Post, row: Row): (q: Post)
    ensures Mirrors(q, row)
    ensures q.title == p.title && q.status == p.status
  {
    SetMeta(SetMeta(SetMeta(p, CodigoProduto, Some(row.codProd)), Unidade, row.unidade), FotoProduto, row.dirFotoProd)
  }

  // ----- lookup by product code -----

  /**
   * The greatest id below `bound` whose post carries `code`, if any. The
   * store's query answers newest first, and the newest post has the greatest id.
   */
  function LatestBelow(posts: map<Id, Post>, code: Code, bound: nat): (r: Option<Id>)
    ensures r.Some? ==> r.value < bound && r.value in posts && posts[r.value].codigoProduto == Some(code)
    ensures r.Some? ==> forall id :: r.value < id < bound && id in posts ==> posts[id].codigoProduto != Some(code)
    ensures r.None? ==> forall id :: id < bound && id in posts ==> posts[id].codigoProduto != Some(code)
    decreases bound
  {
    if bound == 0 then None
    else if bound - 1 in posts && posts[bound - 1].codigoProduto == Some(code) then Some(bound - 1)
    else LatestBelow(posts, code, bound - 1)
  }

  /**
   * The exact-match lookup on `codigo_produto`: the newest post holding
   * `code`, or None when no post holds it.
   */
  function Lookup(t: Table, code: Code): (r: Option<Id>)
    requires WellFormed(t)
    ensures r.Some? ==> r.value in t.posts && t.posts[r.value].codigoProduto == Some(code)
    ensures r.Some? ==> forall id :: id in t.posts && t.posts[id].codigoProduto == Some(code) ==> id <= r.value
    ensures r.None? <==> forall id :: id in t.posts ==> t.posts[id].codigoProduto != Some(code)
  {
    LatestBelow(t.posts, code, t.nextId)
  }

  // ----- one upsert, the loop, the sweep -----

  /**
   * Update-or-create for one row: reuse the newest post with the row's code,
   * or create a published post titled with the description; then write the
   * three meta fields.
   */
  function Upsert(t: Table, row: Row): (u: Upserted)
    requires WellFormed(t)
    ensures WellFormed(u.table)
    ensures u.id in u.table.posts && Mirrors(u.table.posts[u.id], row)
    // a match keeps its identity: same id, no new post, title and status untouched
    ensures Lookup(t, row.codProd).Some? ==>
      && u.id == Lookup(t, row.codProd).value
      && u.table.nextId == t.nextId
      && u.table.posts.Keys == t.posts.Keys
      && SameIdentity(u.table.posts[u.id], t.posts[u.id])
    // no match creates exactly one post, with a fresh id
    ensures Lookup(t, row.codProd).None? ==>
      && u.id == t.nextId && u.id !in t.posts
      && u.table.nextId == t.nextId + 1
      && u.table.posts.Keys == t.posts.Keys + {u.id}
      && u.table.posts[u.id].title == row.descricao
      && u.table.posts[u.id].status == Publish
    // no other post changes
    ensures forall id :: id in t.posts && id != u.id ==> id in u.table.posts && u.table.posts[id] == t.posts[id]
  {
    match Lookup(t, row.codProd)
    case Some(id) =>
      Upserted(t.(posts := t.posts[id := WriteRow(t.posts[id], row)]), id)
    case None =>
      var id := t.nextId;
      Upserted(Table(t.posts[id := WriteRow(NewPost(row.descricao), row)], id + 1), id)
  }

  /** The upsert loop over `rows`, in source order, collecting the touched ids. */
  function UpsertAll(t: Table, rows: seq<Row>): (p: Pass)
    requires WellFormed(t)
    ensures WellFormed(p.table) && |p.touched| == |rows|
    ensures t.nextId <= p.table.nextId
    decreases |rows|
  {
    if rows == [] then Pass(t, [])
    else
      var before := UpsertAll(t, rows[..|rows| - 1]);
      var u := Upsert(before.table, rows[|rows| - 1]);
      Pass(u.table, before.touched + [u.id])
  }

  /** The sweep: every post whose id is not in `keep` is deleted. */
  function Sweep(posts: map<Id, Post>, keep: seq<Id>): (r: map<Id, Post>)
    ensures forall id :: id in r <==> id in posts && id in keep
    ensures forall id :: id in r ==> r[id] == posts[id]
  {
    map id | id in posts && id in keep :: posts[id]
  }

  /** One complete run on a fetched snapshot: the upsert loop, then the sweep. */
  function Reconcile(t: Table, rows: seq<Row>): (p: Pass)
    requires WellFormed(t)
    ensures WellFormed(p.table) && |p.touched| == |rows|
  {
    var upserted := UpsertAll(t, rows);
    Pass(Table(Sweep(upserted.table.posts, upserted.touched), upserted.table.nextId), upserted.touched)
  }

  /** The set of product codes in a snapshot. */
  ghost function Codes(rows: seq<Row>): set<Code> {
    set k | 0 <= k < |rows| :: rows[k].codProd
  }

  /**
   * The index of the last row that shares row `k`'s code: the row whose
   * columns a run leaves in the post.
   */
  function LastOf(rows: seq<Row>, k: nat): (j: nat)
    requires k < |rows|
    ensures k <= j < |rows| && rows[j].codProd == rows[k].codProd
    ensures forall i :: j < i < |rows| ==> rows[i].codProd != rows[k].codProd
    decreases |rows|
  {
    if rows[|rows| - 1].codProd == rows[k].codProd then |rows| - 1
    else LastOf(rows[..|rows| - 1], k)
  }
}
