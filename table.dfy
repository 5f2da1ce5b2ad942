/**
 * The `messages` table as an abstract store: a map from integer id to row,
 * the queries the handler runs against it, and the store-side blob
 * representation. The SQL engine itself is not modelled; each query is
 * stated by its effect on the map.
 */
module Table {
  import opened Wrappers
  import opened Text
  import opened Messages

  /** A stored row: the columns other than `id`, which is the map key. */
  datatype Row = Row(content: string, email: string, image: Option<Image>, createdAt: int)

  /** The columns the list query selects: `id, content, email, created_at, image_type` (never `image_data`). */
  datatype Selected = Selected(id: nat, content: string, email: string, createdAt: int, imageType: Option<string>)

  /** The row an insert of `d` at server time `now` creates. */
  function RowOf(d: Draft, now: int): (row: Row)
    ensures row.content == d.content && row.email == d.email && row.image == d.image
    ensures row.createdAt == now
  {
    Row(d.content, d.email, d.image, now)
  }

  predicate RowOk(row: Row)
  {
    DraftOk(Draft(row.content, row.email, row.image))
  }

  /** `SELECT ... WHERE id = ?` bound to the textual id: the row the text denotes, if any. */
  function Lookup(rows: map<nat, Row>, idText: string): (r: Option<Row>)
    ensures r.Some? <==> ParseId(idText).Some? && ParseId(idText).value in rows
    ensures r.Some? ==> r.value == rows[ParseId(idText).value]
  {
    match ParseId(idText)
    case Some(k) => if k in rows then Some(rows[k]) else None
    case None => None
  }

  /** `DELETE FROM messages WHERE id = ?`: the one row the text denotes goes, every other row stays as it was. */
  function Without(rows: map<nat, Row>, idText: string): (rest: map<nat, Row>)
    ensures forall k :: k in rest <==> k in rows && ParseId(idText) != Some(k)
    ensures forall k :: k in rest ==> rest[k] == rows[k]
    ensures ParseId(idText).None? ==> rest == rows
  {
    match ParseId(idText)
    case Some(k) => rows - {k}
    case None => rows
  }

  /**
   * An order the store may list the table in for `ORDER BY created_at DESC`:
   * every id exactly once, newest first. Ties may come in any order.
   */
  ghost predicate IsListingOrder(rows: map<nat, Row>, order: seq<nat>)
  {
    && (forall i :: 0 <= i < |order| ==> order[i] in rows)
    && (forall k :: k in rows ==> k in order)
    && (forall i, j :: 0 <= i < j < |order| ==> order[i] != order[j])
    && (forall i, j :: 0 <= i < j < |order| ==> rows[order[i]].createdAt >= rows[order[j]].createdAt)
  }

  /** Where `OFFSET offset` starts in a listing of `n` rows; SQLite reads a negative offset as 0. */
  function StartOf(offset: int, n: nat): (start: nat)
    ensures start <= n
    ensures 0 <= offset <= n ==> start == offset
    ensures offset < 0 ==> start == 0
    ensures offset > n ==> start == n
  {
    if offset < 0 then 0 else if offset > n then n else offset
  }

  function Select(rows: map<nat, Row>, id: nat): (sel: Selected)
    requires id in rows
    ensures sel.id == id
    ensures sel.content == rows[id].content && sel.email == rows[id].email
    ensures sel.createdAt == rows[id].createdAt
    ensures sel.imageType.Some? <==> rows[id].image.Some?
    ensures sel.imageType.Some? ==> sel.imageType.value == rows[id].image.value.mimeType
  {
    var row := rows[id];
    Selected(id, row.content, row.email, row.createdAt, if row.image.Some? then Some(row.image.value.mimeType) else None)
  }

  /**
   * `... LIMIT limit OFFSET offset` over the listing `order`: the rows at the
   * positions from the offset on, at most `limit` of them, fewer only when the
   * listing runs out.
   */
  function PageOf(rows: map<nat, Row>, order: seq<nat>, limit: nat, offset: int): (page: seq<Selected>)
    requires forall i :: 0 <= i < |order| ==> order[i] in rows
    ensures |page| <= limit
    ensures |page| == limit || StartOf(offset, |order|) + |page| == |order|
    ensures StartOf(offset, |order|) + |page| <= |order|
    ensures forall i :: 0 <= i < |page| ==>
      page[i].id == order[StartOf(offset, |order|) + i] && page[i] == Select(rows, page[i].id)
  {
    var start := StartOf(offset, |order|);
    var count := if limit < |order| - start then limit else |order| - start;
    var page := seq(count, i requires 0 <= i < count => Select(rows, order[start + i]));
    assert forall i :: 0 <= i < |page| ==> page[i] == Select(rows, order[start + i]);
    page
  }

  /** A page of a listing order is itself newest first. */
  lemma PageNewestFirst(rows: map<nat, Row>, order: seq<nat>, limit: nat, offset: int)
    requires IsListingOrder(rows, order)
    ensures var page := PageOf(rows, order, limit, offset);
      forall i, j :: 0 <= i < j < |page| ==> page[i].createdAt >= page[j].createdAt
  {
  }

  /** A listing order names every row once, so it is as long as the table. */
  lemma ListingOrderLength(rows: map<nat, Row>, order: seq<nat>)
    requires IsListingOrder(rows, order)
    ensures |order| == |rows|
  {
    DistinctCardinality(order);
    assert ElementsOf(order) == rows.Keys;
  }

  /** The ids a sequence names. */
  function ElementsOf(s: seq<nat>): (e: set<nat>)
    ensures forall x :: x in e <==> x in s
  {
    if s == [] then {} else {s[0]} + ElementsOf(s[1..])
  }

  lemma {:induction false} DistinctCardinality(s: seq<nat>)
    requires forall i, j :: 0 <= i < j < |s| ==> s[i] != s[j]
    ensures |ElementsOf(s)| == |s|
  {
    if s != [] {
      var rest := s[1..];
      forall i, j | 0 <= i < j < |rest| ensures rest[i] != rest[j] {
        assert rest[i] == s[i + 1] && rest[j] == s[j + 1];
      }
      DistinctCardinality(rest);
      forall k | 0 <= k < |rest| ensures rest[k] != s[0] {
        assert rest[k] == s[k + 1];
      }
      assert s[0] !in ElementsOf(rest);
    }
  }

  /** The shapes a blob column comes back in from the driver: a plain array of numbers, or a byte buffer. */
  datatype Blob = ArrayBlob(items: seq<int>) | BufferBlob(bytes: seq<byte>)

  /** How the driver hands back stored bytes, in either representation. */
  function DriverBlob(data: seq<byte>, asArray: bool): (b: Blob)
  {
    if asArray then ArrayBlob(seq(|data|, i requires 0 <= i < |data| => data[i] as int)) else BufferBlob(data)
  }

  /**
   * `new Uint8Array(array)` for an array blob, the buffer itself otherwise:
   * every element is reduced modulo 256, as the typed-array conversion does.
   */
  function Normalize(b: Blob): (r: seq<byte>)
    ensures b.BufferBlob? ==> r == b.bytes
    ensures b.ArrayBlob? ==> |r| == |b.items| && forall i :: 0 <= i < |r| ==> r[i] as int == b.items[i] % 256
  {
    match b
    case BufferBlob(bytes) => bytes
    case ArrayBlob(items) => seq(|items|, i requires 0 <= i < |items| => (items[i] % 256) as byte)
  }

  /** Whatever representation the driver picks, normalising gives back the stored bytes. */
  lemma NormalizeDriverBlob(data: seq<byte>, asArray: bool)
    ensures Normalize(DriverBlob(data, asArray)) == data
  {
  }

  /**
   * The table as the handler sees it across requests: the rows and the next
   * id the store will assign. Ids only grow, so a deleted id is never reused.
   */
  class MessageTable {
    var rows: map<nat, Row>
    var nextId: nat

    ghost predicate Valid()
      reads this
    {
      1 <= nextId && forall k :: k in rows ==> 1 <= k < nextId
    }

    /** Every stored row passes the create validation. */
    ghost predicate RowsOk()
      reads this
    {
      forall k :: k in rows ==> RowOk(rows[k])
    }

    constructor ()
      ensures Valid() && RowsOk()
      ensures rows == map[] && nextId == 1
    {
      rows := map[];
      nextId := 1;
    }

    /** `INSERT INTO messages ...`: one new row under a fresh id, stamped with `now`. */
    method Insert(d: Draft, now: int) returns (id: nat)
      requires Valid()
      modifies this
      ensures Valid()
      ensures id == old(nextId) && id !in old(rows)
      ensures rows == old(rows)[id := RowOf(d, now)]
      ensures nextId == old(nextId) + 1
      ensures old(RowsOk()) && DraftOk(d) ==> RowsOk()
    {
      id := nextId;
      rows := rows[id := RowOf(d, now)];
      nextId := nextId + 1;
    }

    /** `DELETE FROM messages WHERE id = ?`: removes the row the text denotes, if there is one. */
    method Delete(idText: string)
      requires Valid()
      modifies this
      ensures Valid()
      ensures rows == Without(old(rows), idText)
      ensures nextId == old(nextId)
      ensures old(RowsOk()) ==> RowsOk()
    {
      rows := Without(rows, idText);
    }
  }
}
