/**
 * The `content_drafts` table, held in memory: a sequence of rows with
 * unique `draft_id`s, changed only by inserting a row or by an update
 * filtered on `draft_id` and `user_id`.
 */
module Drafts {

  import opened Wrappers
  import opened Time
  import opened Auth

  type DraftId = string

  datatype Draft = Draft(
    id: DraftId,
    owner: UserId,
    contentType: Option<string>,
    contentText: Option<string>,
    createdAt: Timestamp,
    updatedAt: Option<Timestamp>)

  predicate UniqueIds(rows: seq<Draft>) {
    forall i, j :: 0 <= i < j < |rows| ==> rows[i].id != rows[j].id
  }

  predicate IsFreshId(rows: seq<Draft>, id: DraftId) {
    forall i :: 0 <= i < |rows| ==> rows[i].id != id
  }

  /** The filter `.eq('draft_id', id).eq('user_id', owner)`. */
  predicate Owned(d: Draft, id: DraftId, owner: UserId) {
    d.id == id && d.owner == owner
  }

  /** The position of the first row the filter selects. */
  function IndexOfOwned(rows: seq<Draft>, id: DraftId, owner: UserId): (r: Option<nat>)
    ensures r.Some? ==> r.value < |rows| && Owned(rows[r.value], id, owner)
    ensures r.Some? ==> forall i :: 0 <= i < r.value ==> !Owned(rows[i], id, owner)
    ensures r.None? ==> forall i :: 0 <= i < |rows| ==> !Owned(rows[i], id, owner)
  {
    if rows == [] then None
    else if Owned(rows[0], id, owner) then Some(0)
    else match IndexOfOwned(rows[1..], id, owner)
      case None => None
      case Some(k) => Some(k + 1)
  }

  /** With unique ids the filter selects at most one row. */
  lemma OwnedRowUnique(rows: seq<Draft>, id: DraftId, owner: UserId, k: nat)
    requires UniqueIds(rows) && IndexOfOwned(rows, id, owner) == Some(k)
    ensures forall i :: 0 <= i < |rows| && i != k ==> !Owned(rows[i], id, owner)
  {
  }

  /** The first row whose `draft_id` is `id` (`rows.find(r => r.draft_id === id)`). */
  function FirstWithId(rows: seq<Draft>, id: DraftId): (r: Option<Draft>)
    ensures r.Some? ==> exists k :: 0 <= k < |rows| && rows[k] == r.value && r.value.id == id
                          && forall i :: 0 <= i < k ==> rows[i].id != id
    ensures r.None? ==> forall i :: 0 <= i < |rows| ==> rows[i].id != id
  {
    if rows == [] then None
    else if rows[0].id == id then Some(rows[0])
    else
      var r := FirstWithId(rows[1..], id);
      assert r.Some? ==> exists k :: 0 <= k < |rows[1..]| && rows[1..][k] == r.value && r.value.id == id
                          && forall i :: 0 <= i < k ==> rows[1..][i].id != id;
      r
  }

  /** The columns an update from the generate route sets. */
  function Patched(d: Draft, contentType: string, text: string, now: Timestamp): Draft {
    d.(contentType := Some(contentType), contentText := Some(text), updatedAt := Some(now))
  }

  /** The table after `.update(...).eq('draft_id', id).eq('user_id', owner)`. */
  function UpdateOwned(rows: seq<Draft>, id: DraftId, owner: UserId, contentType: string, text: string, now: Timestamp): seq<Draft> {
    match IndexOfOwned(rows, id, owner)
    case None => rows
    case Some(k) => rows[k := Patched(rows[k], contentType, text, now)]
  }

  /**
   * With unique ids, the update patches exactly the rows the filter selects
   * and leaves every other row as it was; it keeps ids, owners and creation
   * times, so the ids stay unique.
   */
  lemma UpdateOwnedSpec(rows: seq<Draft>, id: DraftId, owner: UserId, contentType: string, text: string, now: Timestamp)
    requires UniqueIds(rows)
    ensures var r := UpdateOwned(rows, id, owner, contentType, text, now);
      && |r| == |rows| && UniqueIds(r)
      && (forall i :: 0 <= i < |rows| ==>
            r[i] == if Owned(rows[i], id, owner) then Patched(rows[i], contentType, text, now) else rows[i])
      && (forall i :: 0 <= i < |rows| ==>
            r[i].id == rows[i].id && r[i].owner == rows[i].owner && r[i].createdAt == rows[i].createdAt)
  {
    match IndexOfOwned(rows, id, owner)
    case None =>
    case Some(k) => OwnedRowUnique(rows, id, owner, k);
  }

  /** The table the application writes to. */
  class DraftTable {
    var rows: seq<Draft>

    ghost predicate Valid()
      reads this
    {
      UniqueIds(rows)
    }

    constructor ()
      ensures Valid() && rows == []
    {
      rows := [];
    }

    /**
     * `.insert({...}).select().single()`: the store assigns the fresh id `id`
     * and the creation time `now`; `updated_at` starts out null.
     */
    method Insert(id: DraftId, owner: UserId, contentType: Option<string>, text: Option<string>, now: Timestamp)
      returns (row: Draft)
      requires Valid() && IsFreshId(rows, id)
      modifies this
      ensures Valid()
      ensures row == Draft(id, owner, contentType, text, now, None)
      ensures rows == old(rows) + [row]
    {
      row := Draft(id, owner, contentType, text, now, None);
      rows := rows + [row];
    }

    /**
     * `.update({content_type, content_text, updated_at}).eq('draft_id', id)
     * .eq('user_id', owner).select().single()`: the updated row, or None when
     * the filter selects no row (which `.single()` reports as an error).
     */
    method UpdateOwnedRow(id: DraftId, owner: UserId, contentType: string, text: string, now: Timestamp)
      returns (row: Option<Draft>)
      requires Valid()
      modifies this
      ensures Valid()
      ensures rows == UpdateOwned(old(rows), id, owner, contentType, text, now)
      ensures row.None? <==> forall i :: 0 <= i < |rows| ==> !Owned(old(rows)[i], id, owner)
      ensures row.Some? ==> row.value in rows && Owned(row.value, id, owner)
                            && row.value.contentText == Some(text) && row.value.updatedAt == Some(now)
    {
      UpdateOwnedSpec(rows, id, owner, contentType, text, now);
      match IndexOfOwned(rows, id, owner)
      case None =>
        row := None;
      case Some(k) =>
        var patched := Patched(rows[k], contentType, text, now);
        rows := rows[k := patched];
        row := Some(patched);
    }
  }
}
