/**
 * The history page: every draft, newest first, each with a Duplicate
 * button that inserts a copy of the row as the page shows it.
 */
module History {

  import opened Wrappers
  import opened Time
  import opened Drafts
  import opened Listing
  import opened Routing

  /**
   * The table after duplicating `id` from the page's rows `shown`: a copy
   * of the first shown row with that id, owned by that row's owner, is
   * appended unless the store refuses it.
   */
  function Duplicated(table: seq<Draft>, shown: seq<Draft>, id: DraftId, insertFails: bool,
                      newId: DraftId, now: Timestamp): seq<Draft> {
    match FirstWithId(shown, id)
    case None => table
    case Some(src) =>
      if insertFails then table else table + [Draft(newId, src.owner, src.contentType, src.contentText, now, None)]
  }

  /**
   * A duplicate never changes an existing row and adds at most one; it adds
   * one exactly when the page shows the id and the store accepts the
   * insert; a copy carries the source row's owner, type and text, whoever
   * is viewing.
   */
  lemma DuplicateSpec(table: seq<Draft>, shown: seq<Draft>, id: DraftId, insertFails: bool,
                      newId: DraftId, now: Timestamp)
    ensures var r := Duplicated(table, shown, id, insertFails, newId, now);
      && |table| <= |r| <= |table| + 1
      && r[..|table|] == table
      && ((forall i :: 0 <= i < |shown| ==> shown[i].id != id) ==> r == table)
      && (|r| == |table| + 1 <==> (exists i :: 0 <= i < |shown| && shown[i].id == id) && !insertFails)
      && (|r| == |table| + 1 ==>
            exists k :: 0 <= k < |shown| && shown[k].id == id
              && (forall i :: 0 <= i < k ==> shown[i].id != id)
              && r[|table|] == Draft(newId, shown[k].owner, shown[k].contentType, shown[k].contentText, now, None))
  {
    var r := Duplicated(table, shown, id, insertFails, newId, now);
    assert r[..|table|] == table;
  }

  class HistoryPage {
    var rows: seq<Draft>
    var navigation: Navigation

    constructor ()
      ensures rows == [] && navigation == Stay
    {
      rows := [];
      navigation := Stay;
    }

    /** The load effect: `setRows(data ?? [])`, where a failed query gives null. */
    method Load(table: DraftTable, queryFails: bool)
      modifies this
      ensures rows == if queryFails then [] else HistoryRows(table.rows)
      ensures navigation == old(navigation)
    {
      rows := if queryFails then [] else HistoryRows(table.rows);
    }

    /** `duplicate(id)`: the insert's outcome is not looked at; the page reloads either way. */
    method Duplicate(table: DraftTable, id: DraftId, insertFails: bool, newId: DraftId, now: Timestamp)
      requires table.Valid() && IsFreshId(table.rows, newId)
      modifies this, table
      ensures table.Valid()
      ensures table.rows == Duplicated(old(table.rows), rows, id, insertFails, newId, now)
      ensures rows == old(rows)
      ensures navigation == if FirstWithId(rows, id).None? then old(navigation) else Reloaded
    {
      var src := FirstWithId(rows, id);
      if src.None? {
        return;
      }
      if !insertFails {
        var copy := table.Insert(newId, src.value.owner, src.value.contentType, src.value.contentText, now);
      }
      navigation := Reloaded;
    }
  }
}
