/**
 * The global-context table and its repository
 * (repositories/context_repository.py). The table is meant to hold a single
 * row; every read goes to the first row in rowid order, and a row is only
 * ever inserted into an empty table, where SQLite gives it rowid 1.
 */
module ContextRepo {
  import opened Common
  import opened Models

  /** The rowid SQLite gives the first row of an empty table. */
  const FirstRowId: nat := 1

  /** The table after `get_or_create`: a fresh empty-text row if there was none, else unchanged. */
  function GetOrCreateRows(rows: seq<GlobalContext>): (r: seq<GlobalContext>)
    ensures |r| >= 1
    ensures rows != [] ==> r == rows
    ensures rows == [] ==> r == [NewGlobalContext(FirstRowId)]
  {
    if rows == [] then [NewGlobalContext(FirstRowId)] else rows
  }

  /**
   * The table after the first row's text is set to `v`, inserting the row
   * when the table is empty: `update` does this with a string, restoring a
   * backup with whatever the backup holds (possibly null).
   */
  function Overwritten(rows: seq<GlobalContext>, v: Option<string>): (r: seq<GlobalContext>)
    ensures |r| == if rows == [] then 1 else |rows|
    ensures r[0].context == v
    ensures rows != [] ==> r[0].id == rows[0].id && r[1..] == rows[1..]
  {
    if rows == [] then [GlobalContext(FirstRowId, v)] else rows[0 := rows[0].(context := v)]
  }

  /** `get_or_create` is idempotent: a second call changes nothing and yields the same row. */
  lemma GetOrCreateIdempotent(rows: seq<GlobalContext>)
    ensures GetOrCreateRows(GetOrCreateRows(rows)) == GetOrCreateRows(rows)
    ensures GetOrCreateRows(rows)[0] == if rows == [] then GlobalContext(FirstRowId, Some("")) else rows[0]
  {
  }

  /** The calls that reach the table through this repository. */
  datatype ContextCall = GetOrCreateCall | UpdateCall(text: string)

  function Apply(rows: seq<GlobalContext>, c: ContextCall): seq<GlobalContext> {
    match c
    case GetOrCreateCall => GetOrCreateRows(rows)
    case UpdateCall(t) => Overwritten(rows, Some(t))
  }

  /** The table after the calls, first to last. */
  function ApplyAll(rows: seq<GlobalContext>, calls: seq<ContextCall>): seq<GlobalContext>
    decreases |calls|
  {
    if calls == [] then rows else ApplyAll(Apply(rows, calls[0]), calls[1..])
  }

  /**
   * A table that holds at most one row keeps at most one row whatever the
   * calls, and holds exactly one once any call has been made; the row keeps
   * its id throughout.
   */
  lemma {:induction false} AtMostOneRow(rows: seq<GlobalContext>, calls: seq<ContextCall>)
    requires |rows| <= 1
    ensures |ApplyAll(rows, calls)| <= 1
    ensures calls != [] ==> |ApplyAll(rows, calls)| == 1
    ensures rows != [] ==> ApplyAll(rows, calls)[0].id == rows[0].id
    decreases |calls|
  {
    if calls != [] {
      var next := Apply(rows, calls[0]);
      AtMostOneRow(next, calls[1..]);
      if calls[1..] == [] {
        assert ApplyAll(next, calls[1..]) == next;
      }
    }
  }

  class ContextRepository {
    var rows: seq<GlobalContext>

    constructor ()
      ensures rows == []
    {
      rows := [];
    }

    /** The first row, if any. */
    method Get() returns (r: Option<GlobalContext>)
      ensures r.None? <==> rows == []
      ensures r.Some? ==> r.value == rows[0]
    {
      if rows == [] {
        r := None;
      } else {
        r := Some(rows[0]);
      }
    }

    method GetOrCreate() returns (g: GlobalContext)
      modifies this
      ensures rows == GetOrCreateRows(old(rows))
      ensures g == rows[0]
    {
      var existing := Get();
      if existing.None? {
        g := NewGlobalContext(FirstRowId);
        rows := rows + [g];
      } else {
        g := existing.value;
      }
    }

    method Update(text: string) returns (g: GlobalContext)
      modifies this
      ensures rows == Overwritten(old(rows), Some(text))
      ensures g == rows[0] && g.context == Some(text)
    {
      var existing := Get();
      if existing.None? {
        g := GlobalContext(FirstRowId, Some(text));
        rows := rows + [g];
      } else {
        g := existing.value.(context := Some(text));
        rows := rows[0 := g];
      }
    }
  }
}
