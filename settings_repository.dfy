/**
 * The application-settings table and its repository
 * (repositories/settings_repository.py). Like the global context it is
 * meant to hold one row, read as the first row in rowid order. The column
 * defaults of a freshly created row are not part of this model; the
 * repository is given them as `defaults`.
 */
module SettingsRepo {
  import opened Common
  import opened Models

  const FirstRowId: nat := 1

  /** Position of the first row with the given id. */
  function Position(rows: seq<SettingsRow>, id: nat): (r: Option<nat>)
    ensures r.Some? ==> r.value < |rows| && rows[r.value].id == id
    ensures r.None? <==> forall i :: 0 <= i < |rows| ==> rows[i].id != id
  {
    if rows == [] then None
    else if rows[0].id == id then Some(0)
    else match Position(rows[1..], id)
      case Some(k) => Some(k + 1)
      case None => None
  }

  /** The table after `get_or_create`: the defaults row inserted if there was none. */
  function GetOrCreateRows(rows: seq<SettingsRow>, defaults: SettingsRow): (r: seq<SettingsRow>)
    ensures |r| >= 1
    ensures rows != [] ==> r == rows
    ensures rows == [] ==> r == [defaults.(id := FirstRowId)]
  {
    if rows == [] then [defaults.(id := FirstRowId)] else rows
  }

  /** The table after `update` of row `i`: only that row's two values change. */
  function Updated(rows: seq<SettingsRow>, i: nat, llmModel: string, maxTokens: int): (r: seq<SettingsRow>)
    requires i < |rows|
    ensures |r| == |rows|
    ensures r[i] == SettingsRow(rows[i].id, llmModel, maxTokens)
    ensures forall j :: 0 <= j < |rows| && j != i ==> r[j] == rows[j]
  {
    rows[i := rows[i].(llmModel := llmModel, maxTokens := maxTokens)]
  }

  /** A repeated `get_or_create` inserts nothing and returns the row with the same id. */
  lemma GetOrCreateIdempotent(rows: seq<SettingsRow>, defaults: SettingsRow)
    ensures GetOrCreateRows(GetOrCreateRows(rows, defaults), defaults) == GetOrCreateRows(rows, defaults)
    ensures rows != [] ==> GetOrCreateRows(rows, defaults)[0].id == rows[0].id
  {
  }

  class SettingsRepository {
    var rows: seq<SettingsRow>
    /** The column defaults a new row receives. */
    const defaults: SettingsRow

    constructor (defaults: SettingsRow)
      ensures rows == [] && this.defaults == defaults
    {
      rows := [];
      this.defaults := defaults;
    }

    method GetOrCreate() returns (s: SettingsRow)
      modifies this
      ensures rows == GetOrCreateRows(old(rows), defaults)
      ensures s == rows[0]
    {
      if rows == [] {
        s := defaults.(id := FirstRowId);
        rows := rows + [s];
      } else {
        s := rows[0];
      }
    }

    /** Sets the two values of the stored row `s`; the row must still exist. */
    method Update(s: SettingsRow, llmModel: string, maxTokens: int) returns (u: SettingsRow)
      requires Position(rows, s.id).Some?
      modifies this
      ensures rows == Updated(old(rows), Position(old(rows), s.id).value, llmModel, maxTokens)
      ensures u == SettingsRow(s.id, llmModel, maxTokens)
    {
      var i := Position(rows, s.id).value;
      u := rows[i].(llmModel := llmModel, maxTokens := maxTokens);
      rows := rows[i := u];
    }
  }
}
