/** The settings service (services/settings_service.py). */
module SettingsServices {
  import opened Common
  import opened Models
  import opened SettingsRepo

  /** The table after `update_settings`: the row is created first if missing, then its values set. */
  function UpdateSettingsRows(rows: seq<SettingsRow>, defaults: SettingsRow, llmModel: string, maxTokens: int): seq<SettingsRow> {
    Updated(GetOrCreateRows(rows, defaults), 0, llmModel, maxTokens)
  }

  /** The service calls. */
  datatype SettingsCall = GetSettingsCall | UpdateSettingsCall(llmModel: string, maxTokens: int)

  function Apply(rows: seq<SettingsRow>, defaults: SettingsRow, c: SettingsCall): seq<SettingsRow> {
    match c
    case GetSettingsCall => GetOrCreateRows(rows, defaults)
    case UpdateSettingsCall(m, k) => UpdateSettingsRows(rows, defaults, m, k)
  }

  function ApplyAll(rows: seq<SettingsRow>, defaults: SettingsRow, calls: seq<SettingsCall>): seq<SettingsRow>
    decreases |calls|
  {
    if calls == [] then rows else ApplyAll(Apply(rows, defaults, calls[0]), defaults, calls[1..])
  }

  /**
   * From an empty table, any non-empty run of service calls leaves exactly
   * one row, with rowid 1, and every later call reads or writes that row.
   */
  lemma {:induction false} ExactlyOneRow(rows: seq<SettingsRow>, defaults: SettingsRow, calls: seq<SettingsCall>)
    requires rows == [] || (|rows| == 1 && rows[0].id == FirstRowId)
    requires rows == [] ==> calls != []
    ensures |ApplyAll(rows, defaults, calls)| == 1
    ensures ApplyAll(rows, defaults, calls)[0].id == FirstRowId
    decreases |calls|
  {
    if calls != [] {
      var next := Apply(rows, defaults, calls[0]);
      if calls[1..] == [] {
        assert ApplyAll(next, defaults, calls[1..]) == next;
      } else {
        ExactlyOneRow(next, defaults, calls[1..]);
      }
    }
  }

  /** After `update_settings(m, k)`, `get_settings` returns m and k and inserts nothing. */
  lemma UpdateThenGet(rows: seq<SettingsRow>, defaults: SettingsRow, llmModel: string, maxTokens: int)
    ensures var after := UpdateSettingsRows(rows, defaults, llmModel, maxTokens);
      && GetOrCreateRows(after, defaults) == after
      && after[0].llmModel == llmModel && after[0].maxTokens == maxTokens
      && |after| == if rows == [] then 1 else |rows|
  {
  }

  class SettingsService {
    const repo: SettingsRepository

    constructor (repo: SettingsRepository)
      ensures this.repo == repo
    {
      this.repo := repo;
    }

    method GetSettings() returns (s: SettingsRow)
      modifies repo
      ensures repo.rows == GetOrCreateRows(old(repo.rows), repo.defaults)
      ensures s == repo.rows[0]
    {
      s := repo.GetOrCreate();
    }

    method UpdateSettings(llmModel: string, maxTokens: int) returns (s: SettingsRow)
      modifies repo
      ensures repo.rows == UpdateSettingsRows(old(repo.rows), repo.defaults, llmModel, maxTokens)
      ensures s == repo.rows[0] && s.llmModel == llmModel && s.maxTokens == maxTokens
    {
      var current := repo.GetOrCreate();
      assert Position(repo.rows, current.id) == Some(0);
      s := repo.Update(current, llmModel, maxTokens);
    }
  }
}
