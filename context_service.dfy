/** The global-context service (services/context_service.py). */
module ContextServices {
  import opened Common
  import opened Models
  import opened ContextRepo

  /** The text `get_context` reports for a table: the first row's text, null read as empty. */
  function ContextText(rows: seq<GlobalContext>): string {
    GetOrCreateRows(rows)[0].context.GetOr("")
  }

  /** Once `update_context(t)` has run, `get_context` reports `t` and inserts nothing. */
  lemma UpdateThenGet(rows: seq<GlobalContext>, t: string)
    ensures GetOrCreateRows(Overwritten(rows, Some(t))) == Overwritten(rows, Some(t))
    ensures ContextText(Overwritten(rows, Some(t))) == t
  {
  }

  /** On a fresh table `get_context` reports the empty text; on an existing row, its text or "" for null. */
  lemma GetContextText(rows: seq<GlobalContext>)
    ensures rows == [] ==> ContextText(rows) == ""
    ensures rows != [] ==> ContextText(rows) == rows[0].context.GetOr("")
  {
  }

  class ContextService {
    const repo: ContextRepository

    constructor (repo: ContextRepository)
      ensures this.repo == repo
    {
      this.repo := repo;
    }

    /** The global text, creating the row when it is missing; never null. */
    method GetContext() returns (s: string)
      modifies repo
      ensures repo.rows == GetOrCreateRows(old(repo.rows))
      ensures s == ContextText(old(repo.rows))
    {
      var g := repo.GetOrCreate();
      s := g.context.GetOr("");
    }

    /** Stores `text` and returns it. */
    method UpdateContext(text: string) returns (s: string)
      modifies repo
      ensures repo.rows == Overwritten(old(repo.rows), Some(text))
      ensures s == text
    {
      var g := repo.Update(text);
      s := g.context.value;
    }
  }
}
