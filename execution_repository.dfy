/**
 * The log of oracle calls and its repository
 * (repositories/dspy_execution_repository.py): an append-only table read
 * oldest first under a LIMIT.
 */
module ExecutionRepo {
  import opened Common
  import opened Seqs
  import opened Models

  predicate IdsIncreasing(es: seq<Execution>) {
    forall i, j :: 0 <= i < j < |es| ==> es[i].id < es[j].id
  }

  function NextId(es: seq<Execution>): (n: nat)
    ensures IdsIncreasing(es) ==> forall i :: 0 <= i < |es| ==> es[i].id < n
  {
    if es == [] then 1 else es[|es| - 1].id + 1
  }

  /** ORDER BY created_at ASC. */
  predicate OlderFirst(a: Execution, b: Execution) {
    a.createdAt <= b.createdAt
  }

  /** The rows `get_latest(limit)` returns. */
  function Latest(es: seq<Execution>, limit: int): seq<Execution> {
    Limit(SortBy(es, OlderFirst), limit)
  }

  /**
   * `get_latest(limit)` returns min(limit, count) rows (all of them for a
   * negative limit), oldest first, each of them a stored row: the first
   * `limit` rows of the table in ascending creation order.
   */
  lemma LatestContents(es: seq<Execution>, limit: int)
    ensures 0 <= limit ==> |Latest(es, limit)| == if limit < |es| then limit else |es|
    ensures limit < 0 ==> multiset(Latest(es, limit)) == multiset(es)
    ensures SortedBy(Latest(es, limit), OlderFirst)
    ensures forall x :: x in Latest(es, limit) ==> x in es
    ensures Latest(es, limit) <= SortBy(es, OlderFirst)
  {
    assert TotalPreorder(OlderFirst);
    SortBySorted(es, OlderFirst);
    SortByMembers(es, OlderFirst);
    LimitKeeps(SortBy(es, OlderFirst), limit, OlderFirst);
  }

  class ExecutionRepository {
    var executions: seq<Execution>

    ghost predicate Valid()
      reads this
    {
      IdsIncreasing(executions)
    }

    constructor ()
      ensures Valid() && executions == []
    {
      executions := [];
    }

    /** Appends one record, which receives the next rowid. */
    method Create(draft: Execution) returns (created: Execution)
      requires Valid()
      modifies this
      ensures Valid()
      ensures executions == old(executions) + [created]
      ensures created == draft.(id := NextId(old(executions)))
    {
      created := draft.(id := NextId(executions));
      executions := executions + [created];
    }

    method GetLatest(limit: int) returns (r: seq<Execution>)
      ensures 0 <= limit ==> |r| == if limit < |executions| then limit else |executions|
      ensures SortedBy(r, OlderFirst)
      ensures forall x :: x in r ==> x in executions
      ensures r == Latest(executions, limit)
    {
      r := Latest(executions, limit);
      LatestContents(executions, limit);
    }
  }
}
