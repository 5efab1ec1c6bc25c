/**
 * The chat log and its repository (repositories/chat_repository.py):
 * appended one message at a time, read newest first under a LIMIT or all
 * oldest first, and emptied or trimmed by age.
 */
module ChatRepo {
  import opened Common
  import opened Seqs
  import opened Models

  predicate IdsIncreasing(ms: seq<ChatMessage>) {
    forall i, j :: 0 <= i < j < |ms| ==> ms[i].id < ms[j].id
  }

  function NextId(ms: seq<ChatMessage>): (n: nat)
    ensures IdsIncreasing(ms) ==> forall i :: 0 <= i < |ms| ==> ms[i].id < n
  {
    if ms == [] then 1 else ms[|ms| - 1].id + 1
  }

  /** ORDER BY created_at DESC. */
  predicate NewestFirst(a: ChatMessage, b: ChatMessage) {
    a.createdAt >= b.createdAt
  }

  /** ORDER BY created_at. */
  predicate OldestFirst(a: ChatMessage, b: ChatMessage) {
    a.createdAt <= b.createdAt
  }

  function Recent(ms: seq<ChatMessage>, limit: int): seq<ChatMessage> {
    Limit(SortBy(ms, NewestFirst), limit)
  }

  /** `get_recent(limit)` returns at most `limit` stored messages, newest first. */
  lemma RecentContents(ms: seq<ChatMessage>, limit: int)
    ensures 0 <= limit ==> |Recent(ms, limit)| == if limit < |ms| then limit else |ms|
    ensures SortedBy(Recent(ms, limit), NewestFirst)
    ensures forall x :: x in Recent(ms, limit) ==> x in ms
    ensures Recent(ms, limit) <= SortBy(ms, NewestFirst)
  {
    assert TotalPreorder(NewestFirst);
    SortBySorted(ms, NewestFirst);
    SortByMembers(ms, NewestFirst);
    LimitKeeps(SortBy(ms, NewestFirst), limit, NewestFirst);
  }

  /** `get_all` returns every message once, oldest first. */
  lemma AllContents(ms: seq<ChatMessage>)
    ensures multiset(SortBy(ms, OldestFirst)) == multiset(ms)
    ensures SortedBy(SortBy(ms, OldestFirst), OldestFirst)
  {
    assert TotalPreorder(OldestFirst);
    SortBySorted(ms, OldestFirst);
  }

  /** A message older than the cutoff: `created_at < cutoff`. */
  function OlderThan(cutoff: Instant): ChatMessage -> bool {
    (m: ChatMessage) => m.createdAt < cutoff
  }

  function NotOlderThan(cutoff: Instant): ChatMessage -> bool {
    (m: ChatMessage) => !(m.createdAt < cutoff)
  }

  /** The cutoff of `delete_old_records(days)`: `days` whole days before now. */
  function Cutoff(now: Instant, retentionDays: int): Instant {
    now - retentionDays * Day
  }

  /**
   * Trimming by age splits the log: the deleted messages and the kept ones
   * together are the whole log, and when nothing is older than the cutoff
   * nothing is deleted and the log is unchanged.
   */
  lemma {:induction false} TrimSplits(ms: seq<ChatMessage>, cutoff: Instant)
    ensures |Filter(ms, OlderThan(cutoff))| + |Filter(ms, NotOlderThan(cutoff))| == |ms|
    ensures multiset(Filter(ms, OlderThan(cutoff))) + multiset(Filter(ms, NotOlderThan(cutoff))) == multiset(ms)
    ensures (forall i :: 0 <= i < |ms| ==> ms[i].createdAt >= cutoff) ==>
      Filter(ms, NotOlderThan(cutoff)) == ms && Filter(ms, OlderThan(cutoff)) == []
  {
    FilterSplit(ms, OlderThan(cutoff), NotOlderThan(cutoff));
    if forall i :: 0 <= i < |ms| ==> ms[i].createdAt >= cutoff {
      FilterAll(ms, NotOlderThan(cutoff));
    }
  }

  class ChatRepository {
    var messages: seq<ChatMessage>

    ghost predicate Valid()
      reads this
    {
      IdsIncreasing(messages)
    }

    constructor ()
      ensures Valid() && messages == []
    {
      messages := [];
    }

    /** Appends one message, which receives the next rowid; the others are unchanged. */
    method Create(draft: ChatMessage) returns (created: ChatMessage)
      requires Valid()
      modifies this
      ensures Valid()
      ensures messages == old(messages) + [created]
      ensures created == draft.(id := NextId(old(messages)))
    {
      created := draft.(id := NextId(messages));
      messages := messages + [created];
    }

    method GetRecent(limit: int) returns (r: seq<ChatMessage>)
      ensures 0 <= limit ==> |r| == if limit < |messages| then limit else |messages|
      ensures SortedBy(r, NewestFirst)
      ensures forall x :: x in r ==> x in messages
      ensures r == Recent(messages, limit)
    {
      r := Recent(messages, limit);
      RecentContents(messages, limit);
    }

    method GetAll() returns (r: seq<ChatMessage>)
      ensures multiset(r) == multiset(messages)
      ensures SortedBy(r, OldestFirst)
    {
      r := SortBy(messages, OldestFirst);
      AllContents(messages);
    }

    /** Empties the log and reports how many messages it held. */
    method DeleteAll() returns (count: nat)
      modifies this
      ensures count == |old(messages)|
      ensures messages == []
    {
      count := |messages|;
      messages := [];
    }

    /** Deletes exactly the messages created before the cutoff and reports how many. */
    method DeleteOldRecords(retentionDays: int, now: Instant) returns (count: nat)
      requires Valid()
      modifies this
      ensures Valid()
      ensures messages == Filter(old(messages), NotOlderThan(Cutoff(now, retentionDays)))
      ensures count == |Filter(old(messages), OlderThan(Cutoff(now, retentionDays)))|
      ensures count + |messages| == |old(messages)|
    {
      var cutoff := Cutoff(now, retentionDays);
      TrimSplits(messages, cutoff);
      count := |Filter(messages, OlderThan(cutoff))|;
      ghost var before := messages;
      messages := Filter(messages, NotOlderThan(cutoff));
      FilterKeepsIncreasing(before, NotOlderThan(cutoff));
    }
  }

  /** Deleting rows keeps the remaining rowids increasing. */
  lemma FilterKeepsIncreasing(ms: seq<ChatMessage>, p: ChatMessage -> bool)
    requires IdsIncreasing(ms)
    ensures IdsIncreasing(Filter(ms, p))
  {
    var lt := (a: ChatMessage, b: ChatMessage) => a.id < b.id;
    assert SortedBy(ms, lt);
    FilterSorted(ms, p, lt);
    var r := Filter(ms, p);
    assert forall i, j :: 0 <= i < j < |r| ==> lt(r[i], r[j]);
  }
}
