/** The read-through issue cache: identifier to (issue or absent, fetch time).
    The clock readings and the fetcher's reply are parameters. */
module IssueCache {
  import opened Wrappers
  import opened Errors
  import opened LinearTypes

  /** Five minutes, in nanoseconds (time.Duration's unit). */
  const DefaultTTL: int := 5 * 60 * 1_000_000_000

  /** A cached answer; an absent issue (not found) is cached too. */
  datatype Entry = Entry(issue: Option<Issue>, fetchedAt: int)

  /** The entry for identifier is present and younger than ttl at now. */
  predicate Fresh(entries: map<string, Entry>, ttl: int, identifier: string, now: int)
    ensures Fresh(entries, ttl, identifier, now) ==> identifier in entries
    ensures identifier in entries && entries[identifier].fetchedAt == now ==>
      (Fresh(entries, ttl, identifier, now) <==> ttl > 0)
  {
    identifier in entries && now - entries[identifier].fetchedAt < ttl
  }

  /** What Get returns, whether it called the fetcher, and the entries after. */
  datatype GetOutcome = GetOutcome(result: Result<Option<Issue>, Error>, fetched: bool, entries: map<string, Entry>)

  /** Get as a function of the entries: now is the clock when Get starts,
      storedAt the clock when the reply has arrived, reply the fetcher's answer. */
  function GetSpec(entries: map<string, Entry>, ttl: int, identifier: string, now: int, storedAt: int,
                   reply: Result<Option<Issue>, Error>): (o: GetOutcome)
    ensures o.fetched <==> !Fresh(entries, ttl, identifier, now)
    ensures entries.Keys <= o.entries.Keys
  {
    if Fresh(entries, ttl, identifier, now) then GetOutcome(Success(entries[identifier].issue), false, entries)
    else if reply.Failure? then GetOutcome(Failure(reply.error), true, entries)
    else GetOutcome(reply, true, entries[identifier := Entry(reply.value, storedAt)])
  }

  /** A fresh entry is answered as stored, absent included, without a fetch
      and without a change. */
  lemma GetHit(entries: map<string, Entry>, ttl: int, identifier: string, now: int, storedAt: int,
               reply: Result<Option<Issue>, Error>)
    requires Fresh(entries, ttl, identifier, now)
    ensures GetSpec(entries, ttl, identifier, now, storedAt, reply)
      == GetOutcome(Success(entries[identifier].issue), false, entries)
  {
  }

  /** A fetch error is returned and the entries stay as they were, a stale
      entry included. */
  lemma GetFetchError(entries: map<string, Entry>, ttl: int, identifier: string, now: int, storedAt: int,
                      reply: Result<Option<Issue>, Error>)
    requires !Fresh(entries, ttl, identifier, now) && reply.Failure?
    ensures GetSpec(entries, ttl, identifier, now, storedAt, reply) == GetOutcome(reply, true, entries)
  {
  }

  /** A successful fetch is returned and stored under its identifier alone. */
  lemma GetStores(entries: map<string, Entry>, ttl: int, identifier: string, now: int, storedAt: int,
                  reply: Result<Option<Issue>, Error>)
    requires !Fresh(entries, ttl, identifier, now) && reply.Success?
    ensures var o := GetSpec(entries, ttl, identifier, now, storedAt, reply);
      && o.result == reply
      && o.entries.Keys == entries.Keys + {identifier}
      && o.entries[identifier] == Entry(reply.value, storedAt)
      && forall k :: k in entries && k != identifier ==> o.entries[k] == entries[k]
  {
  }

  /** After a successful fetch, a Get within the TTL of the store is answered
      from the cache with the same value, without a fetch; not-found is
      replayed like a found issue. */
  lemma GetTwice(entries: map<string, Entry>, ttl: int, identifier: string,
                 now: int, storedAt: int, reply: Result<Option<Issue>, Error>,
                 later: int, laterStored: int, laterReply: Result<Option<Issue>, Error>)
    requires reply.Success?
    requires later - storedAt < ttl
    ensures var first := GetSpec(entries, ttl, identifier, now, storedAt, reply);
      var second := GetSpec(first.entries, ttl, identifier, later, laterStored, laterReply);
      (first.fetched ==> !second.fetched && second.result == first.result && second.entries == first.entries)
  {
  }

  /** A run of Gets, in order, at the given clock readings and with the
      given replies: the domain of the map only grows. */
  function GetAll(entries: map<string, Entry>, ttl: int, ids: seq<string>, nows: seq<int>,
                  replies: seq<Result<Option<Issue>, Error>>): map<string, Entry>
    requires |ids| == |nows| == |replies|
    decreases |ids|
  {
    if ids == [] then entries
    else
      var o := GetSpec(entries, ttl, ids[0], nows[0], nows[0], replies[0]);
      GetAll(o.entries, ttl, ids[1..], nows[1..], replies[1..])
  }

  lemma {:induction false} GetAllGrows(entries: map<string, Entry>, ttl: int, ids: seq<string>, nows: seq<int>,
                                       replies: seq<Result<Option<Issue>, Error>>)
    requires |ids| == |nows| == |replies|
    ensures entries.Keys <= GetAll(entries, ttl, ids, nows, replies).Keys
    decreases |ids|
  {
    if ids != [] {
      var o := GetSpec(entries, ttl, ids[0], nows[0], nows[0], replies[0]);
      GetAllGrows(o.entries, ttl, ids[1..], nows[1..], replies[1..]);
    }
  }

  class Cache {
    const ttl: int
    var entries: map<string, Entry>

    /** New: an empty cache with the given ttl. */
    constructor (ttl: int)
      ensures this.ttl == ttl && entries == map[]
    {
      this.ttl := ttl;
      entries := map[];
    }

    /** Get: answer a fresh entry, else fetch and store a success. */
    method Get(identifier: string, now: int, storedAt: int, reply: Result<Option<Issue>, Error>)
      returns (r: Result<Option<Issue>, Error>, fetched: bool)
      modifies this
      ensures GetOutcome(r, fetched, entries) == GetSpec(old(entries), ttl, identifier, now, storedAt, reply)
    {
      fetched := false;
      if identifier in entries {
        var e := entries[identifier];
        if now - e.fetchedAt < ttl {
          return Success(e.issue), fetched;
        }
      }
      fetched := true;
      if reply.Failure? {
        return Failure(reply.error), fetched;
      }
      entries := entries[identifier := Entry(reply.value, storedAt)];
      return reply, fetched;
    }
  }
}
