/** The per-agent admission-ticket cache: one ticket, stale at 80% of its time to live. */
module TicketCaches {
  import opened Bytes

  type Ticket = bytes

  datatype Cache = Cache(ticket: Option<Ticket>, refreshAtMs: int)

  const EMPTY := Cache(None, 0)

  function Get(c: Cache, nowMs: int): (r: Option<Ticket>) {
    if c.ticket.Some? && nowMs < c.refreshAtMs then c.ticket else None
  }

  /** What `store` leaves behind; an already-expired or empty ticket empties the cache. */
  function Store(ticket: Ticket, expiresAtMs: int, nowMs: int): (r: Cache) {
    var ttlMs := expiresAtMs - nowMs;
    if ttlMs <= 0 || ticket == [] then EMPTY
    else Cache(Some(ticket), nowMs + ttlMs * 8 / 10)
  }

  /** A stored ticket is handed out from the moment it is stored until four fifths of its life are
      over, and so never at or after its expiry; one that cannot be used is never handed out. */
  lemma StoredTicketWindow(ticket: Ticket, expiresAtMs: int, storedAtMs: int, nowMs: int)
    requires storedAtMs <= nowMs
    ensures Get(Store(ticket, expiresAtMs, storedAtMs), nowMs) ==
            if ticket != [] && 10 * (nowMs - storedAtMs + 1) <= 8 * (expiresAtMs - storedAtMs) then Some(ticket) else None
    ensures Get(Store(ticket, expiresAtMs, storedAtMs), nowMs).Some? ==> nowMs < expiresAtMs
  {
    var ttl := expiresAtMs - storedAtMs;
    if ttl > 0 && ticket != [] {
      assert nowMs < storedAtMs + ttl * 8 / 10 <==> nowMs - storedAtMs + 1 <= ttl * 8 / 10;
    }
  }

  /** A clock that only moves forward never brings a stale ticket back. */
  lemma StaleStaysStale(c: Cache, t: Ticket, nowMs: int, laterMs: int)
    requires nowMs <= laterMs && Get(c, nowMs) != Some(t)
    ensures Get(c, laterMs) != Some(t)
  {
  }

  /** The cache object: its two fields are updated in place by `store` and `invalidate`. */
  class TicketCache {
    var ticket: Option<Ticket>
    var refreshAtMs: int

    constructor ()
      ensures Value() == EMPTY
    {
      ticket, refreshAtMs := None, 0;
    }

    function Value(): (c: Cache)
      reads this
    {
      Cache(ticket, refreshAtMs)
    }

    method GetTicket(nowMs: int) returns (r: Option<Ticket>)
      ensures r == Get(Value(), nowMs)
    {
      if ticket.Some? && nowMs < refreshAtMs {
        return ticket;
      }
      return None;
    }

    method Invalidate()
      modifies this
      ensures Value() == EMPTY
    {
      ticket := None;
      refreshAtMs := 0;
    }

    method StoreTicket(newTicket: Ticket, expiresAtMs: int, nowMs: int)
      modifies this
      ensures Value() == Store(newTicket, expiresAtMs, nowMs)
    {
      var ttlMs := expiresAtMs - nowMs;
      if ttlMs <= 0 || newTicket == [] {
        Invalidate();
        return;
      }
      ticket := Some(newTicket);
      refreshAtMs := nowMs + ttlMs * 8 / 10;
    }

    /** Adopt-if-different: keep a fresh ticket other than the failed one, else drop what is cached. */
    method AdoptOrDrop(failed: Ticket, nowMs: int) returns (adopted: Option<Ticket>)
      modifies this
      ensures adopted == (if old(Get(Value(), nowMs)) == Some(failed) then None else old(Get(Value(), nowMs)))
      ensures adopted.Some? ==> Value() == old(Value())
      ensures adopted.None? ==> Value() == EMPTY
    {
      var current := GetTicket(nowMs);
      if current.Some? && current.value != failed {
        return current;
      }
      Invalidate();
      return None;
    }

    /** Compare-and-invalidate: only the failed ticket is ever dropped. */
    method ForgetIf(failed: Ticket, nowMs: int)
      modifies this
      ensures Value() == if old(Get(Value(), nowMs)) == Some(failed) then EMPTY else old(Value())
    {
      var current := GetTicket(nowMs);
      if current == Some(failed) {
        Invalidate();
      }
    }
  }
}
