/** The token buckets of ratelimiter/ratelimiter.go.  Times are nanoseconds of a clock that never goes back. */
module RateLimiter {
  import opened Wrappers

  const GARBAGE_COLLECT_TIME := 1_000_000_000
  const PACKET_COST := 50_000_000
  const MAX_TOKENS := 250_000_000  // five packets

  type Addr = int

  datatype Entry = Entry(lastTime: int, tokens: int)
  datatype Request = Request(ip: Addr, now: int)

  // ---------------------------------------------------------------------------------------------
  // The limiter that never forgets
  // ---------------------------------------------------------------------------------------------

  /** The bucket of a refilled entry. */
  function Refilled(e: Entry, now: int): int {
    var tokens := e.tokens + (now - e.lastTime);
    if tokens > MAX_TOKENS then MAX_TOKENS else tokens
  }

  /** Whether a bucket, or the lack of one, lets a packet through. */
  predicate Admits(e: Option<Entry>, now: int) {
    e.None? || Refilled(e.value, now) > PACKET_COST
  }

  function After(e: Option<Entry>, now: int): Entry {
    if e.None? then Entry(now, MAX_TOKENS - PACKET_COST)
    else if Admits(e, now) then Entry(now, Refilled(e.value, now) - PACKET_COST)
    else Entry(now, Refilled(e.value, now))
  }

  /** The bucket of an address after all requests so far. */
  function Bucket(log: seq<Request>, ip: Addr): Option<Entry> {
    if log == [] then None
    else
      var before, r := log[..|log| - 1], log[|log| - 1];
      if r.ip == ip then Some(After(Bucket(before, ip), r.now)) else Bucket(before, ip)
  }

  lemma OneMore(log: seq<Request>, r: Request)
    ensures Bucket(log + [r], r.ip) == Some(After(Bucket(log, r.ip), r.now))
    ensures forall a :: a != r.ip ==> Bucket(log + [r], a) == Bucket(log, a)
  {
    assert (log + [r])[..|log|] == log;
  }

  ghost predicate Monotone(log: seq<Request>) {
    forall i, j :: 0 <= i < j < |log| ==> log[i].now <= log[j].now
  }

  lemma {:induction false} BucketBounds(log: seq<Request>, ip: Addr)
    requires Monotone(log)
    ensures Bucket(log, ip).Some? ==>
      0 < Bucket(log, ip).value.tokens <= MAX_TOKENS && log != [] && Bucket(log, ip).value.lastTime <= log[|log| - 1].now
  {
    if log != [] {
      BucketBounds(log[..|log| - 1], ip);
    }
  }

  /** The table stands for the log: what it does not have may be forgotten. */
  ghost predicate Represents(table: map<Addr, Entry>, log: seq<Request>, now: int) {
    && Monotone(log) && (forall i :: 0 <= i < |log| ==> log[i].now <= now)
    && forall ip {:trigger Known(table, log, now, ip)} :: Known(table, log, now, ip)
  }

  ghost predicate Known(table: map<Addr, Entry>, log: seq<Request>, now: int, ip: Addr) {
    if ip in table then Bucket(log, ip) == Some(table[ip]) else Forgettable(Bucket(log, ip), now)
  }

  /** Whether a bucket may be dropped: it would be full again, with more to spare than a packet costs. */
  ghost predicate Forgettable(e: Option<Entry>, now: int) {
    e.Some? ==> now - e.value.lastTime > GARBAGE_COLLECT_TIME
  }

  /** What a request does is the same whether its address is in the table or was forgotten. */
  lemma KnownAt(table: map<Addr, Entry>, log: seq<Request>, now: int, ip: Addr, time: int)
    requires Represents(table, log, now) && now <= time
    ensures ip in table ==> Bucket(log, ip) == Some(table[ip])
    ensures ip !in table ==> Admits(Bucket(log, ip), time) && After(Bucket(log, ip), time) == Entry(time, MAX_TOKENS - PACKET_COST)
  {
    assert Known(table, log, now, ip);
    BucketBounds(log, ip);
  }

  lemma AllowKeeps(table: map<Addr, Entry>, table': map<Addr, Entry>, log: seq<Request>, now: int, r: Request)
    requires Represents(table, log, now) && now <= r.now && table' == table[r.ip := After(Bucket(log, r.ip), r.now)]
    ensures Represents(table', log + [r], r.now)
  {
    OneMore(log, r);
    forall ip
      ensures Known(table', log + [r], r.now, ip)
    {
      assert Known(table, log, now, ip);
    }
  }

  lemma VisitKeeps(table: map<Addr, Entry>, log: seq<Request>, now: int, key: Addr, time: int)
    requires Represents(table, log, now) && now <= time && key in table
    ensures Represents(table, log, time)
    ensures time - table[key].lastTime > GARBAGE_COLLECT_TIME ==> Represents(table - {key}, log, time)
  {
    forall ip
      ensures Known(table, log, time, ip)
      ensures time - table[key].lastTime > GARBAGE_COLLECT_TIME ==> Known(table - {key}, log, time, ip)
    {
      assert Known(table, log, now, ip);
    }
  }

  /** The table after the first k visits. */
  ghost predicate Visited(visits: seq<Request>, k: nat, was: map<Addr, Entry>, table: map<Addr, Entry>)
    requires forall i :: 0 <= i < |visits| ==> visits[i].ip in was
  {
    && (forall ip :: ip in table ==> ip in was && table[ip] == was[ip])
    && (forall i :: k <= i < |visits| ==> visits[i].ip in table)
    && (forall i :: 0 <= i < k && i < |visits| ==>
          (visits[i].ip in table <==> visits[i].now - was[visits[i].ip].lastTime <= GARBAGE_COLLECT_TIME))
  }

  lemma VisitedOneMore(visits: seq<Request>, k: nat, was: map<Addr, Entry>, table: map<Addr, Entry>, table': map<Addr,
                       Entry>)
    requires forall i, j :: 0 <= i < j < |visits| ==> visits[i].ip != visits[j].ip
    requires forall i :: 0 <= i < |visits| ==> visits[i].ip in was
    requires k < |visits| && Visited(visits, k, was, table)
    requires table' == if visits[k].now - table[visits[k].ip].lastTime > GARBAGE_COLLECT_TIME then table - {visits[k].ip}
                       else table
    ensures Visited(visits, k + 1, was, table')
  {
    forall i | 0 <= i < |visits| && i != k
      ensures visits[i].ip != visits[k].ip
    {
    }
  }

  // ---------------------------------------------------------------------------------------------
  // The limiter
  // ---------------------------------------------------------------------------------------------

  class Ratelimiter {
    var table: map<Addr, Entry>
    /** All requests so far, and the last reading of the clock. */
    ghost var log: seq<Request>
    ghost var now: int

    constructor (ghost start: int)
      ensures Valid() && log == [] && now == start
    {
      table := map[];
      log, now := [], start;
    }

    ghost predicate Valid()
      reads this
    {
      Represents(table, log, now)
    }

    /** The answers are those of the limiter that never forgets. */
    method Allow(ip: Addr, time: int) returns (ok: bool)
      requires Valid() && now <= time
      modifies this
      ensures Valid() && log == old(log) + [Request(ip, time)] && now == time
      ensures ok == Admits(Bucket(old(log), ip), time)
    {
      ghost var was := table;
      KnownAt(table, log, now, ip, time);
      var entry := Entry(time, MAX_TOKENS - PACKET_COST);
      ok := true;
      if ip in table {
        entry := table[ip];
        entry := Entry(time, entry.tokens + (time - entry.lastTime));
        if entry.tokens > MAX_TOKENS {
          entry := entry.(tokens := MAX_TOKENS);
        }
        ok := entry.tokens > PACKET_COST;
        if ok {
          entry := entry.(tokens := entry.tokens - PACKET_COST);
        }
      }
      table := table[ip := entry];
      AllowKeeps(was, table, log, now, Request(ip, time));
      log, now := log + [Request(ip, time)], time;
    }

    /** Forgets what has been idle for long.  `visits` is the order in which the table is walked and what the
        clock says at each entry. */
    method Cleanup(visits: seq<Request>) returns (empty: bool)
      requires Valid() && Monotone(visits) && (visits != [] ==> now <= visits[0].now)
      requires forall i, j :: 0 <= i < j < |visits| ==> visits[i].ip != visits[j].ip
      requires forall ip :: ip in table <==> exists i :: 0 <= i < |visits| && visits[i].ip == ip
      modifies this
      ensures Valid() && log == old(log)
      ensures forall ip :: ip in table ==> ip in old(table) && table[ip] == old(table)[ip]
      ensures forall i :: 0 <= i < |visits| ==>
        (visits[i].ip in table <==> visits[i].now - old(table)[visits[i].ip].lastTime <= GARBAGE_COLLECT_TIME)
      ensures empty == (table == map[])
    {
      ghost var was := table;
      for k := 0 to |visits|
        invariant Valid() && log == old(log) && (k < |visits| ==> now <= visits[k].now)
        invariant Visited(visits, k, was, table)
      {
        ghost var before := table;
        Visit(visits[k].ip, visits[k].now);
        VisitedOneMore(visits, k, was, before, table);
      }
      return |table| == 0;
    }

    /** Forgets one address if it has been idle for long. */
    method Visit(key: Addr, time: int)
      requires Valid() && key in table && now <= time
      modifies this
      ensures Valid() && log == old(log) && now == time
      ensures table == if time - old(table)[key].lastTime > GARBAGE_COLLECT_TIME then old(table) - {key} else old(table)
    {
      VisitKeeps(table, log, now, key, time);
      now := time;
      if time - table[key].lastTime > GARBAGE_COLLECT_TIME {
        table := table - {key};
      }
    }
  }

  // ---------------------------------------------------------------------------------------------
  // How many packets get through
  // ---------------------------------------------------------------------------------------------

  /** The requests of an address that are let through, from position i on. */
  function Admitted(log: seq<Request>, ip: Addr, i: nat): nat {
    if |log| <= i then 0
    else
      var before, r := log[..|log| - 1], log[|log| - 1];
      Admitted(before, ip, i) + (if r.ip == ip && Admits(Bucket(before, ip), r.now) then 1 else 0)
  }

  /** In any stretch of requests the packets let through cost less than a full bucket and what comes in
      during the stretch: fewer than 5 + T / 50 ms. */
  lemma {:induction false} WindowBound(log: seq<Request>, ip: Addr, i: nat)
    requires Monotone(log) && i < |log|
    ensures Admitted(log, ip, i) * PACKET_COST < MAX_TOKENS + (log[|log| - 1].now - log[i].now)
  {
    Potential(log, ip, i);
    BucketBounds(log, ip);
  }

  lemma {:induction false} Potential(log: seq<Request>, ip: Addr, i: nat)
    requires Monotone(log) && i < |log|
    ensures var b := Bucket(log, ip);
      if b.None? then Admitted(log, ip, i) == 0
      else Admitted(log, ip, i) * PACKET_COST + b.value.tokens
           <= MAX_TOKENS + (if Admitted(log, ip, i) == 0 then 0 else b.value.lastTime - log[i].now)
  {
    var before := log[..|log| - 1];
    BucketBounds(before, ip);
    BucketBounds(log, ip);
    if |before| > i {
      Potential(before, ip, i);
    }
  }

  /** The most packets that a stretch of `length` nanoseconds can let through. */
  function Most(length: nat): (n: nat)
    ensures n * PACKET_COST < MAX_TOKENS + length <= (n + 1) * PACKET_COST
  {
    (MAX_TOKENS + length - 1) / PACKET_COST
  }

  lemma NeverMore(log: seq<Request>, ip: Addr, i: nat)
    requires Monotone(log) && i < |log|
    ensures Admitted(log, ip, i) <= Most(log[|log| - 1].now - log[i].now)
  {
    WindowBound(log, ip, i);
  }

  /** The last request of the address, from position i on, found or left a full bucket, and since then the bucket holds
      what came in less what was paid. */
  ghost predicate FullSince(log: seq<Request>, ip: Addr, i: nat) {
    && i < |log| && Bucket(log, ip).Some?
    && var e := Bucket(log, ip).value;
       e.tokens == MAX_TOKENS + (e.lastTime - log[i].now) - Admitted(log, ip, i) * PACKET_COST
  }

  lemma {:induction false} LastFull(log: seq<Request>, ip: Addr) returns (i: nat)
    requires Monotone(log) && Bucket(log, ip).Some?
    ensures FullSince(log, ip, i)
  {
    var m := |log| - 1;
    var before, r := log[..m], log[m];
    if r.ip != ip {
      i := LastFull(before, ip);
    } else if Bucket(before, ip).None? || Refilled(Bucket(before, ip).value, r.now) == MAX_TOKENS {
      i := m;
      assert Admitted(before, ip, m) == 0;
    } else {
      i := LastFull(before, ip);
    }
  }

  /** A request is refused exactly if some stretch of the log is full: letting it through would break the bound. */
  lemma RefusedExactly(log: seq<Request>, r: Request)
    requires Monotone(log) && (log != [] ==> log[|log| - 1].now <= r.now)
    ensures !Admits(Bucket(log, r.ip), r.now)
       <==> exists i: nat :: i < |log| && (Admitted(log, r.ip, i) + 1) * PACKET_COST >= MAX_TOKENS + (r.now - log[i].now)
  {
    if !Admits(Bucket(log, r.ip), r.now) {
      var i := LastFull(log, r.ip);
      assert (Admitted(log, r.ip, i) + 1) * PACKET_COST >= MAX_TOKENS + (r.now - log[i].now);
    } else if i: nat :|
      i < |log| && (Admitted(log, r.ip, i) + 1) * PACKET_COST >= MAX_TOKENS + (r.now - log[i].now) {
      var next := log + [r];
      assert next[..|log|] == log;
      assert Monotone(next);
      WindowBound(next, r.ip, i);
    }
  }

  /** Four requests at once, and then one each time that the bucket holds a nanosecond more than a packet costs. */
  function Greedy(n: nat): seq<Request> {
    seq(n, i requires 0 <= i < n => Request(0, GreedyTime(i)))
  }

  function GreedyTime(i: nat): nat {
    if i < 4 then 0 else 1 + (i - 4) * PACKET_COST
  }

  lemma {:induction false} GreedyAdmitted(n: nat)
    requires n > 0
    ensures Admitted(Greedy(n), 0, 0) == n
    ensures Bucket(Greedy(n), 0) == Some(Entry(GreedyTime(n - 1), if n <= 4 then MAX_TOKENS - n * PACKET_COST else 1))
  {
    assert Greedy(n)[..n - 1] == Greedy(n - 1);
    if n > 1 {
      GreedyAdmitted(n - 1);
    }
  }

  /** For stretches of every length the bound is met; at one instant it is four packets, not five, because a
      packet must leave something in the bucket. */
  lemma BoundIsMet(length: nat)
    ensures var log := Greedy(Most(length));
      && log != [] && Monotone(log) && log[|log| - 1].now - log[0].now <= length
      && Admitted(log, 0, 0) == Most(length)
    ensures Most(0) == 4 && Most(1) == 5
  {
    GreedyAdmitted(Most(length));
    forall i, j | 0 <= i < j < Most(length)
      ensures GreedyTime(i) <= GreedyTime(j)
    {
    }
  }
}
