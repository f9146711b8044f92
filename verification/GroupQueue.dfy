/**
 * One cache group's queue in the database executor: a bounded FIFO threaded through the units
 * themselves. The value `Queue` says what the list holds; the class `Group` is the list with its
 * head, tail and count, and every locked section of it is proved to be the matching function.
 */
module GroupQueue {

  datatype Status = Ok | QueueFull | ParkRefused

  /** A unit as it stands in a queue, with the reading of the clock taken when it was put there. */
  datatype Entry<+U> = Entry(unit: U, at: nat)

  datatype Queue<+U> = Queue(entries: seq<Entry<U>>, capacity: nat, stopping: bool)

  // ----- what the locked sections do to the value -----

  function Accepts<U>(q: Queue<U>): bool {
    !q.stopping && |q.entries| < q.capacity
  }

  /** `park` is the answer of the caller's hook, which runs under the lock before queueing. */
  function Offer<U>(q: Queue<U>, u: U, at: nat, park: bool): Queue<U> {
    if Accepts(q) && park then q.(entries := q.entries + [Entry(u, at)]) else q
  }

  function OfferStatus<U>(q: Queue<U>, park: bool): Status {
    if !Accepts(q) then QueueFull else if !park then ParkRefused else Ok
  }

  predicate Expired<U>(e: Entry<U>, now: nat, limit: nat) {
    now > e.at && now - e.at > limit
  }

  /** How many entries the sweeper's loop takes off the front. */
  function ExpiredPrefix<U>(es: seq<Entry<U>>, now: nat, limit: nat): (k: nat)
    ensures k <= |es|
    ensures forall i | 0 <= i < k :: Expired(es[i], now, limit)
    ensures k < |es| ==> !Expired(es[k], now, limit)
  {
    if es != [] && Expired(es[0], now, limit) then 1 + ExpiredPrefix(es[1..], now, limit) else 0
  }

  /** A submission is queued, last, exactly if there is room, the group is not stopping and the caller could park. */
  lemma OfferIff<U>(q: Queue<U>, u: U, at: nat, park: bool)
    ensures Offer(q, u, at, park).entries == q.entries + if |q.entries| < q.capacity && !q.stopping && park then [Entry(u, at)] else []
    ensures OfferStatus(q, park) == Ok <==> |q.entries| < q.capacity && !q.stopping && park
    ensures OfferStatus(q, park) == QueueFull <==> |q.entries| >= q.capacity || q.stopping
  {
  }

  // ----- the order that makes stopping at the first unexpired entry right -----

  ghost predicate InOrder<U>(es: seq<Entry<U>>) {
    forall i, j | 0 <= i < j < |es| :: es[i].at <= es[j].at
  }

  function Keep<U>(es: seq<Entry<U>>, now: nat, limit: nat, expired: bool): seq<Entry<U>> {
    if es == [] then []
    else (if Expired(es[0], now, limit) == expired then [es[0]] else [])
         + Keep(es[1..], now, limit, expired)
  }

  lemma {:induction false} KeepAll<U>(es: seq<Entry<U>>, now: nat, limit: nat, expired: bool)
    requires forall i | 0 <= i < |es| :: Expired(es[i], now, limit) == expired
    ensures Keep(es, now, limit, expired) == es
    ensures Keep(es, now, limit, !expired) == []
  {
    if es != [] {
      KeepAll(es[1..], now, limit, expired);
    }
  }

  lemma BehindFirst<T>(es: seq<T>, k: nat)
    requires 0 < k <= |es|
    ensures es[..k] == [es[0]] + es[1..][..k - 1] && es[k..] == es[1..][k - 1..]
  {
  }

  lemma InOrderBehind<U>(es: seq<Entry<U>>, now: nat, limit: nat)
    requires es != [] && InOrder(es)
    ensures InOrder(es[1..])
    ensures !Expired(es[0], now, limit) ==> forall i | 0 <= i < |es| :: !Expired(es[i], now, limit)
  {
  }

  /** One sweep takes exactly the units that have waited longer than the limit, and no others. */
  lemma {:induction false} SweepIsFilter<U>(es: seq<Entry<U>>, now: nat, limit: nat)
    requires InOrder(es)
    ensures es[..ExpiredPrefix(es, now, limit)] == Keep(es, now, limit, true)
    ensures es[ExpiredPrefix(es, now, limit)..] == Keep(es, now, limit, false)
    decreases |es|
  {
    hide InOrder, Expired;
    var k := ExpiredPrefix(es, now, limit);
    if es != [] {
      InOrderBehind(es, now, limit);
      if Expired(es[0], now, limit) {
        SweepIsFilter(es[1..], now, limit);
        BehindFirst(es, k);
      } else {
        KeepAll(es, now, limit, false);
      }
    }
  }

  // ----- the intrusive list -----

  class Unit {
    var next: Unit?
    var queuedNs: nat
    constructor () {
      next := null;
      queuedNs := 0;
    }
  }

  ghost predicate Distinct(units: seq<Unit>) {
    forall i, j | 0 <= i < j < |units| :: units[i] != units[j]
  }

  /** `head` leads through `next` over exactly `units` and the last of them ends the list. */
  ghost predicate Linked(head: Unit?, units: seq<Unit>)
    reads units
  {
    && (head == null <==> |units| == 0)
    && (|units| > 0 ==> head == units[0] && units[|units| - 1].next == null)
    && (forall i, j | 0 <= i && i + 1 == j < |units| :: units[i].next == units[j])
    && Distinct(units)
  }

  class Group {
    var head: Unit?
    var tail: Unit?
    var count: nat
    const capacity: nat
    var idle: nat
    var stopping: bool
    ghost var units: seq<Unit>
    ghost var entries: seq<Entry<Unit>>

    ghost predicate Valid()
      reads this, units
    {
      && count == |units| == |entries| <= capacity
      && (forall i | 0 <= i < |units| :: entries[i].unit == units[i] && entries[i].at == units[i].queuedNs)
      && Linked(head, units)
      && tail == (if units == [] then null else units[|units| - 1])
    }

    ghost function Contents(): Queue<Unit>
      reads this
    {
      Queue(entries, capacity, stopping)
    }

    constructor (capacity: nat)
      ensures Valid() && Contents() == Queue([], capacity, false) && idle == 0
    {
      head, tail, count, idle, stopping := null, null, 0, 0, false;
      this.capacity := capacity;
      units, entries := [], [];
    }

    /** The locked half of submitting. `signal` is whether the condition variable is signalled. */
    method Submit(unit: Unit, now: nat, park: bool) returns (status: Status, signal: bool)
      requires Valid() && unit !in units
      modifies this, unit, units
      ensures Valid() && idle == old(idle)
      ensures Contents() == Offer(old(Contents()), unit, now, park)
      ensures status == OfferStatus(old(Contents()), park)
      ensures units == old(units) + if status == Ok then [unit] else []
      ensures signal <==> status == Ok && idle != 0
    {
      unit.next := null;
      if stopping || count >= capacity {
        return QueueFull, false;
      }
      if !park {
        return ParkRefused, false;
      }
      unit.queuedNs := now;
      if tail != null {
        tail.next := unit;
      } else {
        head := unit;
      }
      tail := unit;
      count := count + 1;
      units, entries := units + [unit], entries + [Entry(unit, now)];
      return Ok, idle != 0;
    }

    /** The locked half of a worker that found the queue not empty: the oldest unit leaves. */
    method Take() returns (unit: Unit)
      requires Valid() && head != null
      modifies this, head
      ensures Valid() && idle == old(idle) && stopping == old(stopping)
      ensures old(units) != [] && unit == old(units)[0] && units == old(units)[1..] && unit.next == null
      ensures unit.queuedNs == old(unit.queuedNs)
      ensures Contents() == old(Contents()).(entries := old(Contents()).entries[1..])
    {
      unit := head;
      assert |units| > 1 ==> unit.next == units[1];
      head := unit.next;
      if head == null {
        tail := null;
      }
      count := count - 1;
      units, entries := units[1..], entries[1..];
      unit.next := null;
    }

    /** The sweeper's locked loop: the expired units leave, oldest first. */
    method Sweep(now: nat, limit: nat) returns (expired: seq<Unit>)
      requires Valid()
      modifies this, units
      ensures Valid() && idle == old(idle)
      ensures |expired| == ExpiredPrefix(old(entries), now, limit)
      ensures old(units) == expired + units
      ensures Contents() == old(Contents()).(entries := old(entries)[|expired|..])
    {
      hide ExpiredPrefix, Valid;
      expired := [];
      ghost var all, es, gone := units, entries, [];
      Ends();
      while head != null && now > head.queuedNs && now - head.queuedNs > limit
        invariant Valid() && idle == old(idle) && stopping == old(stopping)
        invariant all == expired + units && es == gone + entries && |gone| == |expired|
        invariant forall i | 0 <= i < |gone| :: Expired(gone[i], now, limit)
        decreases |units|
      {
        Ends();
        FirstOver(expired, units);
        FirstOver(gone, entries);
        gone := gone + [entries[0]];
        assert head == all[|expired|];
        var unit := Take();
        expired := expired + [unit];
      }
      Ends();
      PrefixIs(es, now, limit, |gone|);
    }

    /** What `head` says of the first unit. */
    lemma Ends()
      requires Valid()
      ensures |units| == |entries| && (head == null <==> units == [])
      ensures head != null ==> head == units[0] && entries[0] == Entry(head, head.queuedNs)
    {
    }
  }

  lemma FirstOver<T>(a: seq<T>, b: seq<T>)
    requires b != []
    ensures a + b == (a + [b[0]]) + b[1..]
  {
  }

  lemma {:induction false} PrefixIs<U>(es: seq<Entry<U>>, now: nat, limit: nat, k: nat)
    requires k <= |es|
    requires forall i | 0 <= i < k :: Expired(es[i], now, limit)
    requires k < |es| ==> !Expired(es[k], now, limit)
    ensures ExpiredPrefix(es, now, limit) == k
  {
    if k > 0 {
      PrefixIs(es[1..], now, limit, k - 1);
    }
  }
}
