/**
 * The session cache: a table of bounded probes whose entries are reference counted. This module has
 * the table itself -- what a lookup finds, which slot an insertion takes -- and the class that walks
 * it; `CacheRuns` has the interleavings.
 */
module Cache {
  import opened Options
  import opened Arith

  type Id = nat

  /** The bytes of a key. */
  type Key = string

  datatype Entry = Entry(key: Key, created: int, value: nat)

  /** `capacity` is a power of two, so masking a hash is taking its remainder. */
  datatype Config = Config(capacity: nat, probe: nat, timeout: int)

  predicate Sound(c: Config) {
    0 < c.probe <= c.capacity
  }

  /** The `i`-th slot of the window of hash `h`: 64-bit addition, cut to 32 bits, masked. */
  function SlotAt(c: Config, h: nat, i: nat): (slot: nat)
    requires c.capacity > 0
    ensures slot < c.capacity
  {
    (h + i) % 0x1_0000_0000_0000_0000 % 0x1_0000_0000 % c.capacity
  }

  ghost predicate InWindow(c: Config, h: nat, slot: nat)
    requires c.capacity > 0
  {
    exists i :: 0 <= i < c.probe && SlotAt(c, h, i) == slot
  }

  type Slots = seq<Option<Id>>

  ghost predicate Shape(c: Config, slots: Slots, entries: map<Id, Entry>) {
    && Sound(c) && |slots| == c.capacity
    && (forall j | 0 <= j < |slots| && slots[j].Some? :: slots[j].value in entries)
  }

  predicate ExpiredAt(c: Config, e: Entry, now: int) {
    c.timeout > 0 && now - e.created >= c.timeout
  }

  predicate HasKey(slots: Slots, entries: map<Id, Entry>, slot: nat, key: Key) {
    slot < |slots| && slots[slot].Some? && slots[slot].value in entries && entries[slots[slot].value].key == key
  }

  // ----- looking up -----

  function Find(c: Config, h: nat, slots: Slots, entries: map<Id, Entry>, key: Key, now: int, i: nat): Option<Id>
    requires Shape(c, slots, entries) && i <= c.probe
    decreases c.probe - i
  {
    if i == c.probe then None
    else
      var slot := SlotAt(c, h, i);
      if !HasKey(slots, entries, slot, key) then Find(c, h, slots, entries, key, now, i + 1)
      else if ExpiredAt(c, entries[slots[slot].value], now) then None
      else slots[slot]
  }

  // ----- choosing a victim -----

  /** 0 the same key, 1 free, 2 expired, 3 unused, 4 in use. `busy` is what the reference count was
      seen to say, which other threads may change at any time. */
  function Rank(c: Config, slots: Slots, entries: map<Id, Entry>, key: Key, now: int, slot: nat, busy: bool): nat
    requires Shape(c, slots, entries) && slot < |slots|
  {
    if HasKey(slots, entries, slot, key) then 0
    else if slots[slot].None? then 1
    else if ExpiredAt(c, entries[slots[slot].value], now) then 2
    else if !busy then 3
    else 4
  }

  ghost predicate SameKeyIn(c: Config, h: nat, slots: Slots, entries: map<Id, Entry>, key: Key, upTo: nat)
    requires Sound(c)
  {
    exists i :: 0 <= i < upTo && HasKey(slots, entries, SlotAt(c, h, i), key)
  }

  /** The slot the insertion's walk ends on, continued from its `i`-th step. */
  function Walk(c: Config, h: nat, slots: Slots, entries: map<Id, Entry>, key: Key, now: int,
                         busy: nat -> bool, i: nat, victim: nat, rank: nat): nat
    requires Shape(c, slots, entries) && i <= c.probe
    decreases c.probe - i
  {
    if i == c.probe then victim
    else
      var slot := SlotAt(c, h, i);
      var r := Rank(c, slots, entries, key, now, slot, busy(i));
      if r == 0 then (if r < rank then slot else victim)
      else if r < rank then Walk(c, h, slots, entries, key, now, busy, i + 1, slot, r)
      else Walk(c, h, slots, entries, key, now, busy, i + 1, victim, rank)
  }

  function Victim(c: Config, h: nat, slots: Slots, entries: map<Id, Entry>, key: Key, now: int, busy: nat -> bool): nat
    requires Shape(c, slots, entries)
  {
    Walk(c, h, slots, entries, key, now, busy, 0, SlotAt(c, h, 0), 4)
  }

  /** `v` is the first of the window's best: nothing in the window ranks better, nothing before it as well. */
  ghost predicate BestOfWindow(c: Config, h: nat, slots: Slots, entries: map<Id, Entry>, key: Key, now: int,
                                        busy: nat -> bool, v: nat)
    requires Shape(c, slots, entries)
  {
    exists k :: 0 <= k < c.probe && v == SlotAt(c, h, k)
      && (forall i | 0 <= i < c.probe && (SameKeyIn(c, h, slots, entries, key, c.probe) ==> i <= k) ::
            var r, b := Rank(c, slots, entries, key, now, SlotAt(c, h, i), busy(i)), Rank(c, slots, entries, key, now, SlotAt(c, h, k), busy(k));
            b <= r && (i < k ==> b < r))
      && (SameKeyIn(c, h, slots, entries, key, c.probe) ==> HasKey(slots, entries, SlotAt(c, h, k), key))
  }

  /** What the walk knows after `i` steps: its victim is the first best of the slots it has seen. */
  ghost predicate BestSoFar(c: Config, h: nat, slots: Slots, entries: map<Id, Entry>, key: Key, now: int,
                                     busy: nat -> bool, i: nat, k: nat, victim: nat, rank: nat)
    requires Shape(c, slots, entries)
  {
    && k < c.probe && victim == SlotAt(c, h, k) && 0 < rank <= 4 && (k < i || (k == 0 && rank == 4))
    && (rank < 4 ==> k < i)
    && (i > 0 ==> rank == Rank(c, slots, entries, key, now, SlotAt(c, h, k), busy(k)))
    && (forall j | 0 <= j < i ::
          var r := Rank(c, slots, entries, key, now, SlotAt(c, h, j), busy(j));
          rank <= r && (j < k ==> rank < r))
  }

  lemma RankZero(c: Config, slots: Slots, entries: map<Id, Entry>, key: Key, now: int, slot: nat, busy: bool)
    requires Shape(c, slots, entries) && slot < |slots|
    ensures Rank(c, slots, entries, key, now, slot, busy) == 0 <==> HasKey(slots, entries, slot, key)
    ensures Rank(c, slots, entries, key, now, slot, busy) <= 4
  {
  }

  lemma {:induction false} WalkEnds(c: Config, h: nat, slots: Slots, entries: map<Id, Entry>, key: Key, now: int,
                         busy: nat -> bool, i: nat, k: nat, victim: nat, rank: nat)
    requires Shape(c, slots, entries) && i <= c.probe && BestSoFar(c, h, slots, entries, key, now, busy, i, k, victim, rank)
    ensures BestOfWindow(c, h, slots, entries, key, now, busy, Walk(c, h, slots, entries, key, now, busy, i, victim, rank))
    decreases c.probe - i
  {
    hide Rank, HasKey, SlotAt;
    if i == c.probe {
      forall j | 0 <= j < c.probe
        ensures !HasKey(slots, entries, SlotAt(c, h, j), key)
      {
        RankZero(c, slots, entries, key, now, SlotAt(c, h, j), busy(j));
      }
    } else {
      var slot := SlotAt(c, h, i);
      var r := Rank(c, slots, entries, key, now, slot, busy(i));
      RankZero(c, slots, entries, key, now, slot, busy(i));
      if r == 0 {
        assert SameKeyIn(c, h, slots, entries, key, c.probe);
        assert slot == SlotAt(c, h, i);
      } else if r < rank {
        WalkEnds(c, h, slots, entries, key, now, busy, i + 1, i, slot, r);
      } else {
        WalkEnds(c, h, slots, entries, key, now, busy, i + 1, k, victim, rank);
      }
    }
  }

  lemma VictimIsBest(c: Config, h: nat, slots: Slots, entries: map<Id, Entry>, key: Key, now: int, busy: nat -> bool)
    requires Shape(c, slots, entries)
    ensures BestOfWindow(c, h, slots, entries, key, now, busy, Victim(c, h, slots, entries, key, now, busy))
  {
    WalkEnds(c, h, slots, entries, key, now, busy, 0, 0, SlotAt(c, h, 0), 4);
  }

  /** A timeout of zero or less is none. */
  predicate Outlived(c: Config, e: Entry, now: int) {
    c.timeout > 0 && now >= e.created + c.timeout
  }

  ghost predicate FreeSlot(c: Config, h: nat, slots: Slots, i: nat)
    requires Sound(c) && |slots| == c.capacity
  {
    slots[SlotAt(c, h, i)] == None
  }

  ghost predicate OldSlot(c: Config, h: nat, slots: Slots, entries: map<Id, Entry>, now: int, i: nat)
    requires Shape(c, slots, entries)
  {
    slots[SlotAt(c, h, i)].Some? && Outlived(c, entries[slots[SlotAt(c, h, i)].value], now)
  }

  /**
   * Whom an insertion displaces, `k` being the place of the victim in the window: the old entry of its key
   * if the window has one; otherwise an entry only if no slot is free, one that has not outlived its time
   * only if none has, and one in use only if all are, and then the first.
   */
  ghost predicate Polite(c: Config, h: nat, slots: Slots, entries: map<Id, Entry>, key: Key, now: int, busy: nat -> bool, k: nat)
    requires Shape(c, slots, entries)
  {
    if SameKeyIn(c, h, slots, entries, key, c.probe) then HasKey(slots, entries, SlotAt(c, h, k), key)
    else
      && (!FreeSlot(c, h, slots, k) ==> forall i | 0 <= i < c.probe :: !FreeSlot(c, h, slots, i))
      && (!FreeSlot(c, h, slots, k) && !OldSlot(c, h, slots, entries, now, k) ==>
            forall i | 0 <= i < c.probe :: !OldSlot(c, h, slots, entries, now, i))
      && (!FreeSlot(c, h, slots, k) && !OldSlot(c, h, slots, entries, now, k) && busy(k) ==>
            k == 0 && forall i | 0 <= i < c.probe :: busy(i))
  }

  lemma RankTells(c: Config, h: nat, slots: Slots, entries: map<Id, Entry>, key: Key, now: int, busy: bool, i: nat)
    requires Shape(c, slots, entries) && !HasKey(slots, entries, SlotAt(c, h, i), key)
    ensures Rank(c, slots, entries, key, now, SlotAt(c, h, i), busy) ==
            if FreeSlot(c, h, slots, i) then 1 else if OldSlot(c, h, slots, entries, now, i) then 2 else if busy then 4 else 3
  {
    hide SlotAt;
  }

  lemma BestIsPolite(c: Config, h: nat, slots: Slots, entries: map<Id, Entry>, key: Key, now: int, busy: nat -> bool, k: nat)
    requires Shape(c, slots, entries) && k < c.probe && !SameKeyIn(c, h, slots, entries, key, c.probe)
    requires forall i | 0 <= i < c.probe ::
               var r, b := Rank(c, slots, entries, key, now, SlotAt(c, h, i), busy(i)), Rank(c, slots, entries, key, now, SlotAt(c, h, k), busy(k));
               b <= r && (i < k ==> b < r)
    ensures Polite(c, h, slots, entries, key, now, busy, k)
  {
    forall i | 0 <= i < c.probe
      ensures Rank(c, slots, entries, key, now, SlotAt(c, h, i), busy(i)) ==
              if FreeSlot(c, h, slots, i) then 1 else if OldSlot(c, h, slots, entries, now, i) then 2 else if busy(i) then 4 else 3
    {
      assert !HasKey(slots, entries, SlotAt(c, h, i), key);
      RankTells(c, h, slots, entries, key, now, busy(i), i);
    }
    hide SlotAt, Rank, HasKey, FreeSlot, OldSlot, SameKeyIn;
    assert k > 0 ==> Rank(c, slots, entries, key, now, SlotAt(c, h, k), busy(k)) < Rank(c, slots, entries, key, now, SlotAt(c, h, 0), busy(0));
  }

  /** Insertion is polite, whatever the reference counts were seen to say. */
  lemma VictimIsPolite(c: Config, h: nat, slots: Slots, entries: map<Id, Entry>, key: Key, now: int, busy: nat -> bool) returns (k: nat)
    requires Shape(c, slots, entries)
    ensures k < c.probe && Victim(c, h, slots, entries, key, now, busy) == SlotAt(c, h, k)
    ensures Polite(c, h, slots, entries, key, now, busy, k)
  {
    VictimIsBest(c, h, slots, entries, key, now, busy);
    hide SlotAt, Rank, HasKey, FreeSlot, OldSlot, Victim, SameKeyIn;
    var v := Victim(c, h, slots, entries, key, now, busy);
    k :| 0 <= k < c.probe && v == SlotAt(c, h, k)
      && (forall i | 0 <= i < c.probe && (SameKeyIn(c, h, slots, entries, key, c.probe) ==> i <= k) ::
            var r, b := Rank(c, slots, entries, key, now, SlotAt(c, h, i), busy(i)), Rank(c, slots, entries, key, now, SlotAt(c, h, k), busy(k));
            b <= r && (i < k ==> b < r))
      && (SameKeyIn(c, h, slots, entries, key, c.probe) ==> HasKey(slots, entries, SlotAt(c, h, k), key));
    if !SameKeyIn(c, h, slots, entries, key, c.probe) {
      BestIsPolite(c, h, slots, entries, key, now, busy, k);
    }
  }

  lemma ModMod(x: nat, m: nat, q: nat)
    requires m > 0 && q > 0
    ensures m * q > 0 && (x % (m * q)) % m == x % m
  {
    MulMono(1, q, m);
    var n, r := x / (m * q), x % (m * q);
    Remainder(x, m * q);
    Remainder(r, m);
    Exchange(m, q, n);
    Distribute(m, q * n, r / m);
    assert x == (q * n + r / m) * m + r % m;
    Divides(q * n + r / m, r % m, m);
  }

  lemma RemainderIs(x: nat, q: nat, r: nat, m: nat)
    requires r < m && x == q * m + r
    ensures x % m == r
  {
    Divides(q, r, m);
  }

  lemma DifferentRemainders(x: nat, d: nat, m: nat)
    requires 0 < d < m
    ensures x % m != (x + d) % m
  {
    Remainder(x, m);
    var q, r := x / m, x % m;
    assert q * m == m * q;
    if r + d < m {
      RemainderIs(x + d, q, r + d, m);
    } else {
      assert (q + 1) * m == q * m + m;
      RemainderIs(x + d, q + 1, r + d - m, m);
    }
  }

  /** For a capacity that is a power of two the window is a row of different slots, from where the hash points to. */
  lemma WindowIsARow(c: Config, h: nat, q: nat, i: nat, j: nat)
    requires Sound(c) && c.capacity * q == 0x1_0000_0000 && i < j < c.probe
    ensures SlotAt(c, h, i) == (h + i) % c.capacity && SlotAt(c, h, i) != SlotAt(c, h, j)
  {
    Row(c, h, q, i);
    Row(c, h, q, j);
    hide SlotAt;
    DifferentRemainders(h + i, j - i, c.capacity);
  }

  lemma Row(c: Config, h: nat, q: nat, i: nat)
    requires Sound(c) && c.capacity * q == 0x1_0000_0000
    ensures SlotAt(c, h, i) == (h + i) % c.capacity
  {
    var x := h + i;
    assert 0x1_0000_0000 * 0x1_0000_0000 == 0x1_0000_0000_0000_0000;
    ModMod(x, 0x1_0000_0000, 0x1_0000_0000);
    ModMod(x, c.capacity, q);
  }

  // ----- the table in memory -----

  /** What the reference counts say of the occupants of a window, if nobody changes them meanwhile. */
  function BusyAs(c: Config, h: nat, slots: Slots, refs: map<Id, int>): nat -> bool
    requires c.capacity > 0 && |slots| == c.capacity
  {
    (i: nat) =>
      var o := slots[SlotAt(c, h, i)];
      o.Some? && o.value in refs && refs[o.value] > 1
  }

  class Table {
    const c: Config
    const slots: array<Option<Id>>
    var entries: map<Id, Entry>
    var refs: map<Id, int>

    ghost predicate Valid()
      reads this, slots
    {
      Shape(c, slots[..], entries) && entries.Keys <= refs.Keys
    }

    constructor (c: Config)
      requires Sound(c)
      ensures Valid() && this.c == c && fresh(slots) && entries == map[]
      ensures forall j | 0 <= j < c.capacity :: slots[j] == None
    {
      this.c := c;
      slots := new Option<Id>[c.capacity](_ => None);
      entries, refs := map[], map[];
    }

    /** The walk under the shared lock; a hit counts one reference for the caller before the lock is let go. */
    method Get(h: nat, key: Key, now: int) returns (found: Option<Id>)
      requires Valid()
      modifies this`refs
      ensures Valid()
      ensures found == Find(c, h, slots[..], entries, key, now, 0)
      ensures found.None? ==> refs == old(refs)
      ensures found.Some? ==> found.value in old(refs) && refs == old(refs)[found.value := old(refs)[found.value] + 1]
    {
      var i := 0;
      found := None;
      while i < c.probe
        invariant 0 <= i <= c.probe && found == None && refs == old(refs)
        invariant Find(c, h, slots[..], entries, key, now, 0) == Find(c, h, slots[..], entries, key, now, i)
      {
        var entry := slots[SlotAt(c, h, i)];
        if entry.None? || entries[entry.value].key != key {
          i := i + 1;
          continue;
        }
        if ExpiredAt(c, entries[entry.value], now) {
          break;
        }
        refs := refs[entry.value := refs[entry.value] + 1];
        return entry;
      }
    }

    /** How good a victim the occupant of a slot is. */
    method RankOf(slot: nat, key: Key, now: int) returns (r: nat)
      requires Valid() && slot < c.capacity
      ensures var o := slots[slot];
              r == Rank(c, slots[..], entries, key, now, slot, o.Some? && o.value in refs && refs[o.value] > 1)
    {
      var occupant := slots[slot];
      if occupant.Some? && entries[occupant.value].key == key {
        return 0;
      }
      if occupant.None? {
        return 1;
      }
      if ExpiredAt(c, entries[occupant.value], now) {
        return 2;
      }
      return if refs[occupant.value] <= 1 then 3 else 4;
    }

    /** The walk under the exclusive lock, with the new entry `id` counted for the table and for the caller. */
    method Put(h: nat, key: Key, now: int, id: Id, value: nat) returns (displaced: Option<Id>, ghost victim: nat)
      requires Valid() && id !in entries
      modifies this`entries, this`refs, slots
      ensures Valid()
      ensures entries == old(entries)[id := Entry(key, now, value)] && refs == old(refs)[id := 2]
      ensures victim < c.capacity && displaced == old(slots[victim]) && slots[..] == old(slots[..])[victim := Some(id)]
      ensures victim == Victim(c, h, old(slots[..]), old(entries), key, now, BusyAs(c, h, old(slots[..]), old(refs)))
    {
      hide Rank, SlotAt;
      var at := SlotAt(c, h, 0);
      var rank := 4;
      var i := 0;
      ghost var all, known, counts := slots[..], entries, refs;
      ghost var busy := BusyAs(c, h, all, counts);
      while i < c.probe
        invariant 0 <= i <= c.probe && 0 <= at < c.capacity && 0 <= rank && slots[..] == all && entries == known && refs == counts
        invariant Victim(c, h, all, known, key, now, busy) == Walk(c, h, all, known, key, now, busy, i, at, rank)
      {
        var slot := SlotAt(c, h, i);
        var r := RankOf(slot, key, now);
        assert r == Rank(c, all, known, key, now, slot, busy(i));
        if r < rank {
          rank := r;
          at := slot;
        }
        if r == 0 {
          break;
        }
        i := i + 1;
      }
      displaced, victim := slots[at], at;
      entries := entries[id := Entry(key, now, value)];
      refs := refs[id := 2];
      slots[at] := Some(id);
    }
  }
}
