/**
 * The session cache under every interleaving: lookups hold the shared lock from finding an entry to
 * counting themselves on it, insertions hold it exclusively, and references are given up outside any
 * lock. Two things are kept: the table answers like a map that remembers the last insertion per key,
 * and an entry's count is the number of references there are, so it is freed once and never too early.
 */
module CacheRuns {
  import opened Options
  import opened Cache

  /** A thread outside the cache, in the gap of a lookup, about to release what its insertion
      displaced, or past the release that brought a count to zero and about to free. */
  datatype Pc = Out | Found(id: Id) | Displaced(id: Id) | Dying(id: Id)

  datatype State = State(
    c: Config,
    hash: Key -> nat,
    slots: Slots,
    entries: map<Id, Entry>,
    refs: map<Id, int>,
    freed: set<Id>,
    held: seq<Id>,          // one for every reference a caller has and has not released
    threads: seq<Pc>,
    last: map<Key, Id>)     // history: the entry of the last insertion per key

  datatype Step =
    | GetFind(t: nat, key: Key, now: int)
    | GetCount(t: nat)
    | Put(t: nat, key: Key, now: int, id: Id, value: nat, busy: nat -> bool)
    | PutRelease(t: nat)
    | Release(t: nat, n: nat)
    | Free(t: nat)

  predicate NobodyReads(s: State) {
    forall t | 0 <= t < |s.threads| :: !s.threads[t].Found?
  }

  ghost predicate Enabled(s: State, step: Step) {
    && Shape(s.c, s.slots, s.entries)
    && step.t < |s.threads|
    && match step
       case GetFind(t, _, _) => s.threads[t].Out?
       case GetCount(t) => s.threads[t].Found? && s.threads[t].id in s.refs
       case Put(t, _, _, id, _, _) => s.threads[t].Out? && NobodyReads(s) && id !in s.entries
       case PutRelease(t) => s.threads[t].Displaced? && s.threads[t].id in s.refs
       case Release(t, n) => s.threads[t].Out? && n < |s.held| && s.held[n] in s.refs
       case Free(t) => s.threads[t].Dying?
  }

  function At(s: State, t: nat, p: Pc): State
    requires t < |s.threads|
  {
    s.(threads := s.threads[t := p])
  }

  /** The atomic decrement; at zero the same thread goes on to free. */
  function Drop(s: State, t: nat, id: Id): State
    requires t < |s.threads| && id in s.refs
  {
    At(s.(refs := s.refs[id := s.refs[id] - 1]), t, if s.refs[id] - 1 == 0 then Dying(id) else Out)
  }

  ghost function VictimOf(s: State, step: Step): nat
    requires step.Put? && Enabled(s, step)
  {
    Victim(s.c, s.hash(step.key), s.slots, s.entries, step.key, step.now, step.busy)
  }

  ghost function DoPut(s: State, step: Step): State
    requires step.Put? && Enabled(s, step)
  {
    var v := VictimOf(s, step);
    if v >= |s.slots| then s
    else
      At(s.(slots := s.slots[v := Some(step.id)],
            entries := s.entries[step.id := Entry(step.key, step.now, step.value)],
            refs := s.refs[step.id := 2],
            held := s.held + [step.id],
            last := s.last[step.key := step.id]),
         step.t, match s.slots[v] case None => Out case Some(out) => Displaced(out))
  }

  ghost function Apply(s: State, step: Step): State
    requires Enabled(s, step)
  {
    match step
    case GetFind(t, key, now) =>
      (match Find(s.c, s.hash(key), s.slots, s.entries, key, now, 0)
       case None => s
       case Some(id) => At(s, t, Found(id)))
    case GetCount(t) =>
      var id := s.threads[t].id;
      At(s.(refs := s.refs[id := s.refs[id] + 1], held := s.held + [id]), t, Out)
    case Put(_, _, _, _, _, _) => DoPut(s, step)
    case PutRelease(t) => Drop(s, t, s.threads[t].id)
    case Release(t, n) => Drop(s.(held := s.held[..n] + s.held[n + 1..]), t, s.held[n])
    case Free(t) => At(s.(freed := s.freed + {s.threads[t].id}), t, Out)
  }

  // ----- counting -----

  function One(b: bool): nat {
    if b then 1 else 0
  }

  function InTable(slots: Slots, id: Id): nat {
    if slots == [] then 0 else One(slots[0] == Some(id)) + InTable(slots[1..], id)
  }

  function InHands(held: seq<Id>, id: Id): nat {
    if held == [] then 0 else One(held[0] == id) + InHands(held[1..], id)
  }

  function Threads(ts: seq<Pc>, p: Pc): nat {
    if ts == [] then 0 else One(ts[0] == p) + Threads(ts[1..], p)
  }

  lemma {:induction false} TableUpdate(slots: Slots, v: nat, o: Option<Id>, id: Id)
    requires v < |slots|
    ensures InTable(slots[v := o], id) == InTable(slots, id) - One(slots[v] == Some(id)) + One(o == Some(id))
    ensures InTable(slots, id) >= One(slots[v] == Some(id))
  {
    if v == 0 {
      assert slots[v := o][1..] == slots[1..];
    } else {
      assert slots[v := o][1..] == slots[1..][v - 1 := o];
      TableUpdate(slots[1..], v - 1, o, id);
    }
  }

  lemma {:induction false} ThreadUpdate(ts: seq<Pc>, t: nat, q: Pc, p: Pc)
    requires t < |ts|
    ensures Threads(ts[t := q], p) == Threads(ts, p) - One(ts[t] == p) + One(q == p)
    ensures Threads(ts, p) >= One(ts[t] == p)
  {
    if t == 0 {
      assert ts[t := q][1..] == ts[1..];
    } else {
      assert ts[t := q][1..] == ts[1..][t - 1 := q];
      ThreadUpdate(ts[1..], t - 1, q, p);
    }
  }

  lemma {:induction false} HandsConcat(a: seq<Id>, b: seq<Id>, id: Id)
    ensures InHands(a + b, id) == InHands(a, id) + InHands(b, id)
  {
    if a == [] {
      assert a + b == b;
    } else {
      assert (a + b)[1..] == a[1..] + b;
      HandsConcat(a[1..], b, id);
    }
  }

  lemma HandsRemove(held: seq<Id>, n: nat, id: Id)
    requires n < |held|
    ensures InHands(held[..n] + held[n + 1..], id) == InHands(held, id) - One(held[n] == id)
    ensures InHands(held, id) >= One(held[n] == id)
  {
    assert held == held[..n] + ([held[n]] + held[n + 1..]);
    HandsConcat(held[..n], [held[n]] + held[n + 1..], id);
    HandsConcat([held[n]], held[n + 1..], id);
    HandsConcat(held[..n], held[n + 1..], id);
    assert [held[n]][1..] == [];
  }

  lemma HandsOne(held: seq<Id>, x: Id, id: Id)
    ensures InHands(held + [x], id) == InHands(held, id) + One(x == id)
  {
    HandsConcat(held, [x], id);
    assert [x][1..] == [];
  }

  // ----- what every step keeps -----

  /** The count is the references there are, and who brings it to zero frees the entry, once. */
  ghost predicate InvCount(s: State, id: Id) {
    && (id in s.entries <==> id in s.refs)
    && InTable(s.slots, id) + InHands(s.held, id) + Threads(s.threads, Displaced(id)) == (if id in s.refs then s.refs[id] else 0)
    && Threads(s.threads, Dying(id)) + One(id in s.freed) == One(id in s.refs && s.refs[id] == 0)
    && InTable(s.slots, id) <= 1
    && (Threads(s.threads, Found(id)) > 0 ==> InTable(s.slots, id) > 0)
  }

  /** An occupied slot lies in the window of its key and holds that key's last insertion. */
  ghost predicate InvSlot(s: State, j: nat)
    requires j < |s.slots| && s.c.capacity > 0
  {
    s.slots[j].Some? ==>
      var id := s.slots[j].value;
      && id in s.entries
      && InWindow(s.c, s.hash(s.entries[id].key), j)
      && s.entries[id].key in s.last && s.last[s.entries[id].key] == id
  }

  ghost predicate Inv(s: State) {
    && Sound(s.c) && |s.slots| == s.c.capacity
    && (forall j | 0 <= j < |s.slots| :: InvSlot(s, j))
    && (forall id :: InvCount(s, id))
  }

  ghost predicate Initial(s: State) {
    && Sound(s.c) && |s.slots| == s.c.capacity
    && (forall j | 0 <= j < |s.slots| :: s.slots[j] == None)
    && s.entries == map[] && s.refs == map[] && s.freed == {} && s.held == [] && s.last == map[]
    && (forall t | 0 <= t < |s.threads| :: s.threads[t] == Out)
  }

  lemma {:induction false} NothingThere(slots: Slots, ts: seq<Pc>, id: Id, p: Pc)
    requires forall j | 0 <= j < |slots| :: slots[j] == None
    requires forall t | 0 <= t < |ts| :: ts[t] == Out
    requires !p.Out?
    ensures InTable(slots, id) == 0 && Threads(ts, p) == 0
    decreases |slots| + |ts|
  {
    if slots != [] {
      NothingThere(slots[1..], ts, id, p);
    } else if ts != [] {
      NothingThere(slots, ts[1..], id, p);
    }
  }

  lemma InitialInv(s: State)
    requires Initial(s)
    ensures Inv(s)
  {
    forall id
      ensures InvCount(s, id)
    {
      NothingThere(s.slots, s.threads, id, Displaced(id));
      NothingThere(s.slots, s.threads, id, Dying(id));
      NothingThere(s.slots, s.threads, id, Found(id));
    }
  }

  // ----- what a lookup finds -----

  lemma {:induction false} FindsInWindow(c: Config, h: nat, slots: Slots, entries: map<Id, Entry>, key: Key, now: int, i: nat)
    requires Shape(c, slots, entries) && i <= c.probe
    ensures var f := Find(c, h, slots, entries, key, now, i);
            f.Some? ==> exists j :: 0 <= j < |slots| && slots[j] == f && HasKey(slots, entries, j, key) && !ExpiredAt(c, entries[f.value], now)
    decreases c.probe - i
  {
    if i < c.probe {
      var slot := SlotAt(c, h, i);
      if HasKey(slots, entries, slot, key) {
        assert slots[slot] == slots[slot];
      } else {
        FindsInWindow(c, h, slots, entries, key, now, i + 1);
      }
    }
  }

  /** If the only slot with this key is in the rest of the window, the walk comes to it. */
  lemma {:induction false} WalkReaches(c: Config, h: nat, slots: Slots, entries: map<Id, Entry>, key: Key, now: int, i: nat, j: nat, k: nat)
    requires Shape(c, slots, entries) && i <= k < c.probe && SlotAt(c, h, k) == j
    requires HasKey(slots, entries, j, key)
    requires forall l | 0 <= l < |slots| && HasKey(slots, entries, l, key) :: l == j
    ensures Find(c, h, slots, entries, key, now, i) == if ExpiredAt(c, entries[slots[j].value], now) then None else slots[j]
    decreases k - i
  {
    var slot := SlotAt(c, h, i);
    if !HasKey(slots, entries, slot, key) {
      WalkReaches(c, h, slots, entries, key, now, i + 1, j, k);
    }
  }

  lemma OneSlotPerKey(s: State, j: nat, l: nat, key: Key)
    requires Inv(s) && j < |s.slots| && l < |s.slots|
    requires HasKey(s.slots, s.entries, j, key) && HasKey(s.slots, s.entries, l, key)
    ensures j == l
  {
    assert InvSlot(s, j) && InvSlot(s, l);
    var id := s.slots[j].value;
    assert InvCount(s, id);
    if j != l {
      TableUpdate(s.slots, j, None, id);
      TableUpdate(s.slots[j := None], l, None, id);
    }
  }

  lemma InvShape(s: State)
    requires Inv(s)
    ensures Shape(s.c, s.slots, s.entries)
  {
    forall j | 0 <= j < |s.slots| && s.slots[j].Some?
      ensures s.slots[j].value in s.entries
    {
      assert InvSlot(s, j);
    }
  }

  /** The key's last insertion is still in the table and has not expired. */
  predicate Remembers(s: State, key: Key, now: int) {
    && key in s.last && s.last[key] in s.entries && s.entries[s.last[key]].key == key
    && Some(s.last[key]) in s.slots && !ExpiredAt(s.c, s.entries[s.last[key]], now)
  }

  /**
   * The cache refines a map from keys to their last insertion: a lookup answers that insertion's
   * entry exactly when it is still in the table and has not expired, and otherwise nothing.
   */
  lemma LookupIsLastPut(s: State, key: Key, now: int)
    requires Inv(s)
    ensures Shape(s.c, s.slots, s.entries)
    ensures var f := Find(s.c, s.hash(key), s.slots, s.entries, key, now, 0);
            && (f.Some? <==> Remembers(s, key, now))
            && (f.Some? ==> f.value == s.last[key])
  {
    InvShape(s);
    var h := s.hash(key);
    var f := Find(s.c, h, s.slots, s.entries, key, now, 0);
    FindsInWindow(s.c, h, s.slots, s.entries, key, now, 0);
    if f.Some? {
      var j :| 0 <= j < |s.slots| && s.slots[j] == f && HasKey(s.slots, s.entries, j, key) && !ExpiredAt(s.c, s.entries[f.value], now);
      assert InvSlot(s, j);
    }
    if Remembers(s, key, now) {
      var j :| 0 <= j < |s.slots| && s.slots[j] == Some(s.last[key]);
      assert InvSlot(s, j);
      var k :| 0 <= k < s.c.probe && SlotAt(s.c, h, k) == j;
      forall l | 0 <= l < |s.slots| && HasKey(s.slots, s.entries, l, key)
        ensures l == j
      {
        OneSlotPerKey(s, j, l, key);
      }
      WalkReaches(s.c, h, s.slots, s.entries, key, now, 0, j, k);
    }
  }

  // ----- insertion -----

  /** The victim is in the key's window, and it is the key's old slot if the key has one. */
  lemma VictimRight(s: State, step: Step)
    requires Inv(s) && step.Put? && Enabled(s, step)
    ensures var v := VictimOf(s, step);
            && v < |s.slots| && InWindow(s.c, s.hash(step.key), v)
            && forall j | 0 <= j < |s.slots| && HasKey(s.slots, s.entries, j, step.key) :: j == v
  {
    var h, v := s.hash(step.key), VictimOf(s, step);
    VictimIsBest(s.c, h, s.slots, s.entries, step.key, step.now, step.busy);
    forall j | 0 <= j < |s.slots| && HasKey(s.slots, s.entries, j, step.key)
      ensures j == v
    {
      assert InvSlot(s, j);
      var k :| 0 <= k < s.c.probe && SlotAt(s.c, h, k) == j;
      assert SameKeyIn(s.c, h, s.slots, s.entries, step.key, s.c.probe);
      OneSlotPerKey(s, j, v, step.key);
    }
  }

  lemma PutSlot(s: State, step: Step, j: nat)
    requires Inv(s) && step.Put? && Enabled(s, step) && j < |s.slots|
    ensures j < |DoPut(s, step).slots| && InvSlot(DoPut(s, step), j)
  {
    VictimRight(s, step);
    assert InvSlot(s, j);
    hide Victim, VictimOf;
    if s.slots[j].Some? && j != VictimOf(s, step) {
      assert !HasKey(s.slots, s.entries, j, step.key);
    }
  }

  lemma PutCount(s: State, step: Step, id: Id)
    requires Inv(s) && step.Put? && Enabled(s, step)
    ensures InvCount(DoPut(s, step), id)
  {
    VictimRight(s, step);
    var v, t := VictimOf(s, step), DoPut(s, step);
    TableUpdate(s.slots, v, Some(step.id), id);
    HandsOne(s.held, step.id, id);
    ThreadUpdate(s.threads, step.t, t.threads[step.t], Displaced(id));
    ThreadUpdate(s.threads, step.t, t.threads[step.t], Dying(id));
    ThreadUpdate(s.threads, step.t, t.threads[step.t], Found(id));
    NoReaders(s.threads, id);
    assert InvCount(s, id) && InvSlot(s, v);
  }

  lemma {:induction false} NoReaders(ts: seq<Pc>, id: Id)
    requires forall t | 0 <= t < |ts| :: !ts[t].Found?
    ensures Threads(ts, Found(id)) == 0
  {
    if ts != [] {
      NoReaders(ts[1..], id);
    }
  }

  // ----- the other steps -----

  lemma FoundIsThere(s: State, step: Step, id: Id)
    requires Inv(s) && step.GetFind? && Enabled(s, step)
    requires Find(s.c, s.hash(step.key), s.slots, s.entries, step.key, step.now, 0) == Some(id)
    ensures InTable(s.slots, id) > 0
  {
    FindsInWindow(s.c, s.hash(step.key), s.slots, s.entries, step.key, step.now, 0);
    var j :| 0 <= j < |s.slots| && s.slots[j] == Some(id);
    TableUpdate(s.slots, j, None, id);
  }

  lemma OtherCount(s: State, step: Step, id: Id)
    requires Inv(s) && !step.Put? && Enabled(s, step)
    ensures InvCount(Apply(s, step), id)
  {
    hide Find, InvSlot, Shape, NobodyReads;
    var u := Apply(s, step);
    assert InvCount(s, id);
    var q := u.threads[step.t];
    ThreadUpdate(s.threads, step.t, q, Displaced(id));
    ThreadUpdate(s.threads, step.t, q, Dying(id));
    ThreadUpdate(s.threads, step.t, q, Found(id));
    assert s.threads[step.t := s.threads[step.t]] == s.threads;
    match step
    case GetFind(_, _, _) =>
      if q == Found(id) && u != s {
        FoundIsThere(s, step, id);
      }
    case GetCount(t) =>
      HandsOne(s.held, s.threads[t].id, id);
    case Release(_, n) =>
      HandsRemove(s.held, n, id);
    case _ =>
  }

  lemma OtherSlot(s: State, step: Step, j: nat)
    requires Inv(s) && !step.Put? && Enabled(s, step) && j < |s.slots|
    ensures j < |Apply(s, step).slots| && InvSlot(Apply(s, step), j)
  {
    assert InvSlot(s, j);
  }

  lemma InvStep(s: State, step: Step)
    requires Inv(s) && Enabled(s, step)
    ensures Inv(Apply(s, step))
  {
    var t := Apply(s, step);
    assert |t.slots| == |s.slots| && t.c == s.c;
    hide InvCount, InvSlot, DoPut, Drop;
    forall j | 0 <= j < |t.slots|
      ensures InvSlot(t, j)
    {
      if step.Put? {
        PutSlot(s, step, j);
      } else {
        OtherSlot(s, step, j);
      }
    }
    forall id
      ensures InvCount(t, id)
    {
      if step.Put? {
        PutCount(s, step, id);
      } else {
        OtherCount(s, step, id);
      }
    }
  }

  ghost predicate Next(s: State, t: State) {
    exists step :: Enabled(s, step) && t == Apply(s, step)
  }

  ghost predicate IsRun(ss: seq<State>) {
    && |ss| > 0 && Initial(ss[0])
    && forall k, l | 0 <= k && k + 1 == l < |ss| :: Next(ss[k], ss[l])
  }

  lemma NextInv(s: State, t: State)
    requires Inv(s) && Next(s, t)
    ensures Inv(t)
  {
    hide Inv;
    var step :| Enabled(s, step) && t == Apply(s, step);
    InvStep(s, step);
  }

  lemma {:induction false} RunInv(ss: seq<State>, k: nat)
    requires IsRun(ss) && k < |ss|
    ensures Inv(ss[k])
  {
    hide Inv, Next, Initial;
    if k == 0 {
      InitialInv(ss[0]);
    } else {
      RunInv(ss, k - 1);
      NextInv(ss[k - 1], ss[k]);
    }
  }

  // ----- the theorems, over every run -----

  /** What a step reads or writes of entries: a walk the occupants of its window, the others one entry. */
  ghost predicate Touches(s: State, step: Step, id: Id)
    requires Enabled(s, step)
  {
    match step
    case GetFind(_, key, _) => exists i :: 0 <= i < s.c.probe && s.slots[SlotAt(s.c, s.hash(key), i)] == Some(id)
    case Put(_, key, _, _, _, _) => exists i :: 0 <= i < s.c.probe && s.slots[SlotAt(s.c, s.hash(key), i)] == Some(id)
    case GetCount(t) => s.threads[t].id == id
    case PutRelease(t) => s.threads[t].id == id
    case Release(_, n) => s.held[n] == id
    case Free(t) => s.threads[t].id == id
  }

  /** No step touches an entry that has been freed. */
  lemma NeverTouchesFreed(ss: seq<State>, k: nat, step: Step, id: Id)
    requires IsRun(ss) && k < |ss| && Enabled(ss[k], step) && Touches(ss[k], step, id)
    ensures id !in ss[k].freed
  {
    RunInv(ss, k);
    var s := ss[k];
    assert InvCount(s, id);
    match step
    case GetFind(_, key, _) =>
      var i :| 0 <= i < s.c.probe && s.slots[SlotAt(s.c, s.hash(key), i)] == Some(id);
      TableUpdate(s.slots, SlotAt(s.c, s.hash(key), i), None, id);
    case Put(_, key, _, _, _, _) =>
      var i :| 0 <= i < s.c.probe && s.slots[SlotAt(s.c, s.hash(key), i)] == Some(id);
      TableUpdate(s.slots, SlotAt(s.c, s.hash(key), i), None, id);
    case GetCount(t) => ThreadUpdate(s.threads, t, Out, Found(id));
    case PutRelease(t) => ThreadUpdate(s.threads, t, Out, Displaced(id));
    case Release(_, n) => HandsRemove(s.held, n, id);
    case Free(t) => ThreadUpdate(s.threads, t, Out, Dying(id));
  }

  /** The count is the table's pointer, the holders and displaced references; it is zero exactly for
      an entry that is freed or with the one thread about to free it. */
  lemma CountIsReferences(ss: seq<State>, k: nat, id: Id)
    requires IsRun(ss) && k < |ss| && id in ss[k].refs
    ensures var s := ss[k];
            && s.refs[id] == InTable(s.slots, id) + InHands(s.held, id) + Threads(s.threads, Displaced(id))
            && (s.refs[id] == 0 <==> One(id in s.freed) + Threads(s.threads, Dying(id)) == 1)
  {
    RunInv(ss, k);
    assert InvCount(ss[k], id);
  }

  /** In every run a lookup is the last insertion's entry or nothing, and a key has one slot at most. */
  lemma AnswersLastPut(ss: seq<State>, k: nat, key: Key, now: int)
    requires IsRun(ss) && k < |ss|
    ensures Shape(ss[k].c, ss[k].slots, ss[k].entries)
    ensures var s := ss[k];
            var f := Find(s.c, s.hash(key), s.slots, s.entries, key, now, 0);
            && (f.Some? <==> Remembers(s, key, now))
            && (f.Some? ==> f.value == s.last[key])
            && forall j, l | 0 <= j < |s.slots| && 0 <= l < |s.slots|
                             && HasKey(s.slots, s.entries, j, key) && HasKey(s.slots, s.entries, l, key) :: j == l
  {
    RunInv(ss, k);
    LookupIsLastPut(ss[k], key, now);
    var s := ss[k];
    forall j, l | 0 <= j < |s.slots| && 0 <= l < |s.slots| && HasKey(s.slots, s.entries, j, key) && HasKey(s.slots, s.entries, l, key)
      ensures j == l
    {
      OneSlotPerKey(s, j, l, key);
    }
  }

  /** Insertion always succeeds, in the key's window, and the next lookup sees it until it expires. */
  lemma PutIsFound(ss: seq<State>, k: nat, step: Step, now: int)
    requires IsRun(ss) && k < |ss| && step.Put? && Enabled(ss[k], step)
    ensures var t := Apply(ss[k], step);
            && Shape(t.c, t.slots, t.entries) && Some(step.id) in t.slots
            && (!ExpiredAt(t.c, t.entries[step.id], now) ==>
                  Find(t.c, t.hash(step.key), t.slots, t.entries, step.key, now, 0) == Some(step.id))
  {
    RunInv(ss, k);
    InvStep(ss[k], step);
    VictimRight(ss[k], step);
    var t := Apply(ss[k], step);
    assert t.slots[VictimOf(ss[k], step)] == Some(step.id);
    LookupIsLastPut(t, step.key, now);
  }

  lemma EntryStep(s: State, step: Step, id: Id)
    requires Enabled(s, step) && id in s.entries
    ensures id in Apply(s, step).entries && Apply(s, step).entries[id] == s.entries[id]
  {
    hide Find, Victim;
  }

  /** What was put stays as it was put: its key, its time and its value, in every later state. */
  lemma {:induction false} EntryStays(ss: seq<State>, k: nat, l: nat, id: Id)
    requires IsRun(ss) && k <= l < |ss| && id in ss[k].entries
    ensures id in ss[l].entries && ss[l].entries[id] == ss[k].entries[id]
    decreases l
  {
    if k < l {
      var j := l - 1;
      EntryStays(ss, k, j, id);
      assert Next(ss[j], ss[l]);
      hide Enabled, Apply;
      var step :| Enabled(ss[j], step) && ss[l] == Apply(ss[j], step);
      EntryStep(ss[j], step, id);
    }
  }

  /** For how long: a key is found as its last insertion while that is in the table and younger than the timeout, if there is one. */
  lemma FoundWhileYoung(ss: seq<State>, k: nat, key: Key, now: int)
    requires IsRun(ss) && k < |ss|
    ensures Shape(ss[k].c, ss[k].slots, ss[k].entries)
    ensures var s := ss[k];
            Find(s.c, s.hash(key), s.slots, s.entries, key, now, 0).Some? <==>
              && key in s.last && s.last[key] in s.entries && s.entries[s.last[key]].key == key && Some(s.last[key]) in s.slots
              && (s.c.timeout <= 0 || now < s.entries[s.last[key]].created + s.c.timeout)
  {
    AnswersLastPut(ss, k, key, now);
  }

  /** What is put at a time is found from then on until the timeout has passed, if nothing displaces it. */
  lemma PutFoundUntil(ss: seq<State>, k: nat, step: Step, now: int)
    requires IsRun(ss) && k < |ss| && step.Put? && Enabled(ss[k], step)
    ensures var t := Apply(ss[k], step);
            && Shape(t.c, t.slots, t.entries) && t.c == ss[k].c
            && step.id in t.entries && t.entries[step.id] == Entry(step.key, step.now, step.value)
            && (t.c.timeout <= 0 || now < step.now + t.c.timeout ==>
                  Find(t.c, t.hash(step.key), t.slots, t.entries, step.key, now, 0) == Some(step.id))
  {
    PutIsFound(ss, k, step, now);
  }

  /** What an insertion takes for an entry in use is one that somebody besides the table refers to. */
  lemma BusyMeansHeld(ss: seq<State>, k: nat, h: nat, i: nat, id: Id)
    requires IsRun(ss) && k < |ss| && Shape(ss[k].c, ss[k].slots, ss[k].entries)
    requires ss[k].slots[SlotAt(ss[k].c, h, i)] == Some(id) && id in ss[k].refs && InTable(ss[k].slots, id) == 1
    ensures BusyAs(ss[k].c, h, ss[k].slots, ss[k].refs)(i) <==>
            InHands(ss[k].held, id) + Threads(ss[k].threads, Displaced(id)) > 0
  {
    CountIsReferences(ss, k, id);
  }

  // ----- that nothing leaks -----

  function ThreadOwes(p: Pc): nat {
    match p
    case Displaced(_) => 2
    case Dying(_) => 1
    case _ => 0
  }

  function ThreadsOwe(ts: seq<Pc>): nat {
    if ts == [] then 0 else ThreadOwes(ts[0]) + ThreadsOwe(ts[1..])
  }

  /** The releases and frees still to come. */
  function Owed(s: State): nat {
    2 * |s.held| + ThreadsOwe(s.threads)
  }

  lemma {:induction false} OweUpdate(ts: seq<Pc>, t: nat, p: Pc)
    requires t < |ts|
    ensures ThreadsOwe(ts[t := p]) == ThreadsOwe(ts) - ThreadOwes(ts[t]) + ThreadOwes(p)
  {
    if t == 0 {
      assert ts[t := p][1..] == ts[1..];
    } else {
      assert ts[t := p][1..] == ts[1..][t - 1 := p];
      OweUpdate(ts[1..], t - 1, p);
    }
  }

  /** Every release and every free leaves one thing less to do. */
  lemma ReleasingGoesOn(s: State, step: Step)
    requires Enabled(s, step) && (step.PutRelease? || step.Release? || step.Free?)
    ensures Owed(Apply(s, step)) < Owed(s)
  {
    hide ThreadsOwe;
    OweUpdate(s.threads, step.t, Apply(s, step).threads[step.t]);
  }

  lemma {:induction false} NothingOwed(ts: seq<Pc>, id: Id)
    requires ThreadsOwe(ts) == 0
    ensures Threads(ts, Displaced(id)) == 0 && Threads(ts, Dying(id)) == 0
  {
    if ts != [] {
      NothingOwed(ts[1..], id);
    }
  }

  lemma {:induction false} TableIff(slots: Slots, id: Id)
    ensures InTable(slots, id) > 0 <==> Some(id) in slots
  {
    if slots != [] {
      TableIff(slots[1..], id);
    }
  }

  /** Once nothing is left to release, exactly the entries that are not in the table have been freed. */
  lemma NothingLeaks(ss: seq<State>, k: nat, id: Id)
    requires IsRun(ss) && k < |ss| && Owed(ss[k]) == 0 && id in ss[k].entries
    ensures id in ss[k].freed <==> Some(id) !in ss[k].slots
  {
    RunInv(ss, k);
    assert InvCount(ss[k], id);
    NothingOwed(ss[k].threads, id);
    TableIff(ss[k].slots, id);
  }
}
