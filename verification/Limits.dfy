/** Which calls the DHT node admits: buckets per class of community, counted by peer, by address and in all. */
module Limits {
  import opened TokenBuckets
  import opened Options

  datatype Scope = Peer | Prefix | Global

  /** A bucket per class, scope and key; the class decides the rate. */
  datatype Key = Key(peerClass: nat, scope: Scope, name: string)

  const Unknown: nat := 0
  const WithoutUrl: nat := 1
  const WithUrl: nat := 2
  const Blocked: nat := 255

  /** The prefix is that of the caller's address, or none for a relayed connection. */
  datatype Caller = Caller(group: string, peer: string, prefix: Option<string>)

  function PerMinute(n: real, burst: real): Rate {
    Rate(burst, n / 60000.0)
  }

  /** The table of rates; `None` is no limit. */
  function RateOf(peerClass: nat, scope: Scope): (r: Option<Rate>)
    ensures r.Some? ==> Sane(r.value)
  {
    if peerClass == Unknown then
      match scope
      case Peer => Some(PerMinute(6.0, 3.0))
      case Prefix => Some(PerMinute(30.0, 10.0))
      case Global => Some(PerMinute(300.0, 60.0))
    else if peerClass == WithoutUrl then
      match scope
      case Peer => Some(PerMinute(30.0, 10.0))
      case Prefix => Some(PerMinute(120.0, 30.0))
      case Global => Some(PerMinute(1200.0, 200.0))
    else if peerClass == WithUrl then
      match scope
      case Peer => Some(PerMinute(120.0, 30.0))
      case Prefix => None
      case Global => Some(PerMinute(6000.0, 1000.0))
    else None
  }

  predicate Limited(k: Key) {
    RateOf(k.peerClass, k.scope).Some?
  }

  function Of(k: Key): (r: Rate)
    requires Limited(k)
    ensures Sane(r)
  {
    RateOf(k.peerClass, k.scope).value
  }

  type Table = map<Key, Bucket>

  function Shows(t: Table, k: Key, time: real): real
    requires Limited(k)
  {
    Level(t, k, Of(k), time)
  }

  /** Every bucket belongs to a limit, holds at most its burst, and was last written at or before `now`. */
  ghost predicate Valid(t: Table, now: real) {
    forall k | k in t :: Limited(k) && Fits(t[k], Of(k), now)
  }

  predicate Matches(peerClass: nat, caller: Caller, k: Key) {
    && k.peerClass == peerClass && Limited(k)
    && match k.scope
       case Peer => k.name == caller.peer
       case Prefix => caller.prefix == Some(k.name)
       case Global => k.name == ""
  }

  /** The key of a scope, if the class has a limit there and the caller has something to count by. */
  function KeyFor(peerClass: nat, caller: Caller, scope: Scope): (r: seq<Key>)
    ensures forall k :: k in r <==> k.scope == scope && Matches(peerClass, caller, k)
    ensures |r| <= 1
  {
    if RateOf(peerClass, scope).None? then []
    else
      match scope
      case Peer => [Key(peerClass, Peer, caller.peer)]
      case Prefix => if caller.prefix.None? then [] else [Key(peerClass, Prefix, caller.prefix.value)]
      case Global => [Key(peerClass, Global, "")]
  }

  function Matching(peerClass: nat, caller: Caller): (ks: seq<Key>)
    ensures forall k :: k in ks <==> Matches(peerClass, caller, k)
    ensures forall i, j | 0 <= i < j < |ks| :: ks[i] != ks[j]
  {
    KeyFor(peerClass, caller, Peer) + KeyFor(peerClass, caller, Prefix) + KeyFor(peerClass, caller, Global)
  }

  function Refilled(t: Table, k: Key, now: real): Table
    requires Limited(k)
  {
    t[k := Refill(Find(t, k, Of(k), now), Of(k), now)]
  }

  /** Looks at the buckets in order, up to one that has no token. */
  function Check(t: Table, ks: seq<Key>, now: real): (Table, Option<Scope>)
    requires forall k | k in ks :: Limited(k)
    decreases |ks|
  {
    if ks == [] then (t, None)
    else
      var t1 := Refilled(t, ks[0], now);
      if t1[ks[0]].tokens < 1.0 then (t1, Some(ks[0].scope)) else Check(t1, ks[1..], now)
  }

  function Take(t: Table, ks: seq<Key>, now: real): Table
    requires forall k | k in ks :: Limited(k)
    decreases |ks|
  {
    if ks == [] then t
    else
      var t1 := Refilled(t, ks[0], now);
      var b := t1[ks[0]];
      Take(t1[ks[0] := b.(tokens := b.tokens - 1.0)], ks[1..], now)
  }

  datatype Answer = Admitted(cleared: bool) | IsBlocked | NoToken(scope: Scope)

  datatype State = State(classes: map<string, nat>, buckets: Table)

  function ClassOf(s: State, group: string): nat {
    if group in s.classes then s.classes[group] else Unknown
  }

  function Admit(s: State, caller: Caller, now: real): (State, Answer) {
    var peerClass := ClassOf(s, caller.group);
    if peerClass == Blocked then (s, IsBlocked)
    else
      var ks := Matching(peerClass, caller);
      var (t, scope) := Check(s.buckets, ks, now);
      if scope.Some? then (s.(buckets := t), NoToken(scope.value))
      else
        var t1 := Take(t, ks, now);
        if |t1| > MaxBuckets then (s.(buckets := map[]), Admitted(true)) else (s.(buckets := t1), Admitted(false))
  }

  function SetClass(s: State, group: string, peerClass: nat): State {
    s.(classes := if peerClass == Unknown then s.classes - {group} else s.classes[group := peerClass])
  }

  // ----- a call is admitted exactly when every bucket that applies shows a token -----

  /** From `now` on the two tables show the same. */
  ghost predicate Same(t: Table, u: Table, now: real) {
    forall q: Key, time: real | Limited(q) && now <= time :: Shows(u, q, time) == Shows(t, q, time)
  }

  lemma RefilledSame(t: Table, k: Key, now: real)
    requires Valid(t, now) && Limited(k)
    ensures Valid(Refilled(t, k, now), now) && Same(t, Refilled(t, k, now), now)
    ensures Refilled(t, k, now)[k].tokens == Shows(t, k, now)
  {
    hide RateOf, Refill;
    var u := Refilled(t, k, now);
    RefillLevel(t, k, Of(k), now, now);
    forall q: Key, time: real | Limited(q) && now <= time
      ensures Shows(u, q, time) == Shows(t, q, time)
    {
      RefillLevel(t, k, Of(k), now, time);
    }
  }

  /** Looking at the buckets, as far as it goes, changes nothing they show. */
  lemma {:induction false} CheckSame(t: Table, ks: seq<Key>, now: real)
    requires Valid(t, now) && forall k | k in ks :: Limited(k)
    ensures Valid(Check(t, ks, now).0, now) && Same(t, Check(t, ks, now).0, now)
    decreases |ks|
  {
    if ks != [] {
      hide Refilled, Valid, Limited, Level;
      RefilledSame(t, ks[0], now);
      assert forall k | k in ks[1..] :: k in ks;
      CheckSame(Refilled(t, ks[0], now), ks[1..], now);
    }
  }

  predicate HaveTokens(t: Table, ks: seq<Key>, now: real)
    requires forall k | k in ks :: Limited(k)
  {
    forall k | k in ks :: Shows(t, k, now) >= 1.0
  }

  /** The answer is the first scope without a token. */
  ghost predicate Lacks(t: Table, ks: seq<Key>, now: real, scope: Scope)
    requires forall k | k in ks :: Limited(k)
  {
    exists i | 0 <= i < |ks| :: ks[i].scope == scope && LacksAt(t, ks, now, i)
  }

  ghost predicate LacksAt(t: Table, ks: seq<Key>, now: real, i: nat)
    requires i < |ks| && forall k | k in ks :: Limited(k)
  {
    Shows(t, ks[i], now) < 1.0 && forall j | 0 <= j < i :: Shows(t, ks[j], now) >= 1.0
  }

  lemma {:induction false} CheckIff(t: Table, ks: seq<Key>, now: real)
    requires Valid(t, now) && forall k | k in ks :: Limited(k)
    ensures Check(t, ks, now).1.None? <==> HaveTokens(t, ks, now)
    ensures Check(t, ks, now).1.Some? ==> Lacks(t, ks, now, Check(t, ks, now).1.value)
    decreases |ks|
  {
    if ks != [] {
      hide Refilled, Valid, Limited, Level;
      var u, rest := Refilled(t, ks[0], now), ks[1..];
      RefilledSame(t, ks[0], now);
      assert forall k | k in rest :: k in ks;
      assert ks == [ks[0]] + rest;
      if Shows(t, ks[0], now) < 1.0 {
        assert LacksAt(t, ks, now, 0);
      } else {
        CheckIff(u, rest, now);
        if Check(u, rest, now).1.Some? {
          var i :| 0 <= i < |rest| && rest[i].scope == Check(u, rest, now).1.value && LacksAt(u, rest, now, i);
          LacksNext(t, u, ks, now, i);
        }
      }
    }
  }

  lemma LacksNext(t: Table, u: Table, ks: seq<Key>, now: real, i: nat)
    requires ks != [] && (forall k | k in ks :: Limited(k)) && (forall k | k in ks[1..] :: Limited(k))
    requires Same(t, u, now) && Shows(t, ks[0], now) >= 1.0
    requires i < |ks[1..]| && LacksAt(u, ks[1..], now, i)
    ensures ks[1..][i] == ks[i + 1] && LacksAt(t, ks, now, i + 1)
  {
    hide Level, Limited;
    forall j | 0 <= j < i + 1
      ensures Shows(t, ks[j], now) >= 1.0
    {
      assert j > 0 ==> ks[j] == ks[1..][j - 1];
    }
  }

  ghost predicate Distinct(ks: seq<Key>) {
    forall i, j | 0 <= i < j < |ks| :: ks[i] != ks[j]
  }

  /** Every key of `ks` shows one token less at `now`, and no other shows less. */
  ghost predicate Charged(t: Table, u: Table, ks: seq<Key>, now: real) {
    forall q: Key | Limited(q) :: Shows(u, q, now) == Shows(t, q, now) - if q in ks then 1.0 else 0.0
  }

  function TakeOne(t: Table, k: Key, now: real): Table
    requires Limited(k)
  {
    var b := Refill(Find(t, k, Of(k), now), Of(k), now);
    t[k := b.(tokens := b.tokens - 1.0)]
  }

  lemma TakeOneCharges(t: Table, k: Key, now: real)
    requires Valid(t, now) && Limited(k) && Shows(t, k, now) >= 1.0
    ensures Valid(TakeOne(t, k, now), now) && Charged(t, TakeOne(t, k, now), [k], now)
  {
    hide RateOf, Refill;
    TakeLevel(t, k, Of(k), now);
  }

  lemma {:induction false} TakeCharges(t: Table, ks: seq<Key>, now: real)
    requires Valid(t, now) && (forall k | k in ks :: Limited(k)) && Distinct(ks) && HaveTokens(t, ks, now)
    ensures Valid(Take(t, ks, now), now) && Charged(t, Take(t, ks, now), ks, now)
    decreases |ks|
  {
    if ks == [] {
      assert Charged(t, t, ks, now);
    } else {
      hide TakeOne, Valid, Limited, Take, Charged, HaveTokens;
      var u, rest := TakeOne(t, ks[0], now), ks[1..];
      assert ks[0] in ks && forall k | k in rest :: k in ks;
      StillThere(t, ks, now);
      TakeCharges(u, rest, now);
      TakeUnfolds(t, ks, now);
      ChargedNext(t, u, Take(u, rest, now), ks, now);
    }
  }

  lemma StillThere(t: Table, ks: seq<Key>, now: real)
    requires Valid(t, now) && ks != [] && (forall k | k in ks :: Limited(k)) && Distinct(ks) && HaveTokens(t, ks, now)
    ensures var u := TakeOne(t, ks[0], now);
            Valid(u, now) && Charged(t, u, [ks[0]], now) && (forall k | k in ks[1..] :: Limited(k)) && HaveTokens(u, ks[1..], now)
  {
    hide TakeOne, Valid, Level, Limited;
    TakeOneCharges(t, ks[0], now);
    assert forall k | k in ks[1..] :: k in ks && k != ks[0];
  }

  lemma ChargedNext(t: Table, u: Table, v: Table, ks: seq<Key>, now: real)
    requires ks != [] && Distinct(ks) && Charged(t, u, [ks[0]], now) && Charged(u, v, ks[1..], now)
    ensures Charged(t, v, ks, now)
  {
    hide Level, Limited;
    assert ks == [ks[0]] + ks[1..];
  }

  lemma TakeUnfolds(t: Table, ks: seq<Key>, now: real)
    requires ks != [] && (forall k | k in ks :: Limited(k)) && (forall k | k in ks[1..] :: Limited(k))
    ensures Take(t, ks, now) == Take(TakeOne(t, ks[0], now), ks[1..], now)
  {
    var k := ks[0];
    var t1 := Refilled(t, k, now);
    assert t1[k := t1[k].(tokens := t1[k].tokens - 1.0)] == TakeOne(t, k, now);
  }

  /**
   * A call is admitted exactly when its class is not blocked and every bucket that applies shows a
   * token; a refusal changes nothing any bucket shows from then on; an admission takes one token from
   * each that applies and from no other, unless it ends by clearing them all.
   */
  lemma AdmitIff(s: State, caller: Caller, now: real)
    requires Valid(s.buckets, now)
    ensures var (s1, a) := Admit(s, caller, now);
            var peerClass := ClassOf(s, caller.group);
            && Valid(s1.buckets, now) && s1.classes == s.classes
            && (a.IsBlocked? <==> peerClass == Blocked)
            && (a.Admitted? <==> peerClass != Blocked && HaveTokens(s.buckets, Matching(peerClass, caller), now))
            && (a.NoToken? ==> Lacks(s.buckets, Matching(peerClass, caller), now, a.scope))
            && (!a.Admitted? ==> Same(s.buckets, s1.buckets, now))
            && (a.Admitted? && !a.cleared ==> Charged(s.buckets, s1.buckets, Matching(peerClass, caller), now))
            && (a.Admitted? && a.cleared ==> s1.buckets == map[])
  {
    hide Check, Take, Level, Matching, Limited;
    var peerClass := ClassOf(s, caller.group);
    if peerClass != Blocked {
      var ks := Matching(peerClass, caller);
      CheckSame(s.buckets, ks, now);
      CheckIff(s.buckets, ks, now);
      var (t, scope) := Check(s.buckets, ks, now);
      if scope.None? {
        TakeCharges(t, ks, now);
      }
    }
  }

  // ----- runs -----

  datatype Event = Classify(group: string, peerClass: nat) | Call(caller: Caller, now: real)

  function Step(s: State, e: Event): State {
    match e
    case Classify(group, peerClass) => SetClass(s, group, peerClass)
    case Call(caller, now) => Admit(s, caller, now).0
  }

  function After(s: State, es: seq<Event>): State
    decreases |es|
  {
    if es == [] then s else After(Step(s, es[0]), es[1..])
  }

  /** Whether the event is a call that was admitted against the bucket `k`. */
  predicate Spends(s: State, e: Event, k: Key) {
    e.Call? && Admit(s, e.caller, e.now).1.Admitted? && k in Matching(ClassOf(s, e.caller.group), e.caller)
  }

  predicate Clears(s: State, e: Event) {
    e.Call? && Admit(s, e.caller, e.now).1 == Admitted(true)
  }

  function Spent(s: State, es: seq<Event>, k: Key): nat
    decreases |es|
  {
    if es == [] then 0 else (if Spends(s, es[0], k) then 1 else 0) + Spent(Step(s, es[0]), es[1..], k)
  }

  function Cleared(s: State, es: seq<Event>): nat
    decreases |es|
  {
    if es == [] then 0 else (if Clears(s, es[0]) then 1 else 0) + Cleared(Step(s, es[0]), es[1..])
  }

  /** Time does not run backwards, from `since` to `until`. */
  predicate Ordered(es: seq<Event>, since: real, until: real)
    decreases |es|
  {
    if es == [] then since <= until
    else Ordered(es[1..], TimeOf(es[0], since), until) && since <= TimeOf(es[0], since)
  }

  function TimeOf(e: Event, since: real): real {
    if e.Call? then e.now else since
  }

  lemma ValidLater(t: Table, now: real, time: real)
    requires Valid(t, now) && now <= time
    ensures Valid(t, time)
  {
  }

  /** At the time of a call, what it spends and leaves is what was there, or a burst if it clears. */
  lemma CallCharges(s: State, e: Event, k: Key)
    requires e.Call? && Valid(s.buckets, e.now) && Limited(k)
    ensures Valid(Step(s, e).buckets, e.now)
    ensures (if Spends(s, e, k) then 1.0 else 0.0) + Shows(Step(s, e).buckets, k, e.now) <=
            Shows(s.buckets, k, e.now) + (if Clears(s, e) then Of(k).burst else 0.0)
  {
    hide Admit, Matching, Limited, Of, Level;
    AdmitIff(s, e.caller, e.now);
    if Clears(s, e) {
      if Spends(s, e, k) {
        HasOne(s, e, k);
      }
      LevelLater(s.buckets, k, Of(k), e.now, e.now);
      LevelLater(Step(s, e).buckets, k, Of(k), e.now, e.now);
    }
  }

  /** One event spends at most what was there, what time brings, and a burst if it clears. */
  lemma StepBound(s: State, e: Event, since: real, k: Key)
    requires Valid(s.buckets, since) && Limited(k) && since <= TimeOf(e, since)
    ensures var now := TimeOf(e, since);
            && Valid(Step(s, e).buckets, now)
            && (if Spends(s, e, k) then 1.0 else 0.0) + Shows(Step(s, e).buckets, k, now) <=
               Shows(s.buckets, k, since) + Gain(Of(k), since, now) + (if Clears(s, e) then Of(k).burst else 0.0)
  {
    hide Admit, Matching, Limited, Of, Level, Valid;
    LevelLaterKey(s.buckets, k, since, TimeOf(e, since));
    if e.Call? {
      CallCharges(s, e, k);
    }
  }

  lemma HasOne(s: State, e: Event, k: Key)
    requires e.Call? && Limited(k) && Valid(s.buckets, e.now) && Spends(s, e, k)
    ensures Shows(s.buckets, k, e.now) >= 1.0
  {
    hide Admit, Matching, Level;
    AdmitIff(s, e.caller, e.now);
  }

  lemma {:induction false} OrderedSpan(es: seq<Event>, since: real, until: real)
    requires Ordered(es, since, until)
    ensures since <= until && (es != [] ==> since <= TimeOf(es[0], since) <= until)
    decreases |es|
  {
    if es != [] {
      OrderedSpan(es[1..], TimeOf(es[0], since), until);
    }
  }

  /** Over any run the calls admitted against a bucket are at most its level, what time brings, and a burst per clear. */
  lemma {:induction false} RateBound(s: State, es: seq<Event>, k: Key, since: real, until: real)
    requires Valid(s.buckets, since) && Limited(k) && Ordered(es, since, until)
    ensures Valid(After(s, es).buckets, until)
    ensures Spent(s, es, k) as real + Shows(After(s, es).buckets, k, until) <=
            Shows(s.buckets, k, since) + Gain(Of(k), since, until) + Cleared(s, es) as real * Of(k).burst
    decreases |es|
  {
    hide Level, Of, Limited, Spends, Clears, Step, Valid, Gain;
    if es == [] {
      LevelLaterKey(s.buckets, k, since, until);
    } else {
      var now := TimeOf(es[0], since);
      StepBound(s, es[0], since, k);
      RateBound(Step(s, es[0]), es[1..], k, now, until);
      OrderedSpan(es, since, until);
      Gained(Of(k), since, now, until);
      var n := Cleared(Step(s, es[0]), es[1..]) as real;
      assert (n + 1.0) * Of(k).burst == n * Of(k).burst + Of(k).burst;
    }
  }

  lemma LevelLaterKey(t: Table, k: Key, now: real, time: real)
    requires Valid(t, now) && Limited(k) && now <= time
    ensures Valid(t, time)
    ensures 0.0 <= Shows(t, k, time) <= Of(k).burst && Shows(t, k, time) <= Shows(t, k, now) + Gain(Of(k), now, time)
  {
    hide RateOf;
    ValidLater(t, now, time);
    LevelLater(t, k, Of(k), now, time);
  }

  /** Without a clear, at most burst and rate times the time between two instants. */
  lemma BurstAndRate(s: State, es: seq<Event>, k: Key, since: real, until: real)
    requires Valid(s.buckets, since) && Limited(k) && Ordered(es, since, until) && Cleared(s, es) == 0
    ensures Spent(s, es, k) as real <= Of(k).burst + (until - since) * Of(k).perMs
  {
    hide Level, Of, Limited, Valid;
    RateBound(s, es, k, since, until);
    LevelLaterKey(After(s, es).buckets, k, until, until);
    LevelLaterKey(s.buckets, k, since, since);
  }

  // ----- what a clear forgets -----

  /** Forgetting every bucket changes nothing exactly if every one of them has refilled completely. */
  lemma ClearKeepsIff(t: Table, now: real)
    requires Valid(t, now)
    ensures Same(t, map[], now) <==> forall k | k in t :: Shows(t, k, now) == Of(k).burst
  {
    hide RateOf;
    forall k, time: real | Limited(k) && now <= time
      ensures Shows(map[], k, time) == Of(k).burst
    {
      LevelLaterKey(map[], k, time, time);
      EmptyShows(k, time);
    }
    if Same(t, map[], now) {
      forall k | k in t
        ensures Shows(t, k, now) == Of(k).burst
      {
        assert Shows(map[], k, now) == Shows(t, k, now);
      }
    } else if forall k | k in t :: Shows(t, k, now) == Of(k).burst {
      forall k, time: real | Limited(k) && now <= time
        ensures Shows(map[], k, time) == Shows(t, k, time)
      {
        if k in t {
          LevelLater(t, k, Of(k), now, time);
        } else {
          EmptyShows(k, time);
        }
      }
    }
  }

  lemma EmptyShows(k: Key, time: real)
    requires Limited(k)
    ensures Shows(map[], k, time) == Of(k).burst
    ensures forall t: Table | k !in t :: Shows(t, k, time) == Of(k).burst
  {
    hide RateOf;
    RefillAtOnce(Bucket(Of(k).burst, time), Of(k));
  }

  /** The buckets as a call leaves them when it is admitted, before their number is looked at. */
  function Taken(s: State, caller: Caller, now: real): Table {
    var ks := Matching(ClassOf(s, caller.group), caller);
    Take(Check(s.buckets, ks, now).0, ks, now)
  }

  /** A call that counts against a limit has just taken from it, so when it clears it always forgets a bucket that is not full. */
  lemma ClearRaises(s: State, caller: Caller, now: real, k: Key)
    requires Valid(s.buckets, now) && Admit(s, caller, now).1 == Admitted(true)
    requires k in Matching(ClassOf(s, caller.group), caller)
    ensures Valid(Taken(s, caller, now), now) && !Same(Taken(s, caller, now), map[], now)
    ensures Shows(Taken(s, caller, now), k, now) <= Of(k).burst - 1.0 && Shows(Admit(s, caller, now).0.buckets, k, now) == Of(k).burst
  {
    hide Check, Take, Level, Matching, Limited, Of;
    var ks := Matching(ClassOf(s, caller.group), caller);
    CheckSame(s.buckets, ks, now);
    CheckIff(s.buckets, ks, now);
    var t := Check(s.buckets, ks, now).0;
    TakeCharges(t, ks, now);
    LevelLaterKey(t, k, now, now);
    EmptyShows(k, now);
    assert Shows(map[], k, now) != Shows(Taken(s, caller, now), k, now);
  }

  /** A peer for every number. */
  function PeerName(n: nat): string {
    seq(n, _ => 'x')
  }

  function PeerKey(n: nat): Key {
    Key(Unknown, Peer, PeerName(n))
  }

  /** The buckets of so many peers, all full. */
  function Crowd(n: nat): Table {
    if n == 0 then map[] else Crowd(n - 1)[PeerKey(n - 1) := Bucket(3.0, 0.0)]
  }

  lemma {:induction false} CrowdIs(n: nat)
    ensures |Crowd(n)| == n && Valid(Crowd(n), 0.0)
    ensures forall k | k in Crowd(n) :: k.peerClass == Unknown && k.scope == Peer && |k.name| < n
  {
    if n > 0 {
      CrowdIs(n - 1);
      assert |PeerKey(n - 1).name| == n - 1;
      assert PeerKey(n - 1) !in Crowd(n - 1);
      assert Limited(PeerKey(n - 1)) && Of(PeerKey(n - 1)).burst == 3.0;
    }
  }

  lemma {:induction false} CheckAdds(t: Table, ks: seq<Key>, now: real)
    requires forall k | k in ks :: Limited(k)
    ensures t.Keys <= Check(t, ks, now).0.Keys
    decreases |ks|
  {
    if ks != [] {
      hide Refill, Of, Limited;
      CheckAdds(Refilled(t, ks[0], now), ks[1..], now);
    }
  }

  lemma {:induction false} TakeAdds(t: Table, ks: seq<Key>, now: real)
    requires forall k | k in ks :: Limited(k)
    ensures t.Keys <= Take(t, ks, now).Keys && forall k | k in ks :: k in Take(t, ks, now)
    decreases |ks|
  {
    if ks != [] {
      hide Refill, Of, Limited, Take;
      TakeUnfolds(t, ks, now);
      TakeAdds(TakeOne(t, ks[0], now), ks[1..], now);
      assert ks == [ks[0]] + ks[1..];
    }
  }

  lemma {:induction false} SmallerSet(a: set<Key>, b: set<Key>)
    requires a <= b
    ensures |a| <= |b|
  {
    if a != {} {
      var k :| k in a;
      SmallerSet(a - {k}, b - {k});
    }
  }

  /** One more than there is room for. */
  lemma CallAdds(s: State, caller: Caller, now: real, k: Key)
    requires k in Matching(ClassOf(s, caller.group), caller) && k !in s.buckets
    ensures |Taken(s, caller, now)| > |s.buckets|
  {
    hide Check, Take, Matching;
    var ks := Matching(ClassOf(s, caller.group), caller);
    var t := Check(s.buckets, ks, now).0;
    CheckAdds(s.buckets, ks, now);
    TakeAdds(t, ks, now);
    SmallerSet(s.buckets.Keys + {k}, Taken(s, caller, now).Keys);
  }

  /**
   * A state in which the code clears: 65536 peers have buckets and one more calls. The token it takes is
   * back as soon as its call is through.
   */
  lemma ClearingState()
    ensures var s, caller, k := State(map[], Crowd(MaxBuckets)), Caller("g", PeerName(MaxBuckets), None), PeerKey(MaxBuckets);
            && Valid(s.buckets, 0.0) && |s.buckets| == MaxBuckets && Limited(k)
            && Admit(s, caller, 0.0).1 == Admitted(true)
            && Shows(Taken(s, caller, 0.0), k, 0.0) <= 2.0 && Shows(Admit(s, caller, 0.0).0.buckets, k, 0.0) == 3.0
  {
    hide Crowd, PeerName, Check, Take;
    CrowdIs(MaxBuckets);
    NameLength(MaxBuckets);
    CrowdCalls(Crowd(MaxBuckets), PeerName(MaxBuckets));
    var s, caller, k := State(map[], Crowd(MaxBuckets)), Caller("g", PeerName(MaxBuckets), None), PeerKey(MaxBuckets);
    assert k in Matching(Unknown, caller);
    CallAdds(s, caller, 0.0, k);
    ClearRaises(s, caller, 0.0, k);
  }

  lemma NameLength(n: nat)
    ensures |PeerName(n)| == n
  {
  }

  /** A peer without a bucket, and nothing counted for all peers yet: the call is admitted. */
  lemma CrowdCalls(t: Table, peer: string)
    requires Valid(t, 0.0) && forall k | k in t :: k.scope == Peer && k.name != peer
    ensures var s, caller := State(map[], t), Caller("g", peer, None);
            ClassOf(s, "g") == Unknown && HaveTokens(t, Matching(Unknown, caller), 0.0) && Admit(s, caller, 0.0).1.Admitted?
  {
    hide Check, Take;
    var s, caller := State(map[], t), Caller("g", peer, None);
    forall k | k in Matching(Unknown, caller)
      ensures Shows(t, k, 0.0) >= 1.0
    {
      assert k !in t;
      EmptyShows(k, 0.0);
    }
    AdmitIff(s, caller, 0.0);
  }

  // ----- the object -----

  class Gate {
    var classes: map<string, nat>
    var buckets: Table

    constructor ()
      ensures Value() == State(map[], map[])
    {
      classes, buckets := map[], map[];
    }

    ghost function Value(): State
      reads this
    {
      State(classes, buckets)
    }

    method Classify(group: string, peerClass: nat)
      modifies this
      ensures ClassOf(Value(), group) == peerClass
      ensures forall g | g != group :: ClassOf(Value(), g) == ClassOf(old(Value()), g)
      ensures group in classes <==> peerClass != Unknown
      ensures buckets == old(buckets) && Value() == SetClass(old(Value()), group, peerClass)
    {
      if peerClass == Unknown {
        classes := classes - {group};
      } else {
        classes := classes[group := peerClass];
      }
    }

    /** Finds or makes the bucket and brings it up to date. */
    method RefillBucket(k: Key, now: real) returns (b: Bucket)
      requires Limited(k)
      modifies this`buckets
      ensures buckets == Refilled(old(buckets), k, now) && b == buckets[k]
    {
      var rate := Of(k);
      if k !in buckets {
        buckets := buckets[k := Bucket(rate.burst, now)];
      }
      b := Refill(buckets[k], rate, now);
      buckets := buckets[k := b];
      assert buckets == Refilled(old(buckets), k, now);
    }

    /** Checked before anything is taken: the first scope whose bucket has no token, if any. */
    method CheckAll(ks: seq<Key>, now: real) returns (lacking: Option<Scope>)
      requires forall k | k in ks :: Limited(k)
      modifies this`buckets
      ensures (buckets, lacking) == Check(old(buckets), ks, now)
    {
      hide Refilled, Limited;
      assert ks[0..] == ks;
      for i := 0 to |ks|
        invariant forall k | k in ks[i..] :: Limited(k)
        invariant Check(old(buckets), ks, now) == Check(buckets, ks[i..], now)
      {
        assert ks[i..][0] == ks[i] && ks[i..][1..] == ks[i + 1..];
        var b := RefillBucket(ks[i], now);
        if b.tokens < 1.0 {
          return Some(ks[i].scope);
        }
      }
      return None;
    }

    method TakeAll(ks: seq<Key>, now: real)
      requires forall k | k in ks :: Limited(k)
      modifies this`buckets
      ensures buckets == Take(old(buckets), ks, now)
    {
      hide Refilled, Limited;
      assert ks[0..] == ks;
      for i := 0 to |ks|
        invariant forall k | k in ks[i..] :: Limited(k)
        invariant Take(old(buckets), ks, now) == Take(buckets, ks[i..], now)
      {
        assert ks[i..][0] == ks[i] && ks[i..][1..] == ks[i + 1..];
        var b := RefillBucket(ks[i], now);
        buckets := buckets[ks[i] := b.(tokens := b.tokens - 1.0)];
      }
    }

    /** Takes a token for the caller, or says why not. */
    method AdmitCall(caller: Caller, now: real) returns (a: Answer)
      modifies this`buckets
      ensures (Value(), a) == Admit(old(Value()), caller, now)
    {
      hide Check, Take, Matching, Limited;
      var peerClass := if caller.group in classes then classes[caller.group] else Unknown;
      if peerClass == Blocked {
        return IsBlocked;
      }
      var ks := Matching(peerClass, caller);
      var lacking := CheckAll(ks, now);
      if lacking.Some? {
        return NoToken(lacking.value);
      }
      TakeAll(ks, now);
      a := Admitted(|buckets| > MaxBuckets);
      if a.cleared {
        buckets := map[];
      }
    }
  }
}
