/** How often one source may announce itself: a bucket of three tokens that gains one in ten seconds. */
module Announcements {
  import opened TokenBuckets

  const Reserve: Rate := Rate(3.0, 1.0 / 10000.0)

  type Table = map<string, Bucket>

  ghost predicate Valid(t: Table, now: real) {
    forall k | k in t :: Fits(t[k], Reserve, now)
  }

  predicate Clears(t: Table, source: string) {
    source !in t && |t| > MaxBuckets
  }

  /** A bucket is only forgotten to make room for a new one. */
  function Kept(t: Table, source: string): Table {
    if Clears(t, source) then map[] else t
  }

  function Allow(t: Table, source: string, now: real): (Table, bool) {
    var m := Kept(t, source);
    var b := Refill(Find(m, source, Reserve, now), Reserve, now);
    if b.tokens < 1.0 then (m[source := b], false) else (m[source := b.(tokens := b.tokens - 1.0)], true)
  }

  function Shows(t: Table, source: string, time: real): real {
    Level(t, source, Reserve, time)
  }

  lemma ReserveIsSane()
    ensures Sane(Reserve) && Reserve.burst == 3.0
  {
  }

  /** An announcement is let through exactly when its source shows a token, and only that source pays. */
  lemma AllowIff(t: Table, source: string, now: real)
    requires Valid(t, now)
    ensures var (t1, ok) := Allow(t, source, now);
            && Valid(t1, now) && (ok <==> Shows(t, source, now) >= 1.0)
            && Shows(t1, source, now) == Shows(t, source, now) - (if ok then 1.0 else 0.0)
            && (!Clears(t, source) ==> forall q: string, time: real | q != source :: Shows(t1, q, time) == Shows(t, q, time))
            && (!ok ==> forall time: real | now <= time :: Shows(t1, source, time) == Shows(t, source, time))
  {
    hide Refill, Sane;
    ReserveIsSane();
    var m := Kept(t, source);
    RefillLevel(m, source, Reserve, now, now);
    if Shows(m, source, now) >= 1.0 {
      TakeLevel(m, source, Reserve, now);
    }
    forall time: real | now <= time && !Allow(t, source, now).1
      ensures Shows(Allow(t, source, now).0, source, time) == Shows(t, source, time)
    {
      RefillLevel(m, source, Reserve, now, time);
    }
  }

  /** What a source shows, in numbers: a token for every ten seconds, up to three. */
  lemma ShowsIs(t: Table, source: string, time: real)
    ensures source in t ==>
              var filled := t[source].tokens + (time - t[source].updated) / 10000.0;
              (filled < 3.0 ==> Shows(t, source, time) == filled) && (filled >= 3.0 ==> Shows(t, source, time) == 3.0)
    ensures source !in t ==> Shows(t, source, time) == 3.0
  {
  }

  /** So a source that has been silent for ten seconds is heard, whatever went before. */
  lemma RestedIsHeard(t: Table, source: string, since: real, now: real)
    requires Valid(t, since) && now >= since + 10000.0
    ensures Allow(t, source, now).1
  {
    hide Allow, Shows;
    AllowIff(t, source, now);
    ShowsIs(t, source, now);
  }

  /** And one that has spent its reserve is not heard before. */
  lemma SpentIsNotHeard(source: string, now: real)
    requires 0.0 <= now
    ensures Allow(map[source := Bucket(0.0, 0.0)], source, now).1 <==> now >= 10000.0
  {
    hide Allow, Shows;
    var t: Table := map[source := Bucket(0.0, 0.0)];
    AllowIff(t, source, now);
    ShowsIs(t, source, now);
  }

  datatype Event = Event(source: string, now: real)

  function After(t: Table, es: seq<Event>): Table
    decreases |es|
  {
    if es == [] then t else After(Allow(t, es[0].source, es[0].now).0, es[1..])
  }

  function Allowed(t: Table, es: seq<Event>, source: string): nat
    decreases |es|
  {
    if es == [] then 0
    else
      var (t1, ok) := Allow(t, es[0].source, es[0].now);
      (if ok && es[0].source == source then 1 else 0) + Allowed(t1, es[1..], source)
  }

  function Cleared(t: Table, es: seq<Event>): nat
    decreases |es|
  {
    if es == [] then 0
    else (if Clears(t, es[0].source) then 1 else 0) + Cleared(Allow(t, es[0].source, es[0].now).0, es[1..])
  }

  predicate Ordered(es: seq<Event>, since: real, until: real)
    decreases |es|
  {
    if es == [] then since <= until else since <= es[0].now && Ordered(es[1..], es[0].now, until)
  }

  lemma StepBound(t: Table, e: Event, source: string, since: real)
    requires Valid(t, since) && since <= e.now
    ensures var (t1, ok) := Allow(t, e.source, e.now);
            && Valid(t1, e.now)
            && (if ok && e.source == source then 1.0 else 0.0) + Shows(t1, source, e.now) <=
               Shows(t, source, since) + (e.now - since) / 10000.0 + (if Clears(t, e.source) then 3.0 else 0.0)
  {
    hide Level, Allow, Sane;
    ReserveIsSane();
    AllowIff(t, e.source, e.now);
    LevelLater(t, source, Reserve, since, e.now);
    LevelLater(Allow(t, e.source, e.now).0, source, Reserve, e.now, e.now);
  }

  /** The announcements of one source that go through are bounded by its reserve, the time that passes, and the clears. */
  lemma {:induction false} RateBound(t: Table, es: seq<Event>, source: string, since: real, until: real)
    requires Valid(t, since) && Ordered(es, since, until)
    ensures Valid(After(t, es), until)
    ensures Allowed(t, es, source) as real + Shows(After(t, es), source, until) <=
            Shows(t, source, since) + (until - since) / 10000.0 + Cleared(t, es) as real * 3.0
    decreases |es|
  {
    hide Level, Allow, Clears, Sane;
    ReserveIsSane();
    if es == [] {
      LevelLater(t, source, Reserve, since, until);
    } else {
      StepBound(t, es[0], source, since);
      RateBound(Allow(t, es[0].source, es[0].now).0, es[1..], source, es[0].now, until);
    }
  }

  class AnnouncementRate {
    var buckets: Table

    constructor ()
      ensures buckets == map[]
    {
      buckets := map[];
    }

    method AllowSource(source: string, now: real) returns (ok: bool)
      modifies this
      ensures (buckets, ok) == Allow(old(buckets), source, now)
    {
      var b;
      if source !in buckets {
        if |buckets| > MaxBuckets {
          buckets := map[];
        }
        b := Bucket(3.0, now);
        buckets := buckets[source := b];
      } else {
        b := buckets[source];
      }
      b := Bucket(Min(3.0, b.tokens + (now - b.updated) / 10000.0), now);
      ok := b.tokens >= 1.0;
      if ok {
        b := b.(tokens := b.tokens - 1.0);
      }
      buckets := buckets[source := b];
      assert buckets == Allow(old(buckets), source, now).0;
    }
  }
}
