/**
 * Token buckets that are refilled when they are looked at. What counts is the level a bucket would
 * show at a time, whether or not it was written then. Times are in milliseconds, over the reals.
 */
module TokenBuckets {

  datatype Rate = Rate(burst: real, perMs: real)

  datatype Bucket = Bucket(tokens: real, updated: real)

  const MaxBuckets: nat := 0x10000

  predicate Sane(r: Rate) {
    r.burst >= 1.0 && r.perMs >= 0.0
  }

  function Min(a: real, b: real): real {
    if a < b then a else b
  }

  /** The tokens that time brings. */
  function Gain(r: Rate, since: real, until: real): real {
    (until - since) * r.perMs
  }

  function Refill(b: Bucket, r: Rate, now: real): Bucket {
    Bucket(Min(r.burst, b.tokens + Gain(r, b.updated, now)), now)
  }

  /** A bucket that is not there is made full. */
  function Find<K>(m: map<K, Bucket>, k: K, r: Rate, now: real): Bucket {
    if k in m then m[k] else Bucket(r.burst, now)
  }

  function Level<K>(m: map<K, Bucket>, k: K, r: Rate, time: real): real {
    Refill(Find(m, k, r, time), r, time).tokens
  }

  /** What is true of a bucket once it was made at or before `now`. */
  predicate Fits(b: Bucket, r: Rate, now: real) {
    0.0 <= b.tokens <= r.burst && b.updated <= now
  }

  lemma Gained(r: Rate, u: real, v: real, w: real)
    requires Sane(r) && u <= v <= w
    ensures Gain(r, u, w) == Gain(r, u, v) + Gain(r, v, w)
    ensures Gain(r, u, v) >= 0.0 && Gain(r, v, w) >= 0.0 && Gain(r, u, u) == 0.0
  {
  }

  /** Looking at a bucket does not change what it will show. */
  lemma RefillNeutral(b: Bucket, r: Rate, now: real, time: real)
    requires Sane(r) && Fits(b, r, now) && now <= time
    ensures Refill(Refill(b, r, now), r, time) == Refill(b, r, time)
    ensures Fits(Refill(b, r, now), r, now)
  {
    hide Gain;
    Gained(r, b.updated, now, time);
  }

  /** Levels rise by the rate at most, never fall by themselves, and stay within the burst. */
  lemma LevelLater<K>(m: map<K, Bucket>, k: K, r: Rate, now: real, time: real)
    requires Sane(r) && now <= time && (k in m ==> Fits(m[k], r, now))
    ensures 0.0 <= Level(m, k, r, now) <= Level(m, k, r, time) <= Level(m, k, r, now) + Gain(r, now, time)
    ensures Level(m, k, r, time) <= r.burst
  {
    hide Gain;
    if k in m {
      Gained(r, m[k].updated, now, time);
    } else {
      Gained(r, now, now, time);
      Gained(r, time, time, time);
    }
  }

  lemma RefillLevel<K>(m: map<K, Bucket>, k: K, r: Rate, now: real, time: real)
    requires Sane(r) && now <= time && (k in m ==> Fits(m[k], r, now))
    ensures Level(m[k := Refill(Find(m, k, r, now), r, now)], k, r, time) == Level(m, k, r, time)
    ensures Fits(Refill(Find(m, k, r, now), r, now), r, now)
  {
    hide Gain;
    var b := Find(m, k, r, now);
    RefillNeutral(b, r, now, time);
    if k !in m {
      Gained(r, now, now, time);
      Gained(r, time, time, time);
    }
  }

  /** A token taken is one less at that time, and the bucket can still refill to its burst. */
  lemma TakeLevel<K>(m: map<K, Bucket>, k: K, r: Rate, now: real)
    requires Sane(r) && (k in m ==> Fits(m[k], r, now)) && Level(m, k, r, now) >= 1.0
    ensures var b := Refill(Find(m, k, r, now), r, now);
            Fits(b.(tokens := b.tokens - 1.0), r, now) &&
            Level(m[k := b.(tokens := b.tokens - 1.0)], k, r, now) == Level(m, k, r, now) - 1.0
  {
    var b := Refill(Find(m, k, r, now), r, now);
    RefillNeutral(Find(m, k, r, now), r, now, now);
    hide Refill;
    RefillAtOnce(b.(tokens := b.tokens - 1.0), r);
  }

  lemma RefillAtOnce(b: Bucket, r: Rate)
    requires b.tokens <= r.burst
    ensures Refill(b, r, b.updated) == b
  {
    assert Gain(r, b.updated, b.updated) == 0.0;
  }
}
