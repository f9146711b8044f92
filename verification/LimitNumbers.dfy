/** The limits in numbers: what the buckets hold, how fast they fill, and when a caller gets through again. */
module LimitNumbers {
  import opened Options
  import opened TokenBuckets
  import opened Limits

  /** What each class and scope allows in a minute, and at once; the rest is not limited. */
  lemma RatesInAMinute()
    ensures IsRate(Unknown, Peer, 6.0, 3.0) && IsRate(Unknown, Prefix, 30.0, 10.0) && IsRate(Unknown, Global, 300.0, 60.0)
    ensures IsRate(WithoutUrl, Peer, 30.0, 10.0) && IsRate(WithoutUrl, Prefix, 120.0, 30.0) && IsRate(WithoutUrl, Global, 1200.0, 200.0)
    ensures IsRate(WithUrl, Peer, 120.0, 30.0) && IsRate(WithUrl, Global, 6000.0, 1000.0) && RateOf(WithUrl, Prefix) == None
    ensures forall c: nat, scope: Scope | c > 2 :: RateOf(c, scope) == None
  {
  }

  predicate IsRate(peerClass: nat, scope: Scope, inAMinute: real, atOnce: real) {
    var r := RateOf(peerClass, scope);
    r.Some? && r.value.perMs * 60000.0 == inAMinute && r.value.burst == atOnce
  }

  /** Which buckets a call is counted against, in the order in which they are looked at. */
  lemma MatchingIs(group: string, peer: string, prefix: string)
    ensures Matching(Unknown, Caller(group, peer, Some(prefix))) == [Key(0, Peer, peer), Key(0, Prefix, prefix), Key(0, Global, "")]
    ensures Matching(WithoutUrl, Caller(group, peer, Some(prefix))) == [Key(1, Peer, peer), Key(1, Prefix, prefix), Key(1, Global, "")]
    ensures Matching(WithUrl, Caller(group, peer, Some(prefix))) == [Key(2, Peer, peer), Key(2, Global, "")]
    ensures Matching(Unknown, Caller(group, peer, None)) == [Key(0, Peer, peer), Key(0, Global, "")]
    ensures Matching(WithoutUrl, Caller(group, peer, None)) == [Key(1, Peer, peer), Key(1, Global, "")]
    ensures forall c: nat, caller: Caller | c > 2 :: Matching(c, caller) == []
  {
    forall c: nat, caller: Caller | c > 2
      ensures Matching(c, caller) == []
    {
      MatchingNone(c, caller);
    }
    MatchingAll(Unknown, Caller(group, peer, Some(prefix)));
    MatchingAll(WithoutUrl, Caller(group, peer, Some(prefix)));
    MatchingAll(Unknown, Caller(group, peer, None));
    MatchingAll(WithoutUrl, Caller(group, peer, None));
    MatchingUrl(Caller(group, peer, Some(prefix)));
    hide Matching;
  }

  lemma MatchingAll(c: nat, caller: Caller)
    requires c == 0 || c == 1
    ensures Matching(c, caller) ==
            if caller.prefix.Some? then [Key(c, Peer, caller.peer), Key(c, Prefix, caller.prefix.value), Key(c, Global, "")]
            else [Key(c, Peer, caller.peer), Key(c, Global, "")]
  {
  }

  lemma MatchingUrl(caller: Caller)
    ensures Matching(2, caller) == [Key(2, Peer, caller.peer), Key(2, Global, "")]
  {
  }

  lemma MatchingNone(c: nat, caller: Caller)
    requires c > 2
    ensures Matching(c, caller) == []
  {
  }

  /** A bucket shows what it held and what time has brought, up to its burst; one that is not there shows its burst. */
  lemma ShowsIs(t: Table, k: Key, time: real)
    requires Limited(k)
    ensures k in t ==>
              var filled := t[k].tokens + (time - t[k].updated) * Of(k).perMs;
              (filled < Of(k).burst ==> Shows(t, k, time) == filled) && (filled >= Of(k).burst ==> Shows(t, k, time) == Of(k).burst)
    ensures k !in t ==> Shows(t, k, time) == Of(k).burst
  {
    hide RateOf;
    if k !in t {
      EmptyShows(k, time);
    }
  }

  /** Left alone for as long as filling takes, a bucket is full. */
  lemma FullAgain(t: Table, k: Key, since: real, time: real)
    requires Valid(t, since) && Limited(k) && since <= time && (time - since) * Of(k).perMs >= Of(k).burst
    ensures Shows(t, k, time) == Of(k).burst
  {
    hide RateOf;
    ShowsIs(t, k, time);
    if k in t {
      Gained(Of(k), t[k].updated, since, time);
    }
  }

  /** No bucket takes longer than half a minute. */
  lemma HalfAMinute(k: Key)
    requires Limited(k)
    ensures 30000.0 * Of(k).perMs >= Of(k).burst >= 1.0
  {
  }

  lemma MoreTime(x: real, y: real, p: real)
    requires x <= y && p >= 0.0
    ensures x * p <= y * p
  {
  }

  lemma LongEnough(r: Rate, gap: real, since: real, now: real)
    requires Sane(r) && 30000.0 * r.perMs >= r.burst && gap == now - since && gap >= 30000.0
    ensures (now - since) * r.perMs >= r.burst
  {
    MoreTime(30000.0, gap, r.perMs);
    assert (now - since) * r.perMs == gap * r.perMs;
  }

  /** After half a minute without a call, whatever went before, every caller that is not blocked is admitted. */
  lemma RestedIsAdmitted(s: State, caller: Caller, since: real, now: real)
    requires Valid(s.buckets, since) && now >= since + 30000.0 && ClassOf(s, caller.group) != Blocked
    ensures Admit(s, caller, now).1.Admitted?
  {
    hide Admit, Matching, Level, RateOf;
    ValidLater(s.buckets, since, now);
    AdmitIff(s, caller, now);
    forall k | k in Matching(ClassOf(s, caller.group), caller)
      ensures Shows(s.buckets, k, now) >= 1.0
    {
      HalfAMinute(k);
      LongEnough(Of(k), now - since, since, now);
      FullAgain(s.buckets, k, since, now);
    }
  }

  /** A peer of an unknown community that has spent its tokens is refused for ten seconds, and then let through. */
  lemma EmptyPeerWaits(now: real)
    requires now >= 0.0
    ensures var k := Key(Unknown, Peer, "p");
            var a := Admit(State(map[], map[k := Bucket(0.0, 0.0)]), Caller("g", "p", None), now).1;
            if now < 10000.0 then a == NoToken(Peer) else a.Admitted?
  {
    var k := Key(Unknown, Peer, "p");
    var t: Table := map[k := Bucket(0.0, 0.0)];
    var s, caller := State(map[], t), Caller("g", "p", None);
    assert Limited(k) && Of(k) == PerMinute(6.0, 3.0);
    ShowsIs(t, k, now);
    var all := Key(Unknown, Global, "");
    assert Limited(all);
    ShowsIs(t, all, now);
    AdmitIff(s, caller, now);
    hide Admit, Level, RateOf;
    assert k in Matching(Unknown, caller) && all in Matching(Unknown, caller);
    forall q | q in Matching(Unknown, caller)
      ensures q == k || q == all
    {
    }
    assert Shows(t, k, now) >= 1.0 <==> now >= 10000.0;
  }
}
