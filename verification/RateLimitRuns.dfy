/** Runs of the rate limiter: what garbage collection keeps, and when it cannot be told from a limiter that never
    forgets. */
module RateLimitRuns {
  import opened TextLines
  import opened RateLimits

  /** Clock readings never go back. */
  predicate Timely<K>(events: seq<Event<K>>)
  {
    && (forall i | 0 <= i < |events| :: events[i].now >= 0.0)
    && (forall i, j | 0 <= i < j < |events| :: events[i].now <= events[j].now)
  }

  function Clock<K>(events: seq<Event<K>>): real
  {
    if events == [] then 0.0 else events[|events| - 1].now
  }

  function Run<K(==)>(c: Config, events: seq<Event<K>>): Gen<K, Limiter>
  {
    if events == [] then Gen(map[], map[], 0.0, SweepAge(c))
    else Step(c, Run(c, events[..|events| - 1]), events[|events| - 1])
  }

  // ---- What is kept ----

  predicate KeptSince<K(==)>(g: Gen<K, Limiter>, id: K, touched: real)
  {
    || id in g.front
    || (id in g.back && touched <= g.lastSwap)
    || (id !in g.back && touched + g.sweepAge <= g.lastSwap)
  }

  predicate Kept<K(==)>(c: Config, events: seq<Event<K>>, g: Gen<K, Limiter>, now: real)
  {
    && g.front.Keys !! g.back.Keys
    && g.sweepAge == SweepAge(c) && 0.0 <= g.lastSwap <= now
    && forall i | 0 <= i < |events| :: KeptSince(g, events[i].id, events[i].now)
  }

  lemma SweptKeeps<K>(c: Config, events: seq<Event<K>>, g: Gen<K, Limiter>, was: real, now: real)
    requires Kept(c, events, g, was) && was <= now
    requires forall i | 0 <= i < |events| :: events[i].now <= was
    ensures Kept(c, events, Rotated(g, now), now)
  {
  }

  lemma TouchKeeps<K>(g: Gen<K, Limiter>, id: K, v: Limiter, other: K, touched: real)
    requires KeptSince(g, other, touched) && g.front.Keys !! g.back.Keys
    ensures var h := Stored(Promote(g, id), id, v);
            && KeptSince(h, other, touched) && id in h.front && h.front.Keys !! h.back.Keys
            && Find(h, other) == if other == id then Some(v) else Find(g, other)
  {
  }

  lemma {:induction false} RunIsKept<K>(c: Config, events: seq<Event<K>>)
    requires Timely(events)
    ensures Kept(c, events, Run(c, events), Clock(events))
  {
    hide React, KeptSince, SweepAge, Promote, Stored;
    if events != [] {
      var n := |events| - 1;
      var before, e := events[..n], events[n];
      RunIsKept(c, before);
      var g := Run(c, before);
      SweptKeeps(c, before, g, Clock(before), e.now);
      var v := React(c, Limited(c, g, e), e).0;
      StepShape(c, g, e, v);
      forall i | 0 <= i < n ensures KeptSince(Run(c, events), events[i].id, events[i].now) {
        assert events[i] == before[i];
        TouchKeeps(Swept(g, e), e.id, v, events[i].id, events[i].now);
      }
      TouchedIsKept(Run(c, events), e.id, e.now);
    }
  }

  lemma StepShape<K>(c: Config, g: Gen<K, Limiter>, e: Event<K>, v: Limiter)
    requires g.front.Keys !! g.back.Keys
    requires v == React(c, Limited(c, g, e), e).0
    ensures var h := Step(c, g, e);
            && h == Stored(Promote(Swept(g, e), e.id), e.id, v)
            && h.front.Keys !! h.back.Keys && e.id in h.front
            && h.lastSwap == Swept(g, e).lastSwap && h.sweepAge == g.sweepAge
  {
  }

  lemma TouchedIsKept<K>(g: Gen<K, Limiter>, id: K, touched: real)
    requires id in g.front
    ensures KeptSince(g, id, touched)
  {
  }

  /** A limiter touched at some time is found at every time before that time plus the sweep age, and no identifier is
      ever in both generations. */
  lemma TouchedIsFound<K>(c: Config, events: seq<Event<K>>, i: nat, now: real)
    requires Timely(events) && i < |events|
    requires Clock(events) <= now < events[i].now + SweepAge(c)
    ensures var g := Rotated(Run(c, events), now);
            Find(g, events[i].id).Some? && g.front.Keys !! g.back.Keys
  {
    RunIsKept(c, events);
    SweptKeeps(c, events, Run(c, events), Clock(events), now);
    assert KeptSince(Rotated(Run(c, events), now), events[i].id, events[i].now);
  }

  // ---- Blocks ----

  predicate BlocksEnd<K>(g: Gen<K, Limiter>, now: real)
  {
    && g.lastSwap <= now
    && (forall k | k in g.front :: g.front[k].blockUntil <= now + g.sweepAge / 2.0)
    && (forall k | k in g.back :: g.back[k].blockUntil <= g.lastSwap + g.sweepAge / 2.0)
  }

  lemma ReactBlocks<K>(c: Config, v: Limiter, e: Event<K>)
    ensures React(c, v, e).0.blockUntil <= e.now + SweepAge(c) / 2.0 || React(c, v, e).0.blockUntil == v.blockUntil
  {
  }

  lemma SweptBlocksEnd<K>(g: Gen<K, Limiter>, was: real, now: real)
    requires BlocksEnd(g, was) && was <= now && g.sweepAge >= 0.0
    ensures BlocksEnd(g, now) && BlocksEnd(Rotated(g, now), now)
  {
  }

  lemma StoredBlocksEnd<K>(g: Gen<K, Limiter>, id: K, v: Limiter, now: real)
    requires BlocksEnd(g, now) && v.blockUntil <= now + g.sweepAge / 2.0 && g.sweepAge >= 0.0
    ensures BlocksEnd(Stored(Promote(g, id), id, v), now)
  {
  }

  lemma {:induction false} RunBlocksEnd<K>(c: Config, events: seq<Event<K>>)
    requires Timely(events) && Sane(c)
    ensures BlocksEnd(Run(c, events), Clock(events)) && Run(c, events).sweepAge == SweepAge(c)
  {
    hide React, SweepAge, Stored, Promote;
    if events != [] {
      var n := |events| - 1;
      var before, e := events[..n], events[n];
      RunBlocksEnd(c, before);
      var g := Run(c, before);
      SweptBlocksEnd(g, Clock(before), e.now);
      ReactBlocks(c, Limited(c, g, e), e);
      StoredBlocksEnd(Swept(g, e), e.id, React(c, Limited(c, g, e), e).0, e.now);
      KeepsSweepAge(Swept(g, e), e.id, React(c, Limited(c, g, e), e).0);
    }
  }

  lemma KeepsSweepAge<K>(g: Gen<K, Limiter>, id: K, v: Limiter)
    ensures Stored(Promote(g, id), id, v).sweepAge == g.sweepAge
  {
  }

  /** No sweep drops a limiter whose block has not run out. */
  lemma BlocksAreRemembered<K>(c: Config, events: seq<Event<K>>, id: K, now: real)
    requires Timely(events) && Sane(c) && Clock(events) <= now
    requires Find(Run(c, events), id).Some? && now < Find(Run(c, events), id).value.blockUntil
    ensures Find(Rotated(Run(c, events), now), id) == Find(Run(c, events), id)
  {
    RunBlocksEnd(c, events);
    RunIsKept(c, events);
  }

  // ---- A limiter that never forgets ----

  function Lookup<K(==)>(m: map<K, Limiter>, id: K): Option<Limiter>
  {
    if id in m then Some(m[id]) else None
  }

  function Ideal<K(==)>(c: Config, events: seq<Event<K>>): map<K, Limiter>
  {
    if events == [] then map[]
    else
      var m, e := Ideal(c, events[..|events| - 1]), events[|events| - 1];
      m[e.id := React(c, OrFresh(c, Lookup(m, e.id)), e).0]
  }

  function Answer<K(==)>(c: Config, events: seq<Event<K>>): Option<Reason>
    requires events != []
  {
    var e := events[|events| - 1];
    React(c, Limited(c, Run(c, events[..|events| - 1]), e), e).1
  }

  function IdealAnswer<K(==)>(c: Config, events: seq<Event<K>>): Option<Reason>
    requires events != []
  {
    var e := events[|events| - 1];
    React(c, OrFresh(c, Lookup(Ideal(c, events[..|events| - 1]), e.id)), e).1
  }

  /** A request by an identifier that is not blocked and whose bad-operation tokens are exactly used up: it is answered
      with whatever reason was stored last, or with none. */
  predicate AtZero<K>(c: Config, v: Limiter, e: Event<K>)
  {
    !e.flag && v.blockUntil <= e.now && AuthTokens(c, v, e.now) <= 0.0
  }

  predicate Read(v: Limiter, now: real)
  {
    v.authLimit.last <= now && v.rateLimit.last <= now
  }

  /** The two limiters cannot be told apart from now on, except by a stale reason. */
  predicate Same(c: Config, v: Limiter, w: Limiter, now: real)
  {
    && Read(v, now) && Read(w, now)
    && AuthTokens(c, v, now) == AuthTokens(c, w, now) && RateTokens(c, v, now) == RateTokens(c, w, now)
    && ((v.blockUntil == w.blockUntil && v.blockReason == w.blockReason) ||
        (v.blockUntil <= now && w.blockUntil <= now))
  }

  lemma SameLater(c: Config, v: Limiter, w: Limiter, t: real, u: real)
    requires Sane(c) && Same(c, v, w, t) && t <= u
    ensures Same(c, v, w, u)
  {
    hide TokensAt;
    var a, b := c.attemptsPerSecond as real, c.badAuthLimit as real;
    TokensLater(v.authLimit, 1.0 / 60.0, b, t, u);
    TokensLater(w.authLimit, 1.0 / 60.0, b, t, u);
    TokensLater(v.rateLimit, a, a, t, u);
    TokensLater(w.rateLimit, a, a, t, u);
  }

  lemma SpentTokens(b: Bucket, rate: real, burst: real, now: real)
    requires TokensAt(b, rate, burst, now) >= 1.0
    ensures TokensAt(Spend(b, rate, burst, now), rate, burst, now) == TokensAt(b, rate, burst, now) - 1.0
  {
  }

  lemma SameReact<K>(c: Config, v: Limiter, w: Limiter, e: Event<K>)
    requires Sane(c) && Same(c, v, w, e.now)
    ensures Same(c, React(c, v, e).0, React(c, w, e).0, e.now)
    ensures React(c, v, e).1 != React(c, w, e).1 <==> AtZero(c, v, e) && v.blockReason != w.blockReason
  {
    hide TokensAt;
  }

  /** What holds of a limiter that was last touched at `touched`. */
  predicate Bounded(c: Config, v: Limiter, touched: real)
  {
    && Read(v, touched) && v.authLimit.tokens >= 0.0 && v.rateLimit.tokens >= 0.0
    && v.blockUntil <= touched + SweepAge(c) / 2.0
  }

  lemma ReactBounded<K>(c: Config, v: Limiter, e: Event<K>, was: real)
    requires Bounded(c, v, was) && was <= e.now
    ensures Bounded(c, React(c, v, e).0, e.now)
  {
  }

  lemma FullTokens(b: Bucket, rate: real, burst: real, now: real)
    requires b.last <= now && 0.0 <= rate && b.tokens + Gain(now - b.last, rate) >= burst
    ensures TokensAt(b, rate, burst, now) == burst
  {
  }

  lemma FreshTokens(c: Config, now: real)
    requires Sane(c) && 0.0 <= now
    ensures AuthTokens(c, Fresh(c), now) == c.badAuthLimit as real
    ensures RateTokens(c, Fresh(c), now) == c.attemptsPerSecond as real
  {
  }

  /** A limiter that was not touched for a sweep age is as good as a new one. */
  lemma FreshIsSame(c: Config, w: Limiter, touched: real, now: real)
    requires Sane(c) && Refills(c) && Bounded(c, w, touched)
    requires 0.0 <= touched && touched + SweepAge(c) <= now
    ensures Same(c, Fresh(c), w, now)
  {
    var a, age := c.attemptsPerSecond as real, SweepAge(c);
    FreshTokens(c, now);
    GainGrows(age, now - w.authLimit.last, 1.0 / 60.0);
    GainGrows(1.0, now - w.rateLimit.last, a);
    assert Gain(1.0, a) == a && Gain(age, 1.0 / 60.0) == age / 60.0;
    FullTokens(w.authLimit, 1.0 / 60.0, c.badAuthLimit as real, now);
    FullTokens(w.rateLimit, a, a, now);
  }

  /** The last event of an identifier, if it had any. */
  function LastTouch<K(==)>(events: seq<Event<K>>, id: K): (j: int)
    ensures -1 <= j < |events| && (j >= 0 ==> events[j].id == id)
    ensures forall i | j < i < |events| :: events[i].id != id
  {
    var n := |events| - 1;
    if n < 0 || events[n].id == id then n else LastTouch(events[..n], id)
  }

  predicate Agrees<K(==)>(c: Config, events: seq<Event<K>>, g: Gen<K, Limiter>, m: map<K, Limiter>, now: real, id: K)
  {
    && (id in m <==> LastTouch(events, id) >= 0)
    && (id in m ==> Bounded(c, m[id], events[LastTouch(events, id)].now))
    && (Find(g, id).Some? ==> id in m && Same(c, Find(g, id).value, m[id], now))
  }

  /** What the limiter of an identifier is when its next event comes. */
  lemma SameLimited<K>(c: Config, events: seq<Event<K>>, g: Gen<K, Limiter>, m: map<K, Limiter>, was: real, e: Event<K>)
    requires Sane(c) && Refills(c)
    requires Kept(c, events, Swept(g, e), e.now)
    requires Agrees(c, events, g, m, was, e.id) && was <= e.now
    requires forall i | 0 <= i < |events| :: 0.0 <= events[i].now <= e.now
    ensures Same(c, Limited(c, g, e), OrFresh(c, Lookup(m, e.id)), e.now)
  {
    hide React, SweepAge, Same, Bounded, LastTouch, Refills;
    if Find(Swept(g, e), e.id).Some? {
      SameLater(c, Limited(c, g, e), m[e.id], was, e.now);
    } else if e.id in m {
      var j := LastTouch(events, e.id);
      assert KeptSince(Swept(g, e), events[j].id, events[j].now);
      FreshIsSame(c, m[e.id], events[j].now, e.now);
    } else {
      FreshIsRead(c, e.now);
    }
  }

  lemma FreshIsRead(c: Config, now: real)
    requires 0.0 <= now
    ensures Same(c, Fresh(c), Fresh(c), now)
  {
  }

  lemma FreshIsBounded(c: Config, now: real)
    requires 0.0 <= now && Sane(c)
    ensures Bounded(c, Fresh(c), now)
  {
  }

  lemma LastTouchStep<K>(events: seq<Event<K>>, id: K, n: nat)
    requires |events| == n + 1
    ensures LastTouch(events, id) == if events[n].id == id then n else LastTouch(events[..n], id)
  {
  }

  lemma {:induction false} RunAgrees<K>(c: Config, events: seq<Event<K>>, id: K)
    requires Timely(events) && Sane(c) && Refills(c)
    ensures Agrees(c, events, Run(c, events), Ideal(c, events), Clock(events), id)
    decreases |events|
  {
    hide React, SweepAge, Same, Bounded, LastTouch, Refills, Promote, Stored, KeptSince, Limited;
    if events != [] {
      var n := |events| - 1;
      var before, e := events[..n], events[n];
      var g, m := Run(c, before), Ideal(c, before);
      forall i | 0 <= i < n ensures 0.0 <= before[i].now <= e.now {
        assert before[i] == events[i];
      }
      RunIsKept(c, before);
      SweptKeeps(c, before, g, Clock(before), e.now);
      LastTouchStep(events, id, n);
      RunAgrees(c, before, id);
      TouchFinds(Swept(g, e), e.id, React(c, Limited(c, g, e), e).0, id);
      if e.id == id {
        SameLimited(c, before, g, m, Clock(before), e);
        SameReact(c, Limited(c, g, e), OrFresh(c, Lookup(m, id)), e);
        if id !in m { FreshIsBounded(c, e.now); }
        ReactBounded(c, OrFresh(c, Lookup(m, id)), e, if id in m then before[LastTouch(before, id)].now else e.now);
      } else {
        SweptFinds(g, e, id);
        if Find(Run(c, events), id).Some? {
          SameLater(c, Find(g, id).value, m[id], Clock(before), e.now);
        }
      }
    } else {
      LastTouchOfNone(events, id);
    }
  }

  lemma LastTouchOfNone<K>(events: seq<Event<K>>, id: K)
    requires events == []
    ensures LastTouch(events, id) == -1
  {
  }

  lemma SweptFinds<K>(g: Gen<K, Limiter>, e: Event<K>, id: K)
    requires g.front.Keys !! g.back.Keys
    ensures Find(Swept(g, e), id).Some? ==> Find(Swept(g, e), id) == Find(g, id)
  {
  }

  lemma TouchFinds<K>(g: Gen<K, Limiter>, id: K, v: Limiter, other: K)
    requires g.front.Keys !! g.back.Keys
    ensures Find(Stored(Promote(g, id), id, v), other) == if other == id then Some(v) else Find(g, other)
  {
  }

  /** What the last request of the run meets: the limiter found for its identifier, and the one of the limiter that
      never forgets. */
  function Met<K(==)>(c: Config, events: seq<Event<K>>): Limiter
    requires events != []
  {
    Limited(c, Run(c, events[..|events| - 1]), events[|events| - 1])
  }

  function IdealMet<K(==)>(c: Config, events: seq<Event<K>>): Limiter
    requires events != []
  {
    OrFresh(c, Lookup(Ideal(c, events[..|events| - 1]), events[|events| - 1].id))
  }

  /** The tokens are exactly used up and only one of the two limiters remembers the reason of an old block. */
  predicate StaleReason<K(==)>(c: Config, events: seq<Event<K>>)
    requires events != []
  {
    AtZero(c, Met(c, events), events[|events| - 1]) && Met(c, events).blockReason != IdealMet(c, events).blockReason
  }

  /** When the bad-operation bucket refills within a sweep age, an answer differs from that of a limiter that never
      forgets anything if and only if the identifier's tokens are exactly used up at that instant and the reasons
      stored for its last block differ. */
  lemma CollectionIsInvisible<K>(c: Config, events: seq<Event<K>>)
    requires Timely(events) && Sane(c) && Refills(c) && events != []
    ensures Answer(c, events) != IdealAnswer(c, events) <==> StaleReason(c, events)
  {
    hide React, SweepAge, Same, Bounded, LastTouch, Refills, KeptSince, Limited, AtZero;
    var n := |events| - 1;
    var before, e := events[..n], events[n];
    forall i | 0 <= i < n ensures 0.0 <= before[i].now <= e.now {
      assert before[i] == events[i];
    }
    RunIsKept(c, before);
    SweptKeeps(c, before, Run(c, before), Clock(before), e.now);
    RunAgrees(c, before, e.id);
    SameLimited(c, before, Run(c, before), Ideal(c, before), Clock(before), e);
    SameReact(c, Limited(c, Run(c, before), e), OrFresh(c, Lookup(Ideal(c, before), e.id)), e);
  }

  // ---- When the bucket does not refill in time ----

  function Flags<K>(id: K, now: real, n: nat): (e: seq<Event<K>>)
    ensures |e| == n && forall i | 0 <= i < n :: e[i] == Event(now, id, true)
  {
    if n == 0 then [] else Flags(id, now, n - 1) + [Event(now, id, true)]
  }

  function FlaggedTimes(c: Config, v: Limiter, now: real, n: nat): Limiter
  {
    if n == 0 then v else Flagged(c, FlaggedTimes(c, v, now, n - 1), now)
  }

  /** Flags of one identifier fold into its limiter, in both worlds. */
  lemma {:induction false} RunOfFlags<K>(c: Config, events: seq<Event<K>>, id: K, now: real, n: nat)
    requires n > 0
    ensures var g, h := Run(c, events), Run(c, events + Flags(id, now, n));
            && id in h.front && h.front[id] == FlaggedTimes(c, OrFresh(c, Find(g, id)), now, n)
            && h.lastSwap == g.lastSwap && h.sweepAge == g.sweepAge
    ensures Lookup(Ideal(c, events + Flags(id, now, n)), id)
         == Some(FlaggedTimes(c, OrFresh(c, Lookup(Ideal(c, events), id)), now, n))
  {
    hide Flagged;
    var e := Event(now, id, true);
    var before, all := events + Flags(id, now, n - 1), events + Flags(id, now, n);
    assert all[..|all| - 1] == before && all[|all| - 1] == e;
    if n > 1 {
      RunOfFlags(c, events, id, now, n - 1);
    } else {
      assert before == events;
      assert FlaggedTimes(c, OrFresh(c, Find(Run(c, events), id)), now, 0) == OrFresh(c, Find(Run(c, events), id));
      assert FlaggedTimes(c, OrFresh(c, Lookup(Ideal(c, events), id)), now, 0)
          == OrFresh(c, Lookup(Ideal(c, events), id));
    }
  }

  /** With a full bucket, as many flags as it holds only use it up. */
  lemma {:induction false} FullBucketAbsorbs(c: Config, v: Limiter, now: real, n: nat)
    requires Sane(c) && n <= c.badAuthLimit
    requires AuthTokens(c, v, now) == c.badAuthLimit as real
    ensures var w := FlaggedTimes(c, v, now, n);
            && w.blockUntil == v.blockUntil && w.blockReason == v.blockReason && w.rateLimit == v.rateLimit
            && AuthTokens(c, w, now) == (c.badAuthLimit - n) as real
            && (n > 0 ==> w.authLimit == Bucket((c.badAuthLimit - n) as real, now))
  {
    hide TokensAt;
    if n > 0 {
      FullBucketAbsorbs(c, v, now, n - 1);
      SpentTokens(FlaggedTimes(c, v, now, n - 1).authLimit, 1.0 / 60.0, c.badAuthLimit as real, now);
    }
  }

  /** With less than that in the bucket, the last of these flags leaves a block behind. */
  lemma {:induction false} ShortBucketBlocks(c: Config, v: Limiter, now: real, n: nat)
    requires Sane(c) && 0.0 <= AuthTokens(c, v, now)
    ensures var w := FlaggedTimes(c, v, now, n);
            && 0.0 <= AuthTokens(c, w, now)
            && (AuthTokens(c, w, now) == AuthTokens(c, v, now) - n as real
                || w == Blocked(w, TooManyBadOps(now + c.badAuthBlock as real)))
  {
    hide TokensAt;
    if n > 0 {
      ShortBucketBlocks(c, v, now, n - 1);
      var u := FlaggedTimes(c, v, now, n - 1);
      if AuthTokens(c, u, now) >= 1.0 {
        SpentTokens(u.authLimit, 1.0 / 60.0, c.badAuthLimit as real, now);
      }
    }
  }

  /** Flag some times, let two sweeps pass, use up the tokens and ask. */
  function Phase1<K>(c: Config, id: K, flags: nat): seq<Event<K>>
  {
    Flags(id, SweepAge(c), flags)
  }

  function Phase2<K>(c: Config, id: K, other: K, flags: nat): seq<Event<K>>
  {
    Phase1(c, id, flags) + [Event(SweepAge(c), other, false)] + [Event(2.0 * SweepAge(c), other, false)]
  }

  function Phase3<K>(c: Config, id: K, other: K, flags: nat): seq<Event<K>>
    requires Sane(c)
  {
    Phase2(c, id, other, flags) + Flags(id, 2.0 * SweepAge(c), c.badAuthLimit)
  }

  function LateRun<K>(c: Config, id: K, other: K): seq<Event<K>>
    requires Sane(c)
  {
    Phase3(c, id, other, c.badAuthLimit) + [Event(2.0 * SweepAge(c) + 0.5, id, false)]
  }

  /** After the second phase the limiter has forgotten the identifier, and the ideal one knows of the flags. */
  lemma Forgotten<K>(c: Config, id: K, other: K, flags: nat)
    requires Sane(c) && id != other && flags > 0
    ensures Find(Run(c, Phase2(c, id, other, flags)), id) == None &&
        Run(c, Phase2(c, id, other, flags)).lastSwap == 2.0 * SweepAge(c)
    ensures Lookup(Ideal(c, Phase2(c, id, other, flags)), id) == Some(FlaggedTimes(c, Fresh(c), SweepAge(c), flags))
  {
    hide SweepAge, React, FlaggedTimes, TokensAt;
    var age, p1 := SweepAge(c), Phase1(c, id, flags);
    var e1, e2 := Event(age, other, false), Event(2.0 * age, other, false);
    var events: seq<Event<K>> := [];
    assert events + p1 == p1;
    RunOfFlags(c, events, id, age, flags);
    var mid := p1 + [e1];
    assert mid[..|mid| - 1] == p1 && mid[|mid| - 1] == e1;
    var g1 := Run(c, p1);
    assert g1.lastSwap == 0.0 && g1.sweepAge == age;
    var g2 := Run(c, mid);
    assert Swept(g1, e1).front == map[] && Swept(g1, e1).lastSwap == age;
    assert id !in g2.front && g2.lastSwap == age && g2.sweepAge == age;
    var all := Phase2(c, id, other, flags);
    assert all == mid + [e2] && all[..|all| - 1] == mid && all[|all| - 1] == e2;
    assert Swept(g2, e2).front == map[] && id !in Swept(g2, e2).back;
  }

  lemma ShortBucketEndsBlocked(c: Config, v: Limiter, now: real)
    requires Sane(c) && 0.0 <= AuthTokens(c, v, now) < c.badAuthLimit as real
    ensures var w := FlaggedTimes(c, v, now, c.badAuthLimit);
            w == Blocked(w, TooManyBadOps(now + c.badAuthBlock as real))
  {
    hide AuthTokens, FlaggedTimes;
    ShortBucketBlocks(c, v, now, c.badAuthLimit);
  }

  lemma FullBucketIsUsedUp(c: Config, now: real)
    requires Sane(c) && 0.0 <= now
    ensures var w := FlaggedTimes(c, Fresh(c), now, c.badAuthLimit);
            w.blockUntil == 0.0 && w.blockReason == None && w.rateLimit == Fresh(c).rateLimit &&
                w.authLimit == Bucket(0.0, now)
  {
    hide AuthTokens, FlaggedTimes;
    FreshTokens(c, now);
    FullBucketAbsorbs(c, Fresh(c), now, c.badAuthLimit);
  }

  /** After the third phase the limiter thinks the tokens are used up, and knows of no block. */
  lemma FlaggedAgain<K>(c: Config, id: K, other: K, flags: nat)
    requires Sane(c) && id != other && flags > 0
    ensures var g := Run(c, Phase3(c, id, other, flags));
            && id in g.front && g.front[id].blockUntil == 0.0 && g.front[id].blockReason == None
            && g.front[id].rateLimit == Fresh(c).rateLimit && g.front[id].authLimit == Bucket(0.0, 2.0 * SweepAge(c))
            && g.lastSwap == 2.0 * SweepAge(c) && g.sweepAge == SweepAge(c)
  {
    hide SweepAge, FlaggedTimes, AuthTokens, Phase2, Ideal, Fresh, Flags, Find, Run;
    var t, p2 := 2.0 * SweepAge(c), Phase2(c, id, other, flags);
    Forgotten(c, id, other, flags);
    RunOfFlags(c, p2, id, t, c.badAuthLimit);
    FullBucketIsUsedUp(c, t);
    KeepsAge(c, p2);
  }

  lemma {:induction false} KeepsAge<K>(c: Config, events: seq<Event<K>>)
    ensures Run(c, events).sweepAge == SweepAge(c)
  {
    hide React, SweepAge;
    if events != [] { KeepsAge(c, events[..|events| - 1]); }
  }

  /** The limiter that never forgets has blocked the identifier by then. */
  lemma IdealBlocks<K>(c: Config, id: K, other: K)
    requires Sane(c) && !Refills(c) && id != other
    ensures var w := Lookup(Ideal(c, Phase3(c, id, other, c.badAuthLimit)), id);
            w.Some? && w.value == Blocked(w.value, TooManyBadOps(2.0 * SweepAge(c) + c.badAuthBlock as real))
  {
    hide SweepAge, FlaggedTimes, AuthTokens, Phase2, Run, Ideal, Refills, Flags, Lookup, Fresh;
    var age, p2 := SweepAge(c), Phase2(c, id, other, c.badAuthLimit);
    Forgotten(c, id, other, c.badAuthLimit);
    FullBucketIsUsedUp(c, age);
    var v := Lookup(Ideal(c, p2), id).value;
    RunOfFlags(c, p2, id, 2.0 * age, c.badAuthLimit);
    ForgottenTokens(c, v, age);
    ShortBucketEndsBlocked(c, v, 2.0 * age);
  }

  /** If the bucket does not refill within a sweep age, some run has a request allowed that a limiter which never
      forgets would refuse because of a block. */
  lemma CollectionIsVisible<K>(c: Config, id: K, other: K)
    requires Sane(c) && !Refills(c) && id != other
    ensures var events := LateRun(c, id, other);
            && Timely(events) && Answer(c, events) == None
            && IdealAnswer(c, events) == Some(TooManyBadOps(2.0 * SweepAge(c) + c.badAuthBlock as real))
            && !AtZero(c, Met(c, events), events[|events| - 1])
  {
    LateRunIsTimely(c, id, other);
    FlaggedAgain(c, id, other, c.badAuthLimit);
    IdealBlocks(c, id, other);
    hide SweepAge, TokensAt, Phase3, Run, Ideal, Flagged, Swept, Timely;
    var t, p3 := 2.0 * SweepAge(c), Phase3(c, id, other, c.badAuthLimit);
    var events := LateRun(c, id, other);
    var n := |events| - 1;
    assert events[..n] == p3 && events[n] == Event(t + 0.5, id, false);
    var gone := Run(c, p3).front[id];
    JustTouched(Run(c, p3), events[n], id, gone, t);
    HalfASecondLater(c, gone, t);
  }

  // ---- The exception ----

  /** One flag too many leaves a block behind, whose reason the collection forgets; then the tokens are used up again
      and the identifier asks at that very instant. */
  function StaleRun<K>(c: Config, id: K, other: K): seq<Event<K>>
    requires Sane(c)
  {
    Phase3(c, id, other, c.badAuthLimit + 1) + [Event(2.0 * SweepAge(c), id, false)]
  }

  lemma OneFlagTooMany(c: Config, now: real)
    requires Sane(c) && 0.0 <= now
    ensures var w := FlaggedTimes(c, Fresh(c), now, c.badAuthLimit + 1);
            && w.authLimit == Bucket(0.0, now) && w.rateLimit == Fresh(c).rateLimit
            && w.blockReason == Some(TooManyBadOps(now + c.badAuthBlock as real))
            && w.blockUntil == now + c.badAuthBlock as real
  {
    FullBucketIsUsedUp(c, now);
    hide Fresh;
    var v := FlaggedTimes(c, Fresh(c), now, c.badAuthLimit);
    assert AuthTokens(c, v, now) == 0.0;
    assert FlaggedTimes(c, Fresh(c), now, c.badAuthLimit + 1) == Flagged(c, v, now);
  }

  /** The limiter that never forgets has used up the tokens too, and still has the reason. */
  lemma IdealRemembers<K>(c: Config, id: K, other: K)
    requires Sane(c) && Refills(c) && id != other
    ensures var w := Lookup(Ideal(c, Phase3(c, id, other, c.badAuthLimit + 1)), id);
            && w.Some? && w.value.authLimit == Bucket(0.0, 2.0 * SweepAge(c))
            && w.value.blockUntil <= 2.0 * SweepAge(c)
            && w.value.blockReason == Some(TooManyBadOps(SweepAge(c) + c.badAuthBlock as real))
  {
    hide FlaggedTimes, AuthTokens, Phase2, Run, Ideal, Refills, Flags, Lookup, Fresh;
    var age, p2 := SweepAge(c), Phase2(c, id, other, c.badAuthLimit + 1);
    Forgotten(c, id, other, c.badAuthLimit + 1);
    OneFlagTooMany(c, age);
    var v := Lookup(Ideal(c, p2), id).value;
    RunOfFlags(c, p2, id, 2.0 * age, c.badAuthLimit);
    RefilledTokens(c, v, age);
    FullBucketAbsorbs(c, v, 2.0 * age, c.badAuthLimit);
  }

  lemma RefilledTokens(c: Config, w: Limiter, age: real)
    requires Sane(c) && age == SweepAge(c) && Refills(c)
    requires w.authLimit == Bucket(0.0, age)
    ensures AuthTokens(c, w, 2.0 * age) == c.badAuthLimit as real
  {
    FullTokens(w.authLimit, 1.0 / 60.0, c.badAuthLimit as real, 2.0 * age);
  }

  /** The exception is real, whatever the settings are: this run allows a request that the limiter which never forgets
      refuses, for the reason of a block that has long run out. */
  lemma StaleReasonShows<K>(c: Config, id: K, other: K)
    requires Sane(c) && Refills(c) && id != other
    ensures var events := StaleRun(c, id, other);
            && Timely(events) && Answer(c, events) == None
            && IdealAnswer(c, events) == Some(TooManyBadOps(SweepAge(c) + c.badAuthBlock as real))
            && StaleReason(c, events)
  {
    StaleRunIsTimely(c, id, other);
    FlaggedAgain(c, id, other, c.badAuthLimit + 1);
    IdealRemembers(c, id, other);
    hide SweepAge, Phase3, Run, Ideal, Flagged, Swept, Timely, Refills;
    var t, p3 := 2.0 * SweepAge(c), Phase3(c, id, other, c.badAuthLimit + 1);
    var events := StaleRun(c, id, other);
    var n := |events| - 1;
    assert events[..n] == p3 && events[n] == Event(t, id, false);
    JustTouched(Run(c, p3), events[n], id, Run(c, p3).front[id], t);
    UsedUpTokens(c, Run(c, p3).front[id], t);
    UsedUpTokens(c, Lookup(Ideal(c, p3), id).value, t);
  }

  lemma UsedUpTokens(c: Config, v: Limiter, t: real)
    requires Sane(c) && v.authLimit == Bucket(0.0, t)
    ensures AuthTokens(c, v, t) == 0.0
  {
  }

  lemma StaleRunIsTimely<K>(c: Config, id: K, other: K)
    requires Sane(c)
    ensures Timely(StaleRun(c, id, other))
  {
  }

  lemma ForgottenTokens(c: Config, w: Limiter, age: real)
    requires Sane(c) && age == SweepAge(c) && !Refills(c)
    requires w.authLimit == Bucket(0.0, age)
    ensures 0.0 <= AuthTokens(c, w, 2.0 * age) < c.badAuthLimit as real
  {
  }

  /** Even a sweep at the last request keeps what was touched half a second before. */
  lemma JustTouched<K>(g: Gen<K, Limiter>, e: Event<K>, id: K, v: Limiter, t: real)
    requires id in g.front && g.front[id] == v
    ensures Find(Swept(g, e), id) == Some(v)
  {
  }

  lemma HalfASecondLater(c: Config, v: Limiter, t: real)
    requires Sane(c) && 0.0 <= t
    requires v.blockUntil == 0.0 && v.rateLimit == Fresh(c).rateLimit && v.authLimit == Bucket(0.0, t)
    ensures AuthTokens(c, v, t + 0.5) > 0.0 && RateTokens(c, v, t + 0.5) >= 1.0
  {
  }

  lemma LateRunIsTimely<K>(c: Config, id: K, other: K)
    requires Sane(c)
    ensures Timely(LateRun(c, id, other))
  {
  }

  /** Garbage collection shows in an answer exactly when the tokens are used up and a stale reason was forgotten. */
  ghost predicate ShowsOnlyStaleReasons<K(!new)>(c: Config)
  {
    forall events: seq<Event<K>> | Timely(events) && events != [] ::
      Answer(c, events) != IdealAnswer(c, events) <==> StaleReason(c, events)
  }

  ghost predicate Invisible<K(!new)>(c: Config)
  {
    forall events: seq<Event<K>> | Timely(events) && events != [] :: Answer(c, events) == IdealAnswer(c, events)
  }

  /** Garbage collection shows in stale reasons only if and only if the bad-operation limit, in minutes, fits into the
      sweep age; without that exception it is invisible under no settings at all. */
  lemma InvisibleIffRefills<K(!new)>(c: Config, id: K, other: K)
    requires Sane(c) && id != other
    ensures ShowsOnlyStaleReasons<K>(c) <==> Refills(c)
    ensures !Invisible<K>(c)
  {
    hide Timely, Answer, IdealAnswer, AtZero, Met, IdealMet, Refills, LateRun, StaleRun;
    if Refills(c) {
      forall events: seq<Event<K>> | Timely(events) && events != []
        ensures Answer(c, events) != IdealAnswer(c, events) <==> StaleReason(c, events)
      {
        CollectionIsInvisible(c, events);
      }
      StaleReasonShows(c, id, other);
      RunsAreLong(c, id, other);
    } else {
      CollectionIsVisible(c, id, other);
      RunsAreLong(c, id, other);
    }
  }

  lemma RunsAreLong<K>(c: Config, id: K, other: K)
    requires Sane(c)
    ensures LateRun(c, id, other) != [] && StaleRun(c, id, other) != []
  {
  }

  /** The default settings are on the safe side. */
  lemma DefaultsRefill(c: Config)
    requires c.badAuthLimit <= 0 && c.badAuthBlock <= 0
    ensures Refills(WithDefaults(c))
  {
  }
}
