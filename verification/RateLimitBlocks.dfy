/** What a refusal promises: until when it lasts, and what happens to many requests at one instant. */
module RateLimitBlocks {
  import opened TextLines
  import opened RateLimits
  import opened RateLimitRuns
  import opened RateLimitBounds

  // ---- Many requests at one instant ----

  function Asks<K>(id: K, now: real, n: nat): (e: seq<Event<K>>)
    ensures |e| == n && forall i | 0 <= i < n :: e[i] == Event(now, id, false)
  {
    if n == 0 then [] else Asks(id, now, n - 1) + [Event(now, id, false)]
  }

  function AskedTimes(c: Config, v: Limiter, now: real, n: nat): Limiter
  {
    if n == 0 then v else Asked(c, AskedTimes(c, v, now, n - 1), now).0
  }

  /** What the next request at that time meets. */
  function Next<K(==)>(c: Config, events: seq<Event<K>>, id: K, now: real): Limiter
  {
    OrFresh(c, Find(Rotated(Run(c, events), now), id))
  }

  /** One request. */
  lemma OneAsk<K>(c: Config, g: Gen<K, Limiter>, id: K, now: real)
    requires g.sweepAge > 0.0
    ensures var s, h := Rotated(g, now), Step(c, g, Event(now, id, false));
            && id in h.front && h.front[id] == Asked(c, OrFresh(c, Find(s, id)), now).0
            && h.lastSwap == s.lastSwap && h.sweepAge == g.sweepAge && now - h.lastSwap < h.sweepAge
            && Rotated(h, now) == h
  {
    hide Asked;
  }

  lemma LastAnswer<K>(c: Config, before: seq<Event<K>>, e: Event<K>)
    ensures Run(c, before + [e]) == Step(c, Run(c, before), e)
    ensures Answer(c, before + [e]) == React(c, Limited(c, Run(c, before), e), e).1
  {
    var all := before + [e];
    assert all[..|all| - 1] == before && all[|all| - 1] == e;
  }

  /** Requests of one identifier at one instant fold into its limiter. */
  lemma {:induction false} RunOfAsks<K>(c: Config, events: seq<Event<K>>, id: K, now: real, n: nat)
    requires Sane(c) && n > 0
    ensures var h := Run(c, events + Asks(id, now, n));
            && id in h.front && h.front[id] == AskedTimes(c, Next(c, events, id, now), now, n)
            && h.sweepAge == SweepAge(c) && Rotated(h, now) == h
    ensures Answer(c, events + Asks(id, now, n))
         == Asked(c, AskedTimes(c, Next(c, events, id, now), now, n - 1), now).1
  {
    hide Asked, SweepAge, Step, Run, Answer, Rotated;
    var e := Event(now, id, false);
    var before := events + Asks(id, now, n - 1);
    assert events + Asks(id, now, n) == before + [e];
    KeepsAge(c, before);
    AgeIsPositive(c);
    LastAnswer(c, before, e);
    OneAsk(c, Run(c, before), id, now);
    if n > 1 {
      RunOfAsks(c, events, id, now, n - 1);
    } else {
      assert before == events;
    }
  }

  lemma AgeIsPositive(c: Config)
    requires Sane(c)
    ensures 0.0 < SweepAge(c)
  {
  }

  /** With bad-operation tokens left and a full bucket, the rate lets through as many as it holds and then blocks. */
  lemma {:induction false} AskedFromFull(c: Config, v: Limiter, now: real, n: nat)
    requires Sane(c) && v.blockUntil <= now && AuthTokens(c, v, now) > 0.0
    requires RateTokens(c, v, now) == c.attemptsPerSecond as real
    ensures var w, until := AskedTimes(c, v, now, n), now + c.attemptsBlock as real;
            && w.authLimit == v.authLimit
            && (n <= c.attemptsPerSecond ==>
                  w.blockUntil == v.blockUntil && RateTokens(c, w, now) == (c.attemptsPerSecond - n) as real)
            && (n > c.attemptsPerSecond ==>
                  w.blockUntil == until && w.blockReason == Some(TooManyRequests(until)))
            && (n >= c.attemptsPerSecond ==> w.rateLimit == Bucket(0.0, now))
  {
    hide TokensAt;
    if n > 0 {
      AskedFromFull(c, v, now, n - 1);
      if n <= c.attemptsPerSecond {
        SpentTokens(AskedTimes(c, v, now, n - 1).rateLimit, c.attemptsPerSecond as real, c.attemptsPerSecond as real,
                    now);
      }
    }
  }

  /** A limiter that refuses, or that has used up its bad-operation tokens, stays as it is. */
  lemma {:induction false} AskedUnchanged(c: Config, v: Limiter, now: real, n: nat)
    requires now < v.blockUntil || AuthTokens(c, v, now) <= 0.0
    ensures AskedTimes(c, v, now, n) == v
  {
    hide TokensAt;
    if n > 0 { AskedUnchanged(c, v, now, n - 1); }
  }

  /** With a full bucket, more flags than it holds end in a block. */
  lemma {:induction false} TooManyFlags(c: Config, v: Limiter, now: real, n: nat)
    requires Sane(c) && n > c.badAuthLimit && AuthTokens(c, v, now) == c.badAuthLimit as real
    ensures var w, until := FlaggedTimes(c, v, now, n), now + c.badAuthBlock as real;
            && w.authLimit == Bucket(0.0, now) && w.rateLimit == v.rateLimit
            && w.blockUntil == until && w.blockReason == Some(TooManyBadOps(until))
  {
    FullBucketAbsorbs(c, v, now, c.badAuthLimit);
    EmptyTokens(c, now);
    hide TokensAt;
    if n > c.badAuthLimit + 1 { TooManyFlags(c, v, now, n - 1); }
  }

  lemma EmptyTokens(c: Config, now: real)
    requires Sane(c)
    ensures TokensAt(Bucket(0.0, now), 1.0 / 60.0, c.badAuthLimit as real, now) == 0.0
  {
  }

  lemma FlagsOfNew<K>(c: Config, events: seq<Event<K>>, id: K, now: real, f: nat)
    requires Sane(c) && Timely(events) && Clock(events) <= now && forall i | 0 <= i < |events| :: events[i].id != id
    ensures Next(c, events + Flags(id, now, f), id, now) == FlaggedTimes(c, Fresh(c), now, f)
  {
    hide FlaggedTimes, Run, Passed, Room, Flags, Limits, Fresh;
    NewIsUnknown(c, events, id, now);
    if f > 0 {
      RunOfFlags(c, events, id, now, f);
    } else {
      assert events + Flags(id, now, f) == events;
      NoFlags(c, now);
    }
  }

  lemma NoFlags(c: Config, now: real)
    ensures FlaggedTimes(c, Fresh(c), now, 0) == Fresh(c)
  {
  }

  lemma NewIsUnknown<K>(c: Config, events: seq<Event<K>>, id: K, now: real)
    requires Sane(c) && Timely(events) && forall i | 0 <= i < |events| :: events[i].id != id
    ensures Find(Run(c, events), id) == None && Find(Rotated(Run(c, events), now), id) == None
  {
    hide Run, Passed, Room;
    RunLimits(c, events, id, now);
    RunIsKept(c, events);
  }

  /** An identifier is seen for the first time, flagged some times and asks again and again, all at one instant: too
      many flags refuse it at once, as many as the limit let everything pass, and below that the rate decides. */
  lemma BurstOfNew<K>(c: Config, events: seq<Event<K>>, id: K, now: real, f: nat, n: nat)
    requires Sane(c) && Timely(events) && 0.0 <= now && Clock(events) <= now && forall i | 0 <= i < |events| ::
        events[i].id != id
    ensures Answer(c, events + Flags(id, now, f) + Asks(id, now, n + 1))
         == if f > c.badAuthLimit then Some(TooManyBadOps(now + c.badAuthBlock as real))
            else if f == c.badAuthLimit || n < c.attemptsPerSecond then None
            else Some(TooManyRequests(now + c.attemptsBlock as real))
  {
    RunOfAsks(c, events + Flags(id, now, f), id, now, n + 1);
    FlagsOfNew(c, events, id, now, f);
    FreshTokens(c, now);
    hide Answer, Next, FlaggedTimes, TokensAt, Flags, Asks, AskedTimes, Run;
    var v := FlaggedTimes(c, Fresh(c), now, f);
    if f > c.badAuthLimit {
      TooManyFlags(c, Fresh(c), now, f);
      AskedUnchanged(c, v, now, n);
    } else {
      FullBucketAbsorbs(c, Fresh(c), now, f);
      if f == c.badAuthLimit {
        AskedUnchanged(c, v, now, n);
      } else {
        AskedFromFull(c, v, now, n);
      }
    }
  }

  // ---- When the rate does not limit ----

  lemma {:induction false} PassesUseTokens(c: Config, v: Limiter, now: real, n: nat)
    requires Sane(c) && v.blockUntil <= now && AuthTokens(c, v, now) > 0.0
    requires forall i | 0 <= i < n :: Asked(c, AskedTimes(c, v, now, i), now).1 == None
    ensures var w := AskedTimes(c, v, now, n);
            && w.blockUntil == v.blockUntil && w.authLimit == v.authLimit
            && RateTokens(c, w, now) == RateTokens(c, v, now) - n as real
  {
    hide TokensAt;
    if n > 0 {
      PassesUseTokens(c, v, now, n - 1);
      assert Asked(c, AskedTimes(c, v, now, n - 1), now).1 == None;
      SpentTokens(AskedTimes(c, v, now, n - 1).rateLimit, c.attemptsPerSecond as real, c.attemptsPerSecond as real,
                  now);
    }
  }

  lemma AtMostFull(c: Config, v: Limiter, now: real)
    ensures RateTokens(c, v, now) <= c.attemptsPerSecond as real
  {
  }

  lemma SomeAskIsRefused(c: Config, v: Limiter, now: real)
    requires Sane(c) && v.blockUntil <= now && AuthTokens(c, v, now) > 0.0
    ensures exists n: nat :: Asked(c, AskedTimes(c, v, now, n), now).1 != None
  {
    hide TokensAt, AskedTimes;
    var m := c.attemptsPerSecond;
    if forall i | 0 <= i < m :: Asked(c, AskedTimes(c, v, now, i), now).1 == None {
      PassesUseTokens(c, v, now, m);
      AtMostFull(c, v, now);
      assert Asked(c, AskedTimes(c, v, now, m), now).1 != None;
    }
  }

  /** Any number of requests at this instant pass. */
  ghost predicate Unlimited<K>(c: Config, events: seq<Event<K>>, id: K, now: real)
  {
    forall n: nat | n > 0 :: Answer(c, events + Asks(id, now, n)) == None
  }

  /** At one instant any number of requests of an identifier pass if and only if it is not blocked, its bad-operation
      tokens are exactly used up and it has never been blocked. */
  lemma UnlimitedIffUsedUp<K>(c: Config, events: seq<Event<K>>, id: K, now: real)
    requires Sane(c) && Timely(events) && 0.0 <= now && Clock(events) <= now
    ensures var v := Next(c, events, id, now);
            Unlimited(c, events, id, now)
            <==> v.blockUntil <= now && AuthTokens(c, v, now) <= 0.0 && v.blockReason == None
  {
    hide Answer, Next, TokensAt, Run, Asks, Rotated;
    var v := Next(c, events, id, now);
    NextIsMarked(c, events, id, now);
    if now < v.blockUntil || AuthTokens(c, v, now) <= 0.0 {
      forall n: nat | n > 0 ensures Answer(c, events + Asks(id, now, n)) == v.blockReason {
        RunOfAsks(c, events, id, now, n);
        AskedUnchanged(c, v, now, n - 1);
      }
      assert Unlimited(c, events, id, now) ==> Answer(c, events + Asks(id, now, 1)) == None;
    } else {
      SomeAskIsRefused(c, v, now);
      var n: nat :| Asked(c, AskedTimes(c, v, now, n), now).1 != None;
      RunOfAsks(c, events, id, now, n + 1);
    }
  }

  lemma NextIsMarked<K>(c: Config, events: seq<Event<K>>, id: K, now: real)
    ensures Marked(Next(c, events, id, now))
  {
    RunIsMarked(c, events);
    StepMarks(c, Run(c, events), Event(now, id, false));
    hide Run, Marked, Rotated, Fresh;
  }

  // ---- How long a refusal lasts ----

  /** Whoever is refused until some time is refused whenever they ask before that time. */
  ghost predicate RefusalsHold<K(!new)>(c: Config)
  {
    forall events: seq<Event<K>>, i, k | Timely(events) && 0 <= i < k < |events| && Refused(c, events, i, k) ::
      Answer(c, events[..k + 1]).Some?
  }

  /** Event `i` is refused until a time before which the same identifier asks again, at `k`. */
  predicate Refused<K(==)>(c: Config, events: seq<Event<K>>, i: int, k: int)
    requires 0 <= i < k < |events|
  {
    && !events[k].flag && events[k].id == events[i].id
    && Answer(c, events[..i + 1]).Some? && events[k].now < Answer(c, events[..i + 1]).value.until
  }

  /** The identifier's limiter is known, and blocked at least until some time. */
  predicate BlockedUntil<K(==)>(g: Gen<K, Limiter>, id: K, until: real)
  {
    Find(g, id).Some? && until <= Find(g, id).value.blockUntil
  }

  /** A refusal with a time ahead leaves a block until that time. */
  lemma RefusalBlocks<K>(c: Config, events: seq<Event<K>>)
    requires events != [] && Timely(events) && Sane(c)
    requires Answer(c, events).Some? && Clock(events) < Answer(c, events).value.until
    ensures BlockedUntil(Run(c, events), events[|events| - 1].id, Answer(c, events).value.until)
    ensures Answer(c, events).value.until <= Clock(events) + SweepAge(c) / 2.0
  {
    hide TokensAt, SweepAge, Promote, Stored, Swept;
    var n := |events| - 1;
    var before, e := events[..n], events[n];
    var g := Run(c, before);
    RunIsMarked(c, before);
    StepMarks(c, g, e);
    RunIsKept(c, before);
    SweptKeys(g, e);
    TouchFinds(Swept(g, e), e.id, React(c, Limited(c, g, e), e).0, e.id);
    RunBlocksEnd(c, events);
    RunIsKept(c, events);
    FoundBlocksEnd(Run(c, events), e.id, Clock(events));
  }

  lemma SweptKeys<K>(g: Gen<K, Limiter>, e: Event<K>)
    requires g.front.Keys !! g.back.Keys
    ensures Swept(g, e).front.Keys !! Swept(g, e).back.Keys
  {
  }

  lemma FoundBlocksEnd<K>(g: Gen<K, Limiter>, id: K, now: real)
    requires BlocksEnd(g, now) && Find(g, id).Some?
    ensures Find(g, id).value.blockUntil <= now + g.sweepAge / 2.0
  {
  }

  lemma {:induction false} BlockLasts<K>(c: Config, events: seq<Event<K>>, m: nat, id: K, until: real)
    requires Timely(events) && Sane(c) && c.attemptsBlock <= c.badAuthBlock && 0 < m <= |events|
    requires Clock(events) < until && until <= Clock(events[..m]) + c.badAuthBlock as real
    requires BlockedUntil(Run(c, events[..m]), id, until)
    ensures BlockedUntil(Run(c, events), id, until)
    decreases |events|
  {
    hide TokensAt, SweepAge, Promote, Stored, Rotated;
    if m == |events| {
      assert events[..m] == events;
    } else {
      var n := |events| - 1;
      var before, e := events[..n], events[n];
      assert before[..m] == events[..m] && events[..m][m - 1] == events[m - 1];
      BlockLasts(c, before, m, id, until);
      var g := Run(c, before);
      BlocksAreRemembered(c, before, id, e.now);
      RunIsKept(c, before);
      SweptKeys(g, e);
      TouchFinds(Swept(g, e), e.id, React(c, Limited(c, g, e), e).0, id);
      if e.id == id { BlockedReact(c, Limited(c, g, e), e, until); }
    }
  }

  lemma BlockedReact<K>(c: Config, v: Limiter, e: Event<K>, until: real)
    requires until <= v.blockUntil && e.now < until <= e.now + c.badAuthBlock as real
    ensures until <= React(c, v, e).0.blockUntil
  {
  }

  /** A block of the longer kind outlasts whatever flags come in between. */
  lemma RefusalLasts<K>(c: Config, events: seq<Event<K>>, i: nat, k: nat)
    requires Timely(events) && Sane(c) && c.attemptsBlock <= c.badAuthBlock && i < k < |events|
    requires Refused(c, events, i, k)
    ensures Answer(c, events[..k + 1]).Some?
  {
    hide TokensAt, Limited, React, Run, Answer, Rotated, AllMarked, Marked, Find;
    var until, before, e := Answer(c, events[..i + 1]).value.until, events[..k], events[k];
    TimelyTake(events, i + 1);
    TimelyTake(events, k);
    assert events[..i + 1][i] == events[i] && events[..k][k - 1] == events[k - 1];
    assert before[..i + 1] == events[..i + 1];
    RefusalBlocks(c, events[..i + 1]);
    BlockLasts(c, before, i + 1, e.id, until);
    BlocksAreRemembered(c, before, e.id, e.now);
    RunIsMarked(c, before);
    StepMarks(c, Run(c, before), e);
    assert events[..k + 1] == before + [e];
    LastAnswer(c, before, e);
    FoundIsLimited(c, Run(c, before), e);
    BlockedIsRefused(c, Limited(c, Run(c, before), e), e);
  }

  lemma TimelyTake<K>(events: seq<Event<K>>, n: nat)
    requires Timely(events) && n <= |events|
    ensures Timely(events[..n])
  {
  }

  lemma FoundIsLimited<K>(c: Config, g: Gen<K, Limiter>, e: Event<K>)
    requires Find(g, e.id).Some? && !e.flag && Find(Rotated(g, e.now), e.id) == Find(g, e.id)
    ensures Limited(c, g, e) == Find(g, e.id).value
  {
  }

  lemma BlockedIsRefused<K>(c: Config, v: Limiter, e: Event<K>)
    requires Marked(v) && 0.0 <= e.now < v.blockUntil && !e.flag
    ensures React(c, v, e).1.Some?
  {
  }

  // ---- Flags shorten a longer block ----

  /** More requests than the rate allows, then more flags than the limit, and a request when the block of the flags has
      run out. */
  function Overrun<K>(c: Config, id: K): seq<Event<K>>
    requires Sane(c)
  {
    Asks(id, 0.0, c.attemptsPerSecond + 1) + Flags(id, 0.0, c.badAuthLimit + 1)
  }

  function ShortenedRun<K>(c: Config, id: K): seq<Event<K>>
    requires Sane(c)
  {
    Overrun(c, id) + [Event(c.badAuthBlock as real, id, false)]
  }

  /** What the requests and the flags leave behind. */
  lemma OverrunLimiter(c: Config)
    requires Sane(c)
    ensures FlaggedTimes(c, AskedTimes(c, Fresh(c), 0.0, c.attemptsPerSecond + 1), 0.0, c.badAuthLimit + 1)
         == Limiter(Bucket(0.0, 0.0), Bucket(0.0, 0.0), c.badAuthBlock as real,
                    Some(TooManyBadOps(c.badAuthBlock as real)))
  {
    hide TokensAt, AskedTimes, FlaggedTimes;
    FreshTokens(c, 0.0);
    AskedFromFull(c, Fresh(c), 0.0, c.attemptsPerSecond + 1);
    TooManyFlags(c, AskedTimes(c, Fresh(c), 0.0, c.attemptsPerSecond + 1), 0.0, c.badAuthLimit + 1);
  }

  lemma OverrunLeaves<K>(c: Config, id: K)
    requires Sane(c)
    ensures var g, until := Run(c, Overrun(c, id)), c.badAuthBlock as real;
            id in g.front && g.front[id]
              == Limiter(Bucket(0.0, 0.0), Bucket(0.0, 0.0), until, Some(TooManyBadOps(until)))
  {
    hide Fresh, AskedTimes, FlaggedTimes, Run, Answer, Asks, Flags, Next, Rotated;
    var none: seq<Event<K>>, m := [], c.attemptsPerSecond + 1;
    assert none + Asks(id, 0.0, m) == Asks(id, 0.0, m) && none + Flags(id, 0.0, 0) == none;
    RunOfAsks(c, none, id, 0.0, m);
    FlagsOfNew(c, none, id, 0.0, 0);
    NoFlags(c, 0.0);
    RunOfFlags(c, Asks(id, 0.0, m), id, 0.0, c.badAuthLimit + 1);
    OverrunLimiter(c);
  }

  lemma FlagsHaveRunOut(c: Config, v: Limiter)
    requires Sane(c) && v.blockUntil <= c.badAuthBlock as real
    requires v.rateLimit == Bucket(0.0, 0.0) && v.authLimit == Bucket(0.0, 0.0)
    ensures Asked(c, v, c.badAuthBlock as real).1 == None
  {
    var a, t := c.attemptsPerSecond as real, c.badAuthBlock as real;
    GainIsPositive(t, 1.0 / 60.0);
    UnitGain(a);
    GainGrows(1.0, t, a);
    hide Gain;
  }

  lemma FlagsShortenBlock<K>(c: Config, id: K)
    requires Sane(c) && c.badAuthBlock < c.attemptsBlock
    ensures var events, i := ShortenedRun(c, id), c.attemptsPerSecond;
            var k := |events| - 1;
            && Timely(events) && i < k && Refused(c, events, i, k) && Answer(c, events[..k + 1]) == None
            && Answer(c, events[..i + 1]) == Some(TooManyRequests(c.attemptsBlock as real))
  {
    hide TokensAt, Run, Answer, SweepAge, Limited, Asks, Flags;
    var events, i, e := ShortenedRun(c, id), c.attemptsPerSecond, Event(c.badAuthBlock as real, id, false);
    var none: seq<Event<K>> := [];
    assert none + Flags(id, 0.0, 0) + Asks(id, 0.0, i + 1) == events[..i + 1];
    BurstOfNew(c, none, id, 0.0, 0, i);
    OverrunLeaves(c, id);
    var g := Run(c, Overrun(c, id));
    JustTouched(g, e, id, g.front[id], 0.0);
    FlagsHaveRunOut(c, g.front[id]);
    LastAnswer(c, Overrun(c, id), e);
    FoundIsLimited(c, g, e);
    assert events[..|events|] == events;
  }

  /** Refusals hold in every run if and only if the block for bad operations is at least as long as the one for the
      rate; otherwise flags cut a block for the rate short. */
  lemma RefusalsHoldIff<K(!new)>(c: Config, id: K)
    requires Sane(c)
    ensures RefusalsHold<K>(c) <==> c.attemptsBlock <= c.badAuthBlock
  {
    hide Answer, Refused, ShortenedRun, Timely;
    if c.attemptsBlock <= c.badAuthBlock {
      forall events: seq<Event<K>>, i, k | Timely(events) && 0 <= i < k < |events| && Refused(c, events, i, k)
        ensures Answer(c, events[..k + 1]).Some?
      {
        RefusalLasts(c, events, i, k);
      }
    } else {
      FlagsShortenBlock(c, id);
    }
  }

  /** The default blocks are on the safe side. */
  lemma DefaultsHold<K(!new)>(c: Config, id: K)
    requires c.attemptsBlock <= 0 && c.badAuthBlock <= 0
    ensures RefusalsHold<K>(WithDefaults(c))
  {
    RefusalsHoldIff(WithDefaults(c), id);
  }
}
