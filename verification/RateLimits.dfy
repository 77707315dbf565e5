/** The two-generation map with O(1) garbage collection and the rate limiter that keeps its state in it. Times are
    seconds since the limiter was made. */
module RateLimits {
  import opened TextLines

  // ---- The two-generation map ----

  datatype Gen<K, V> = Gen(front: map<K, V>, back: map<K, V>, lastSwap: real, sweepAge: real)

  function Find<K(==), V>(g: Gen<K, V>, key: K): Option<V>
  {
    if key in g.front then Some(g.front[key]) else if key in g.back then Some(g.back[key]) else None
  }

  /** The map after a lookup, which promotes what it finds. */
  function Promote<K(==), V>(g: Gen<K, V>, key: K): Gen<K, V>
  {
    if key !in g.front && key in g.back then g.(front := g.front[key := g.back[key]], back := g.back - {key}) else g
  }

  function Stored<K(==), V>(g: Gen<K, V>, key: K, v: V): Gen<K, V>
  {
    g.(front := g.front[key := v])
  }

  function Rotated<K, V>(g: Gen<K, V>, now: real): Gen<K, V>
  {
    if now - g.lastSwap >= g.sweepAge then g.(front := map[], back := g.front, lastSwap := now) else g
  }

  class GenerationMap<K(==), V> {
    var front: map<K, V>
    var back: map<K, V>
    var lastSwap: real
    const sweepAge: real

    ghost function State(): Gen<K, V>
      reads this
    {
      Gen(front, back, lastSwap, sweepAge)
    }

    constructor (sweepAge: real, now: real)
      ensures State() == Gen(map[], map[], now, sweepAge)
    {
      this.sweepAge := sweepAge;
      front, back, lastSwap := map[], map[], now;
    }

    method Get(key: K) returns (v: Option<V>)
      modifies this
      ensures v == Find(old(State()), key)
      ensures State() == Promote(old(State()), key)
      ensures front == if v.Some? then old(front)[key := v.value] else old(front)
      ensures back == if key in old(front) then old(back) else old(back) - {key}
    {
      if key in front {
        assert front == front[key := front[key]];
        return Some(front[key]);
      }
      if key in back {
        v := Some(back[key]);
        front := front[key := back[key]];
        back := back - {key};
        return;
      }
      assert back - {key} == back;
      v := None;
    }

    method Put(key: K, v: V)
      modifies this
      ensures State() == Stored(old(State()), key, v)
    {
      front := front[key := v];
    }

    method Sweep(now: real)
      modifies this
      ensures State() == Rotated(old(State()), now)
    {
      if now - lastSwap >= sweepAge {
        back := front;
        front := map[];
        lastSwap := now;
      }
    }
  }

  // ---- Token buckets ----

  datatype Bucket = Bucket(tokens: real, last: real)

  function Gain(elapsed: real, rate: real): real
  {
    elapsed * rate
  }

  function Min(a: real, b: real): real
  {
    if a < b then a else b
  }

  function TokensAt(b: Bucket, rate: real, burst: real, now: real): real
  {
    Min(burst, b.tokens + Gain(if now < b.last then 0.0 else now - b.last, rate))
  }

  function Spend(b: Bucket, rate: real, burst: real, now: real): Bucket
  {
    Bucket(TokensAt(b, rate, burst, now) - 1.0, now)
  }

  lemma GainAdds(a: real, b: real, rate: real)
    ensures Gain(a + b, rate) == Gain(a, rate) + Gain(b, rate)
  {
  }

  lemma GainGrows(a: real, b: real, rate: real)
    requires a <= b && 0.0 <= rate
    ensures Gain(a, rate) <= Gain(b, rate)
  {
  }

  /** How full a bucket is at one time settles how full it is at every later time. */
  lemma TokensLater(b: Bucket, rate: real, burst: real, t: real, u: real)
    requires b.last <= t <= u && 0.0 <= rate
    ensures TokensAt(b, rate, burst, u) == Min(burst, TokensAt(b, rate, burst, t) + Gain(u - t, rate))
  {
    GainAdds(t - b.last, u - t, rate);
    assert Gain(0.0, rate) == 0.0;
    GainGrows(0.0, u - t, rate);
  }

  // ---- The configuration ----

  datatype Config = Config(attemptsPerSecond: int, attemptsBlock: int, badAuthLimit: int, badAuthBlock: int)

  function Default(n: int, fallback: int): int
  {
    if n <= 0 then fallback else n
  }

  function WithDefaults(c: Config): (d: Config)
    ensures Sane(d)
  {
    Config(Default(c.attemptsPerSecond, 20), Default(c.attemptsBlock, 30), Default(c.badAuthLimit, 5),
           Default(c.badAuthBlock, 300))
  }

  predicate Sane(c: Config)
  {
    c.attemptsPerSecond > 0 && c.attemptsBlock > 0 && c.badAuthLimit > 0 && c.badAuthBlock > 0
  }

  function SweepAge(c: Config): (age: real)
    ensures age >= 2.0 * c.badAuthBlock as real && age >= 2.0 * c.attemptsBlock as real
  {
    if c.attemptsBlock > c.badAuthBlock then 2.0 * c.attemptsBlock as real else 2.0 * c.badAuthBlock as real
  }

  /** The bad-operation bucket refills within one sweep age. */
  predicate Refills(c: Config)
  {
    60.0 * c.badAuthLimit as real <= SweepAge(c)
  }

  // ---- One limiter ----

  datatype Reason = TooManyRequests(until: real) | TooManyBadOps(until: real)

  datatype Limiter = Limiter(rateLimit: Bucket, authLimit: Bucket, blockUntil: real, blockReason: Option<Reason>)

  function Fresh(c: Config): Limiter
  {
    Limiter(Bucket(c.attemptsPerSecond as real, 0.0), Bucket(c.badAuthLimit as real, 0.0), 0.0, None)
  }

  function AuthTokens(c: Config, v: Limiter, now: real): real
  {
    TokensAt(v.authLimit, 1.0 / 60.0, c.badAuthLimit as real, now)
  }

  function RateTokens(c: Config, v: Limiter, now: real): real
  {
    TokensAt(v.rateLimit, c.attemptsPerSecond as real, c.attemptsPerSecond as real, now)
  }

  function Flagged(c: Config, v: Limiter, now: real): Limiter
  {
    if AuthTokens(c, v, now) >= 1.0 then v.(authLimit := Spend(v.authLimit, 1.0 / 60.0, c.badAuthLimit as real, now))
    else Blocked(v, TooManyBadOps(now + c.badAuthBlock as real))
  }

  function Blocked(v: Limiter, reason: Reason): Limiter
  {
    v.(blockUntil := reason.until, blockReason := Some(reason))
  }

  /** The limiter after the request, and why the request is refused, if it is. */
  function Asked(c: Config, v: Limiter, now: real): (Limiter, Option<Reason>)
  {
    if now < v.blockUntil || AuthTokens(c, v, now) <= 0.0 then (v, v.blockReason)
    else if RateTokens(c, v, now) >= 1.0 then
      (v.(rateLimit := Spend(v.rateLimit, c.attemptsPerSecond as real, c.attemptsPerSecond as real, now)), None)
    else
      var reason := TooManyRequests(now + c.attemptsBlock as real);
      (Blocked(v, reason), Some(reason))
  }

  // ---- The limiter of all identifiers ----

  datatype Event<K> = Event(now: real, id: K, flag: bool)

  /** What an event does to the limiter of its identifier, and its answer. */
  function React<K>(c: Config, v: Limiter, e: Event<K>): (Limiter, Option<Reason>)
  {
    if e.flag then (Flagged(c, v, e.now), None) else Asked(c, v, e.now)
  }

  function OrFresh(c: Config, v: Option<Limiter>): Limiter
  {
    if v.Some? then v.value else Fresh(c)
  }

  /** Only a request sweeps. */
  function Swept<K>(g: Gen<K, Limiter>, e: Event<K>): Gen<K, Limiter>
  {
    if e.flag then g else Rotated(g, e.now)
  }

  function Limited<K(==)>(c: Config, g: Gen<K, Limiter>, e: Event<K>): Limiter
  {
    OrFresh(c, Find(Swept(g, e), e.id))
  }

  function Step<K(==)>(c: Config, g: Gen<K, Limiter>, e: Event<K>): Gen<K, Limiter>
  {
    Stored(Promote(Swept(g, e), e.id), e.id, React(c, Limited(c, g, e), e).0)
  }

  class RateLimiter<K(==)> {
    const config: Config
    const entries: GenerationMap<K, Limiter>

    constructor (config: Config)
      ensures this.config == WithDefaults(config)
      ensures this.config.attemptsPerSecond == if config.attemptsPerSecond <= 0 then 20 else config.attemptsPerSecond
      ensures this.config.attemptsBlock == if config.attemptsBlock <= 0 then 30 else config.attemptsBlock
      ensures this.config.badAuthLimit == if config.badAuthLimit <= 0 then 5 else config.badAuthLimit
      ensures this.config.badAuthBlock == if config.badAuthBlock <= 0 then 300 else config.badAuthBlock
      ensures fresh(entries) && entries.State() == Gen(map[], map[], 0.0, SweepAge(this.config))
    {
      var c := WithDefaults(config);
      var sweepAge := 2.0 * c.badAuthBlock as real;
      var alt := 2.0 * c.attemptsBlock as real;
      if alt > sweepAge {
        sweepAge := alt;
      }
      this.config := c;
      entries := new GenerationMap(sweepAge, 0.0);
    }

    method GetOrCreate(id: K) returns (v: Limiter)
      modifies entries
      ensures v == OrFresh(config, Find(old(entries.State()), id))
      ensures entries.State() == Stored(Promote(old(entries.State()), id), id, v)
    {
      var found := entries.Get(id);
      if found.Some? {
        v := found.value;
        assert entries.front[id := v] == entries.front;
      } else {
        v := Fresh(config);
        entries.Put(id, v);
      }
    }

    method FlagBadOperation(id: K, now: real)
      modifies entries
      ensures entries.State() == Step(config, old(entries.State()), Event(now, id, true))
      ensures entries.lastSwap == old(entries.lastSwap)
    {
      var v := GetOrCreate(id);
      if AuthTokens(config, v, now) >= 1.0 {
        v := v.(authLimit := Spend(v.authLimit, 1.0 / 60.0, config.badAuthLimit as real, now));
      } else {
        var until := now + config.badAuthBlock as real;
        v := v.(blockUntil := until, blockReason := Some(TooManyBadOps(until)));
      }
      PutTwice(entries.front, id, entries.front[id], v);
      entries.Put(id, v);
    }

    method Allow(id: K, now: real) returns (refusal: Option<Reason>)
      modifies entries
      ensures var e := Event(now, id, false);
              var v := Limited(config, old(entries.State()), e);
              entries.State() == Step(config, old(entries.State()), e) && refusal == React(config, v, e).1
    {
      entries.Sweep(now);
      var v := GetOrCreate(id);
      if now < v.blockUntil || AuthTokens(config, v, now) <= 0.0 {
        return v.blockReason;
      }
      if RateTokens(config, v, now) < 1.0 {
        var until := now + config.attemptsBlock as real;
        refusal := Some(TooManyRequests(until));
        v := v.(blockUntil := until, blockReason := refusal);
      } else {
        v := v.(rateLimit := Spend(v.rateLimit, config.attemptsPerSecond as real, config.attemptsPerSecond as real,
                                   now));
        refusal := None;
      }
      PutTwice(entries.front, id, entries.front[id], v);
      entries.Put(id, v);
    }
  }

  lemma PutTwice<K, V>(m: map<K, V>, k: K, v: V, w: V)
    ensures m[k := v][k := w] == m[k := w]
  {
  }
}
