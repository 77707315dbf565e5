/** The disk limiter of tarball unpacking: a running total of bytes plus one block for every distinct file or directory
    on the way, with int64 arithmetic as in the program. */
module TarLimiter {
  import opened TextLines
  import opened Paths

  const INT64: int := 0x1_0000_0000_0000_0000
  const MAX_INT64: int := 0x7fff_ffff_ffff_ffff

  /** What int64 addition leaves of a sum. */
  function Wrap(x: int): (r: int)
    ensures -0x8000_0000_0000_0000 <= r <= 0x7fff_ffff_ffff_ffff && (x - r) % 0x1_0000_0000_0000_0000 == 0
  {
    var m := x % INT64;
    if m > MAX_INT64 then m - INT64 else m
  }

  datatype LimitError = FileSize | DiskSize | PathLength | FileCount

  datatype Limits = Limits(maxItemSize: int, maxDiskSize: int, maxNumItems: int, maxPathLen: int, blockSize: int)

  /** Limits far enough from the end of the int64 range; the configured ones are below 2^36. */
  predicate Sane(l: Limits)
  {
    && 0 <= l.maxItemSize && 0 <= l.maxDiskSize && 0 <= l.maxNumItems && 0 <= l.blockSize
    && l.maxItemSize + l.maxDiskSize + l.blockSize <= MAX_INT64
  }

  /** A path inside the destination with all its ancestors below the destination; `.` stands for itself. */
  function Prefixes(path: string): set<string>
  {
    var segs := InsideSegs(path);
    if segs == [] then {path} else set i | 1 <= i <= |segs| :: Relative(segs[..i])
  }

  /** The entries and the total a fresh count over all of these calls would give. */
  function Entries(calls: seq<(string, int)>): set<string>
  {
    if calls == [] then {} else Entries(calls[..|calls| - 1]) + Prefixes(calls[|calls| - 1].0)
  }

  function Bytes(calls: seq<(string, int)>): int
  {
    if calls == [] then 0 else Bytes(calls[..|calls| - 1]) + calls[|calls| - 1].1
  }

  /** What this many entries of the file system index take. */
  function Cost(l: Limits, entries: int): int
  {
    l.blockSize * entries
  }

  function Total(l: Limits, calls: seq<(string, int)>): int
  {
    Bytes(calls) + Cost(l, |Entries(calls)|)
  }

  lemma PrefixesOfPrefix(segs: seq<string>, i: nat)
    requires Names(segs) && 1 <= i <= |segs|
    ensures Prefixes(Relative(segs[..i])) == set j | 1 <= j <= i :: Relative(segs[..j])
  {
    InsideOfNames(segs[..i]);
    forall j | 1 <= j <= i ensures segs[..i][..j] == segs[..j] {}
  }

  lemma PrefixesAreDistinct(segs: seq<string>, i: nat, j: nat)
    requires Names(segs) && 1 <= i < j <= |segs|
    ensures Relative(segs[..i]) != Relative(segs[..j])
  {
    InsideOfNames(segs[..i]);
    InsideOfNames(segs[..j]);
  }

  lemma {:induction false} EntriesAreClosed(calls: seq<(string, int)>, e: string)
    requires forall c | c in calls :: IsInside(c.0)
    requires e in Entries(calls)
    ensures Prefixes(e) <= Entries(calls)
    decreases |calls|
  {
    var last := calls[|calls| - 1];
    if e in Prefixes(last.0) {
      InsideIsRelative(last.0);
      var segs := InsideSegs(last.0);
      if segs != [] {
        var i :| 1 <= i <= |segs| && e == Relative(segs[..i]);
        PrefixesOfPrefix(segs, i);
      }
    } else {
      EntriesAreClosed(calls[..|calls| - 1], e);
    }
  }

  // ---- The walk from a path to its top ----

  /** The bases the walk would visit if it met no known entry. */
  function Chain(segs: seq<string>): (chain: seq<string>)
    ensures |chain| == if segs == [] then 1 else |segs|
  {
    if |segs| <= 1 then [Relative(segs)] else [Relative(segs)] + Chain(segs[..|segs| - 1])
  }

  function Elements(xs: seq<string>): set<string>
  {
    set x | x in xs
  }

  lemma {:induction false} ChainAt(segs: seq<string>, k: nat)
    requires k < |segs|
    ensures Chain(segs)[k] == Relative(segs[..|segs| - k])
  {
    hide Relative;
    if k == 0 {
      assert segs[..|segs|] == segs;
    } else {
      ChainAt(segs[..|segs| - 1], k - 1);
      assert segs[..|segs| - 1][..|segs| - k] == segs[..|segs| - k];
    }
  }

  lemma DropBehindHead(head: string, tail: seq<string>, k: nat)
    requires 1 <= k <= |tail| + 1
    ensures ([head] + tail)[k..] == tail[k - 1..]
  {
  }

  lemma ChainOfFront(segs: seq<string>)
    requires |segs| > 1
    ensures Chain(segs) == [Relative(segs)] + Chain(segs[..|segs| - 1])
  {
  }

  lemma {:induction false} ChainFrom(segs: seq<string>, k: nat)
    requires k < |segs|
    ensures Chain(segs)[k..] == Chain(segs[..|segs| - k])
  {
    hide Relative, Chain;
    if k == 0 {
      assert segs[..|segs|] == segs;
    } else {
      var front := segs[..|segs| - 1];
      ChainFrom(front, k - 1);
      ChainOfFront(segs);
      DropBehindHead(Relative(segs), Chain(front), k);
      assert front[..|front| - (k - 1)] == segs[..|segs| - k];
    }
  }

  lemma ChainIsPrefixes(path: string)
    requires IsInside(path)
    ensures Elements(Chain(InsideSegs(path))) == Prefixes(path)
    ensures Chain(InsideSegs(path))[0] == path
  {
    var segs := InsideSegs(path);
    var chain := Chain(segs);
    InsideIsRelative(path);
    if segs != [] {
      forall i | 1 <= i <= |segs| ensures Relative(segs[..i]) in chain {
        ChainAt(segs, |segs| - i);
      }
      forall x | x in chain ensures x in Prefixes(path) {
        var k :| 0 <= k < |chain| && chain[k] == x;
        ChainAt(segs, k);
        assert 1 <= |segs| - k <= |segs|;
      }
    }
  }

  lemma ChainSuffix(path: string, k: nat)
    requires IsInside(path) && k < |Chain(InsideSegs(path))|
    ensures Prefixes(Chain(InsideSegs(path))[k]) == Elements(Chain(InsideSegs(path))[k..])
  {
    var segs := InsideSegs(path);
    InsideIsRelative(path);
    if segs == [] {
      ChainIsPrefixes(path);
    } else {
      ChainAt(segs, k);
      ChainFrom(segs, k);
      InsideOfNames(segs[..|segs| - k]);
      ChainIsPrefixes(Relative(segs[..|segs| - k]));
    }
  }

  lemma ChainIsDistinct(segs: seq<string>, j: nat, k: nat)
    requires Names(segs) && j < k < |Chain(segs)|
    ensures Chain(segs)[j] != Chain(segs)[k]
  {
    hide Relative;
    ChainAt(segs, j);
    ChainAt(segs, k);
    PrefixesAreDistinct(segs, |segs| - k, |segs| - j);
  }

  lemma {:induction false} ParentInChain(segs: seq<string>, k: nat)
    requires Names(segs) && k < |segs|
    ensures Parent(Chain(segs)[k]) == Relative(segs[..|segs| - k - 1])
  {
    hide Parent, Relative, Chain, Names;
    ChainAt(segs, k);
    ParentOfPrefix(segs, |segs| - k);
  }

  lemma ParentOfPrefix(segs: seq<string>, n: nat)
    requires Names(segs) && 0 < n <= |segs|
    ensures Parent(Relative(segs[..n])) == Relative(segs[..n - 1])
  {
    assert forall s | s in segs[..n] :: s in segs;
    ParentOfInside(segs[..n]);
    assert segs[..n][..n - 1] == segs[..n - 1];
  }

  /** A walk upwards: each base is the parent of the one before, and above the last one there is nothing. */
  ghost predicate Ladder(chain: seq<string>)
  {
    && chain != []
    && (forall i, j | 0 <= i < j < |chain| :: chain[i] != chain[j])
    && (forall k | 0 <= k < |chain| :: Rung(chain, k))
  }

  predicate Rung(chain: seq<string>, k: nat)
    requires k < |chain|
  {
    var parent := Parent(chain[k]);
    if k + 1 < |chain| then parent == chain[k + 1] && parent != "." && parent != "" else parent == "."
  }

  lemma NamesOfPrefix(segs: seq<string>, n: nat)
    requires Names(segs) && n <= |segs|
    ensures Names(segs[..n])
  {
  }

  lemma {:induction false} RungOfChain(segs: seq<string>, k: nat)
    requires Names(segs) && k < |segs|
    ensures Rung(Chain(segs), k)
  {
    hide Parent, Relative, Chain, Names;
    ParentInChain(segs, k);
    if k + 1 < |segs| {
      ChainAt(segs, k + 1);
      NamesOfPrefix(segs, |segs| - k - 1);
      RelativeIsNamed(segs[..|segs| - k - 1]);
    } else {
      RelativeOfNone(segs[..0]);
    }
  }

  lemma RelativeOfNone(segs: seq<string>)
    requires segs == []
    ensures Relative(segs) == "."
  {
  }

  lemma RelativeIsNamed(segs: seq<string>)
    requires Names(segs) && segs != []
    ensures Relative(segs) != "." && Relative(segs) != ""
  {
    JoinIsNotEmpty(segs);
  }

  lemma ChainIsLadder(path: string)
    requires IsInside(path)
    ensures Ladder(Chain(InsideSegs(path)))
  {
    hide Chain, InsideSegs, Rung, IsInside;
    var segs := InsideSegs(path);
    var chain := Chain(segs);
    InsideIsRelative(path);
    forall i, j | 0 <= i < j < |chain| ensures chain[i] != chain[j] { ChainIsDistinct(segs, i, j); }
    if segs == [] {
      TopRung();
    } else {
      forall k | 0 <= k < |chain| ensures Rung(chain, k) { RungOfChain(segs, k); }
    }
  }

  lemma TopRung()
    ensures Chain([]) == ["."] && Rung(["."], 0)
  {
  }

  lemma NothingCharged(known: set<string>, chain: seq<string>)
    ensures known + Elements(chain[..0]) == known
  {
  }

  /** Charging one more base of a ladder. */
  lemma ChargeNext(known: set<string>, chain: seq<string>, k: nat)
    requires k < |chain| && Ladder(chain)
    requires chain[k] !in known + Elements(chain[..k])
    ensures known + Elements(chain[..k + 1]) == (known + Elements(chain[..k])) + {chain[k]}
    ensures |known + Elements(chain[..k + 1])| <= |known + Elements(chain)|
    ensures known + Elements(chain) != known
  {
    assert chain[..k + 1] == chain[..k] + [chain[k]];
    Larger(known + Elements(chain[..k + 1]), known + Elements(chain));
    assert chain[k] in Elements(chain);
  }

  lemma StopAtKnown(known: set<string>, chain: seq<string>, k: nat)
    requires k < |chain| && Elements(chain[k..]) <= known
    ensures known + Elements(chain[..k]) == known + Elements(chain)
    ensures k == 0 ==> Elements(chain) <= known
  {
  }

  lemma Larger(a: set<string>, b: set<string>)
    requires a <= b
    ensures |a| <= |b|
  {
    assert b == a + (b - a);
  }

  lemma CostGrows(l: Limits, m: int, n: int)
    requires 0 <= l.blockSize && m <= n
    ensures Cost(l, m) <= Cost(l, n)
    ensures Cost(l, m + 1) == Cost(l, m) + l.blockSize
    ensures Cost(l, n) == Cost(l, m) + Cost(l, n - m)
    ensures Cost(l, 0) == 0
  {
  }

  class Limiter {
    const limits: Limits
    var totalSize: int
    var uniqueDirEntries: set<string>
    ghost var accepted: seq<(string, int)>   // the calls answered without error so far

    /** The memo agrees with recounting from scratch. */
    ghost predicate Valid()
      reads this
    {
      && Sane(limits)
      && (forall c | c in accepted :: IsInside(c.0) && 0 <= c.1)
      && uniqueDirEntries == Entries(accepted) && totalSize == Total(limits, accepted)
      && 0 <= totalSize <= limits.maxDiskSize && |uniqueDirEntries| <= limits.maxNumItems
    }

    constructor (limits: Limits)
      requires Sane(limits)
      ensures Valid() && this.limits == limits && accepted == []
    {
      this.limits, totalSize, uniqueDirEntries, accepted := limits, 0, {}, [];
    }

    static method Up(base: string, ghost chain: seq<string>, ghost k: nat) returns (parent: string)
      requires Ladder(chain) && k < |chain| && base == chain[k]
      ensures parent == if k + 1 < |chain| then chain[k + 1] else "."
      ensures k + 1 < |chain| ==> parent != "." && parent != "" && parent != base
    {
      assert Rung(chain, k);
      parent := Parent(base);
    }

    /** Charges one new entry. */
    method Charge(base: string) returns (err: Option<LimitError>)
      requires Sane(limits) && 0 <= totalSize <= limits.maxDiskSize && base !in uniqueDirEntries
      modifies this`totalSize, this`uniqueDirEntries
      ensures uniqueDirEntries == old(uniqueDirEntries) + {base} && |uniqueDirEntries| == |old(uniqueDirEntries)| + 1
      ensures totalSize == old(totalSize) + limits.blockSize
      ensures err.None? <==> totalSize <= limits.maxDiskSize && |uniqueDirEntries| <= limits.maxNumItems
    {
      uniqueDirEntries := uniqueDirEntries + {base};
      totalSize := Wrap(totalSize + limits.blockSize);
      if totalSize > limits.maxDiskSize {
        return Some(DiskSize);
      }
      if |uniqueDirEntries| > limits.maxNumItems {
        return Some(FileCount);
      }
      return None;
    }

    /** Charges the bases of a walk, children first, until one is known already. */
    method Walk(path: string, ghost chain: seq<string>) returns (err: Option<LimitError>)
      requires Sane(limits) && 0 <= totalSize <= limits.maxDiskSize
      requires Ladder(chain) && chain != [] && chain[0] == path
      requires forall k | 0 <= k < |chain| && chain[k] in uniqueDirEntries :: Elements(chain[k..]) <= uniqueDirEntries
      modifies this`totalSize, this`uniqueDirEntries
      ensures var known := old(uniqueDirEntries);
              var all := known + Elements(chain);
              var total := old(totalSize) + Cost(limits, |all| - |known|);
              && (err.None? ==> uniqueDirEntries == all && totalSize == total)
              && (err.None? <==> all == known || (total <= limits.maxDiskSize && |all| <= limits.maxNumItems))
    {
      hide Ladder, Cost, Parent, Elements;
      ghost var known, start, k := uniqueDirEntries, totalSize, 0;
      ghost var all := known + Elements(chain);
      CostGrows(limits, 0, 0);
      NothingCharged(known, chain);
      var base := path;
      while true
        invariant k < |chain| && base == chain[k]
        invariant uniqueDirEntries == known + Elements(chain[..k]) && |uniqueDirEntries| == |known| + k
        invariant totalSize == start + Cost(limits, k) && 0 <= totalSize <= limits.maxDiskSize
        invariant k > 0 ==> |uniqueDirEntries| <= limits.maxNumItems && all != known
        decreases |chain| - k
      {
        if base in uniqueDirEntries {
          NotAmongEarlier(chain, k);
          StopAtKnown(known, chain, k);
          return None;
        }
        ChargeNext(known, chain, k);
        CostGrows(limits, k, k + 1);
        CostGrows(limits, k + 1, |all| - |known|);
        err := Charge(base);
        if err.Some? {
          return;
        }
        var parent := Up(base, chain, k);
        if |parent| == 0 || parent == "." || parent == base {
          assert k + 1 == |chain| && chain[..k + 1] == chain;
          return None;
        }
        base := parent;
        k := k + 1;
      }
    }

    /** One call of the limiter. It accepts exactly when the recount stays within every limit, even though sums wrap:
        an oversized item is turned away before its size matters. */
    method Check(path: string, size: int) returns (total: int, err: Option<LimitError>)
      requires Valid() && IsInside(path) && 0 <= size <= MAX_INT64
      modifies this
      ensures err.None? ==> Valid() && accepted == old(accepted) + [(path, size)] && total == totalSize
      ensures err.None? <==> Acceptable(limits, old(accepted) + [(path, size)])
    {
      hide Entries, Total, Cost, IsInside, Ladder;
      CostGrows(limits, 0, 0);
      ghost var calls := accepted + [(path, size)];
      ghost var chain := Recount(limits, accepted, path, size);
      totalSize := Wrap(totalSize + size);
      if size > limits.maxItemSize {
        return totalSize, Some(FileSize);
      }
      if totalSize > limits.maxDiskSize {
        return totalSize, Some(DiskSize);
      }
      if |path| > limits.maxPathLen {
        return totalSize, Some(PathLength);
      }
      err := Walk(path, chain);
      total := totalSize;
      if err.None? {
        accepted := calls;
      }
    }
  }

  lemma NotAmongEarlier(chain: seq<string>, k: nat)
    requires k < |chain| && Ladder(chain)
    ensures chain[k] !in Elements(chain[..k])
  {
  }

  /** The last of these calls keeps within every limit. */
  ghost predicate Acceptable(l: Limits, calls: seq<(string, int)>)
    requires calls != []
  {
    var last := calls[|calls| - 1];
    && last.1 <= l.maxItemSize && |last.0| <= l.maxPathLen
    && Total(l, calls) <= l.maxDiskSize && |Entries(calls)| <= l.maxNumItems
  }

  lemma OneMoreCall(l: Limits, calls: seq<(string, int)>, path: string, size: int)
    ensures var more := calls + [(path, size)];
            Entries(more) == Entries(calls) + Prefixes(path) && Bytes(more) == Bytes(calls) + size
            && Total(l, more) == Bytes(calls) + size + Cost(l, |Entries(more)|)
  {
  }

  /** What one more call adds, and why the walk may stop at the first known entry: all above it is known too. */
  lemma Recount(l: Limits, calls: seq<(string, int)>, path: string, size: int) returns (chain: seq<string>)
    requires 0 <= l.blockSize && IsInside(path) && forall c | c in calls :: IsInside(c.0)
    ensures Ladder(chain) && chain != [] && chain[0] == path
    ensures forall k | 0 <= k < |chain| && chain[k] in Entries(calls) :: Elements(chain[k..]) <= Entries(calls)
    ensures var more := calls + [(path, size)];
            && Entries(more) == Entries(calls) + Elements(chain) && |Entries(calls)| <= |Entries(more)|
            && Total(l, more) == Total(l, calls) + size + Cost(l, |Entries(more)| - |Entries(calls)|)
            && Total(l, more) >= Total(l, calls) + size
  {
    hide InsideSegs, Chain, Prefixes, Ladder, Cost, Entries, Elements, Bytes;
    chain := Chain(InsideSegs(path));
    var more := calls + [(path, size)];
    OneMoreCall(l, calls, path, size);
    ChainIsPrefixes(path);
    ChainIsLadder(path);
    Larger(Entries(calls), Entries(more));
    CostGrows(l, |Entries(calls)|, |Entries(more)|);
    forall k | 0 <= k < |chain| && chain[k] in Entries(calls) ensures Elements(chain[k..]) <= Entries(calls) {
      EntriesAreClosed(calls, chain[k]);
      ChainSuffix(path, k);
    }
  }
}
