/** Unpacking a tarball under the two limiters, one fed with declared sizes and one with bytes really written. */
module TarUnpack {
  import opened TextLines
  import opened Paths
  import opened TarLimiter
  import opened TarTree

  datatype Kind = Regular | Directory | Other

  /** One tarball entry: its header, whether a header hook skips it, the bytes its reader would deliver, and whether
      that reader fails once those are read. */
  datatype Item = Item(kind: Kind, name: string, size: int, skip: bool, data: string, broken: bool)

  datatype Outcome = Done | Escape | BadKind | NoName | Limit(error: LimitError) | Conflict | ReadFailed | BadHeader

  /** The tar reader only hands out headers with a size that fits int64 and is not negative. */
  predicate WellFormed(items: seq<Item>)
  {
    forall i | i in items :: 0 <= i.size <= MAX_INT64
  }

  function Min(a: int, b: int): int { if a < b then a else b }

  /** The path of an entry relative to the destination. */
  function RelName(root: string, name: string): Option<string>
    requires root != ""
  {
    if AbsPathNoEscape(root, name).Some? then
      Some(RelPath(SegsOf(root), Follow(IsRooted(root), SegsOf(root), name)))
    else None
  }

  lemma RelNameIsInside(root: string, name: string)
    requires IsRoot(root) && RelName(root, name).Some?
    ensures IsInside(RelName(root, name).value)
  {
    RelativePathRoundTrip(root, name);
  }

  /** The entries one tarball item asks for, and the bytes it brings. */
  function Wanted(root: string, items: seq<Item>): set<string>
    requires root != ""
  {
    if items == [] then {}
    else
      var last := items[|items| - 1];
      var rest := Wanted(root, items[..|items| - 1]);
      if last.skip || RelName(root, last.name).None? then rest else rest + Prefixes(RelName(root, last.name).value)
  }

  function Brought(items: seq<Item>): nat
  {
    if items == [] then 0
    else
      var last := items[|items| - 1];
      Brought(items[..|items| - 1]) + if last.skip || !last.kind.Regular? then 0 else |last.data|
  }

  /** The sizes the headers declare, directories included. */
  function Declared(items: seq<Item>): int
  {
    if items == [] then 0
    else
      var last := items[|items| - 1];
      Declared(items[..|items| - 1]) + if last.skip then 0 else last.size
  }

  /** What an entry must be like on its own. */
  predicate GoodItem(root: string, l: Limits, i: Item)
    requires root != ""
  {
    || i.skip
    || (&& !i.kind.Other? && (i.kind.Regular? ==> i.name != "" && !i.broken && |i.data| <= l.maxItemSize)
        && RelName(root, i.name).Some? && |RelName(root, i.name).value| <= l.maxPathLen && i.size <= l.maxItemSize)
  }

  /** Good entries, and both counts of their disk space within the limits. */
  ghost predicate Affordable(root: string, l: Limits, items: seq<Item>)
    requires root != ""
  {
    && (forall i | i in items :: GoodItem(root, l, i))
    && |Wanted(root, items)| <= l.maxNumItems
    && Declared(items) + Cost(l, |Wanted(root, items)|) <= l.maxDiskSize
    && Brought(items) + Cost(l, |Wanted(root, items)|) <= l.maxDiskSize
  }

  function EntryOf(item: Item, rel: string): Entry
  {
    if item.kind.Regular? then FileEntry(rel, item.data) else DirEntry(rel)
  }

  /** What an entry puts into the destination. */
  function Placed(root: string, item: Item): seq<Entry>
    requires root != ""
  {
    if item.skip || RelName(root, item.name).None? then []
    else
      var rel := RelName(root, item.name).value;
      [EntryOf(item, rel)]
  }

  function AllPlaced(root: string, items: seq<Item>): seq<Entry>
    requires root != ""
  {
    if items == [] then [] else AllPlaced(root, items[..|items| - 1]) + Placed(root, items[|items| - 1])
  }

  /** What a tarball must be like to be unpacked: affordable, and with no path both a file and a directory. */
  ghost predicate Fits(root: string, l: Limits, start: Tree, items: seq<Item>)
    requires root != ""
  {
    Affordable(root, l, items) && Compatible(start, AllPlaced(root, items))
  }

  lemma OneMoreItem(root: string, items: seq<Item>, item: Item)
    requires root != ""
    ensures Wanted(root, items + [item]) ==
              if item.skip || RelName(root, item.name).None? then Wanted(root, items)
              else Wanted(root, items) + Prefixes(RelName(root, item.name).value)
    ensures Brought(items + [item]) == Brought(items) + if item.skip || !item.kind.Regular? then 0 else |item.data|
    ensures Declared(items + [item]) == Declared(items) + if item.skip then 0 else item.size
  {
  }

  lemma {:induction false} CountsGrow(root: string, l: Limits, items: seq<Item>, n: nat)
    requires root != "" && 0 <= l.blockSize && n <= |items| && WellFormed(items)
    ensures Wanted(root, items[..n]) <= Wanted(root, items) && |Wanted(root, items[..n])| <= |Wanted(root, items)|
    ensures Brought(items[..n]) <= Brought(items) && Declared(items[..n]) <= Declared(items)
    decreases |items|
  {
    hide Wanted, Brought, Declared, RelName, Prefixes;
    if n == |items| {
      assert items[..n] == items;
    } else {
      var front, last := items[..|items| - 1], items[|items| - 1];
      assert last in items && forall i | i in front :: i in items;
      CountsGrow(root, l, front, n);
      assert front[..n] == items[..n] && front + [last] == items;
      OneMoreItem(root, front, last);
      Larger(Wanted(root, items[..n]), Wanted(root, items));
    }
  }

  lemma AffordableFromTheStart(root: string, l: Limits, items: seq<Item>, n: nat)
    requires root != "" && 0 <= l.blockSize && n <= |items| && WellFormed(items) && Affordable(root, l, items)
    ensures Affordable(root, l, items[..n])
  {
    hide Wanted, Brought, Declared, GoodItem, Cost;
    CountsGrow(root, l, items, n);
    CostGrows(l, |Wanted(root, items[..n])|, |Wanted(root, items)|);
  }

  lemma {:induction false} PlacedFromTheStart(root: string, items: seq<Item>, n: nat) returns (more: seq<Entry>)
    requires root != "" && n <= |items|
    ensures AllPlaced(root, items) == AllPlaced(root, items[..n]) + more
    decreases |items|
  {
    hide Placed;
    if n == |items| {
      assert items[..n] == items;
      more := [];
    } else {
      var front := items[..|items| - 1];
      assert front[..n] == items[..n];
      var rest := PlacedFromTheStart(root, front, n);
      more := rest + Placed(root, items[|items| - 1]);
    }
  }

  /** A tarball that fits has only fitting beginnings. */
  lemma FitsFromTheStart(root: string, l: Limits, start: Tree, items: seq<Item>, n: nat)
    requires root != "" && 0 <= l.blockSize && n <= |items| && WellFormed(items) && Fits(root, l, start, items)
    ensures Fits(root, l, start, items[..n])
  {
    hide Affordable, Compatible, AllPlaced;
    AffordableFromTheStart(root, l, items, n);
    var more := PlacedFromTheStart(root, items, n);
    CompatibleFromTheStart(start, AllPlaced(root, items[..n]), more);
  }

  /** The entries charged, the bytes written into files, and the destination with all below it. */
  datatype Disk = Disk(entries: set<string>, written: nat, tree: Tree)

  function Usage(l: Limits, d: Disk): int
  {
    d.written + Cost(l, |d.entries|)
  }

  lemma UsageMeans(l: Limits, d: Disk)
    ensures Usage(l, d) == d.written + l.blockSize * |d.entries|
  {
  }

  lemma UsageIsTotal(limiter: Limiter)
    requires limiter.Valid()
    ensures limiter.totalSize == Bytes(limiter.accepted) + Cost(limiter.limits, |limiter.uniqueDirEntries|)
    ensures limiter.totalSize == Total(limiter.limits, limiter.accepted) <= limiter.limits.maxDiskSize
    ensures limiter.uniqueDirEntries == Entries(limiter.accepted)
  {
  }

  /** `os.MkdirAll`: fails when a file is in the way. */
  method MakeDirs(dirs: set<string>, tree: Tree) returns (after: Tree, ok: bool)
    ensures ok <==> dirs !! tree.files.Keys
    ensures ok ==> after == tree.(dirs := tree.dirs + dirs)
  {
    ok := dirs !! tree.files.Keys;
    after := if ok then tree.(dirs := tree.dirs + dirs) else tree;
  }

  /** A directory is made with all above it; of a file the parent is, which for the destination itself lies outside. */
  function DirsFor(item: Item, rel: string): set<string>
  {
    if item.kind.Directory? then Above(rel) else if rel == "." then {} else Above(Parent(rel))
  }

  lemma DirsOfEntry(item: Item, rel: string)
    requires !item.kind.Other? && IsInside(rel)
    ensures DirsFor(item, rel) == Needs(EntryOf(item, rel))
  {
    hide IsInside, Parent, Above;
    if item.kind.Regular? {
      hide Needs;
      if rel == "." { NeedsOfDot(item.data); } else { NeedsOfFile(rel, item.data); }
    }
  }

  /** Resolves the entry, charges it to both limiters and makes its directories. */
  method CreateDirFor(root: string, item: Item, declared: Limiter, actual: Limiter, tree: Tree)
    returns (rel: string, diskSize: int, after: Tree, err: Option<Outcome>)
    requires root != "" && IsRoot(root) && 0 <= item.size <= MAX_INT64 && !item.kind.Other?
    requires declared != actual && declared.Valid() && actual.Valid()
    modifies declared, actual
    ensures err != Some(Done) && err != Some(BadHeader)
    ensures err.None? <==>
              && RelName(root, item.name).Some?
              && Acceptable(declared.limits, old(declared.accepted) + [(RelName(root, item.name).value, item.size)])
              && Acceptable(actual.limits, old(actual.accepted) + [(RelName(root, item.name).value, 0)])
              && Needs(EntryOf(item, RelName(root, item.name).value)) !! tree.files.Keys
    ensures err.None? ==>
              && declared.Valid() && actual.Valid() && RelName(root, item.name) == Some(rel) && IsInside(rel)
              && diskSize == actual.totalSize
              && declared.accepted == old(declared.accepted) + [(rel, item.size)]
              && actual.accepted == old(actual.accepted) + [(rel, 0)]
              && after == tree.(dirs := tree.dirs + Needs(EntryOf(item, rel)))
  {
    hide Needs, RelName, IsInside, Acceptable, Above, Parent, Prefixes;
    var abs := AbsPathNoEscape(root, item.name);
    ResolvesIffInside(root, item.name);
    if abs.None? {
      return "", 0, tree, Some(Escape);
    }
    rel := RelName(root, item.name).value;
    RelNameIsInside(root, item.name);
    var _, e1 := declared.Check(rel, item.size);
    if e1.Some? {
      return rel, 0, tree, Some(Limit(e1.value));
    }
    var total, e2 := actual.Check(rel, 0);
    if e2.Some? {
      return rel, total, tree, Some(Limit(e2.value));
    }
    DirsOfEntry(item, rel);
    var made;
    after, made := MakeDirs(DirsFor(item, rel), tree);
    return rel, total, after, if made then None else Some(Conflict);
  }

  lemma ResolvesIffInside(root: string, name: string)
    requires root != ""
    ensures AbsPathNoEscape(root, name).Some? <==> RelName(root, name).Some?
  {
  }

  /** Copies at most one byte more than is still allowed, then lets the limiter judge what was read. */
  method WriteFile(item: Item, rel: string, diskSize: int, actual: Limiter, d: Disk)
    returns (after: Disk, err: Option<Outcome>)
    requires actual.Valid() && IsInside(rel) && Prefixes(rel) <= actual.uniqueDirEntries &&
        |rel| <= actual.limits.maxPathLen
    requires diskSize == actual.totalSize && d.entries == actual.uniqueDirEntries && d.written == Bytes(actual.accepted)
    modifies actual
    ensures err != Some(Done) && err != Some(BadHeader)
    ensures after.entries == d.entries && Usage(actual.limits, after) <= actual.limits.maxDiskSize + 1
    ensures err.None? <==>
              && rel !in d.tree.dirs && |item.data| <= actual.limits.maxItemSize && !item.broken
              && d.written + |item.data| + Cost(actual.limits, |d.entries|) <= actual.limits.maxDiskSize
    ensures err.None? ==>
              && actual.Valid() && after.written == d.written + |item.data|
              && actual.accepted == old(actual.accepted) + [(rel, |item.data|)]
              && after.tree == Written(d.tree, rel, item.data)
  {
    hide Total, Cost, Entries, Prefixes, Overlay;
    UsageIsTotal(actual);
    if rel in d.tree.dirs {
      return d, Some(Conflict);
    }
    var limit := 1 + Min(actual.limits.maxItemSize, actual.limits.maxDiskSize - diskSize);
    var copied := Min(limit, |item.data|);
    after := Disk(d.entries, d.written + copied, Written(d.tree, rel, item.data[..copied]));
    ghost var calls := actual.accepted;
    OneMoreCall(actual.limits, calls, rel, copied);
    assert Entries(calls + [(rel, copied)]) == Entries(calls);
    if item.broken && |item.data| < limit {
      return after, Some(ReadFailed);
    }
    var _, e := actual.Check(rel, copied);
    if e.Some? {
      return after, Some(Limit(e.value));
    }
    assert Acceptable(actual.limits, calls + [(rel, copied)]);
    assert item.data[..|item.data|] == item.data;
    return after, None;
  }

  /** The tree after bytes were written from the start of a file opened without truncation. */
  function Written(t: Tree, path: string, data: string): Tree
  {
    t.(files := t.files[path := Overlay(if path in t.files then t.files[path] else "", data)])
  }

  /** What the unpacking loop knows after the entries `items`. */
  ghost predicate InStep(root: string, start: Tree, items: seq<Item>, declared: Limiter, actual: Limiter, d: Disk)
    requires root != ""
    reads declared, actual
  {
    && declared != actual && declared.Valid() && actual.Valid() && declared.limits == actual.limits
    && Fits(root, actual.limits, start, items)
    && d.entries == actual.uniqueDirEntries == declared.uniqueDirEntries == Wanted(root, items)
    && d.written == Bytes(actual.accepted) == Brought(items) && Bytes(declared.accepted) == Declared(items)
    && d.tree == PlaceAll(start, AllPlaced(root, items))
  }

  lemma NothingYet(root: string, l: Limits, start: Tree)
    requires root != "" && Sane(l) && start.dirs !! start.files.Keys
    ensures Wanted(root, []) == {} && Brought([]) == 0 && Declared([]) == 0 && Bytes([]) == 0 && Entries([]) == {}
    ensures Fits(root, l, start, []) && PlaceAll(start, AllPlaced(root, [])) == start
  {
    NoFilePaths([]);
  }

  /** The entry alone may already rule a tarball out. */
  predicate Hopeless(root: string, item: Item)
    requires root != ""
  {
    item.kind.Other? || (item.kind.Regular? && item.name == "") || RelName(root, item.name).None?
  }

  lemma OwnVerdict(root: string, l: Limits, start: Tree, items: seq<Item>, item: Item)
    requires root != "" && Fits(root, l, start, items)
    ensures item.skip ==> Fits(root, l, start, items + [item])
    ensures !item.skip && Hopeless(root, item) ==> !Fits(root, l, start, items + [item])
  {
    hide Compatible, Wanted, Brought, Declared, Cost, RelName;
    OneMoreItem(root, items, item);
    OneMorePlaced(root, items, item);
    assert forall i | i in items + [item] :: i in items || i == item;
    assert item in items + [item];
    assert AllPlaced(root, items) + [] == AllPlaced(root, items);
  }

  lemma OneMorePlaced(root: string, items: seq<Item>, item: Item)
    requires root != ""
    ensures AllPlaced(root, items + [item]) == AllPlaced(root, items) + Placed(root, item)
  {
    hide Placed;
    assert (items + [item])[..|items|] == items;
  }

  /** Whether the books allow one more entry, said by the sums. */
  lemma NextAffordable(root: string, l: Limits, items: seq<Item>, item: Item)
    requires root != "" && Sane(l) && Affordable(root, l, items)
    requires !item.skip && !Hopeless(root, item)
    ensures var rel := RelName(root, item.name).value;
            var entries := |Wanted(root, items) + Prefixes(rel)|;
            Affordable(root, l, items + [item]) <==>
              && |rel| <= l.maxPathLen && item.size <= l.maxItemSize && entries <= l.maxNumItems
              && Declared(items) + item.size + Cost(l, entries) <= l.maxDiskSize
              && (item.kind.Regular? ==> |item.data| <= l.maxItemSize && !item.broken)
              && Brought(items) + (if item.kind.Regular? then |item.data| else 0) + Cost(l, entries) <= l.maxDiskSize
  {
    hide RelName, Prefixes, Cost, Wanted, Brought, Declared;
    OneMoreItem(root, items, item);
    assert forall i | i in items + [item] :: i in items || i == item;
    assert item in items + [item] && forall i | i in items :: i in items + [item];
  }

  /** Whether the limiters accept the calls of one entry, said by the same sums. */
  lemma NextAccepted(l: Limits, calls: seq<(string, int)>, rel: string, size: int)
    ensures Acceptable(l, calls + [(rel, size)]) <==>
              && size <= l.maxItemSize && |rel| <= l.maxPathLen && |Entries(calls) + Prefixes(rel)| <= l.maxNumItems
              && Bytes(calls) + size + Cost(l, |Entries(calls) + Prefixes(rel)|) <= l.maxDiskSize
  {
    hide Entries, Prefixes, Cost, Bytes, Total;
    OneMoreCall(l, calls, rel, size);
  }

  /** For any other entry the calls to the two limiters decide, and then what its file brings. */
  lemma NextFits(root: string, l: Limits, items: seq<Item>, item: Item, declared: seq<(string, int)>,
                 actual: seq<(string, int)>)
    requires root != "" && Sane(l) && Affordable(root, l, items)
    requires Entries(declared) == Entries(actual) == Wanted(root, items)
    requires Bytes(declared) == Declared(items) && Bytes(actual) == Brought(items)
    requires !item.skip && !Hopeless(root, item) && 0 <= item.size
    ensures var rel := RelName(root, item.name).value;
            Affordable(root, l, items + [item]) <==>
              && Acceptable(l, declared + [(rel, item.size)]) && Acceptable(l, actual + [(rel, 0)])
              && (item.kind.Regular? ==>
                   && |item.data| <= l.maxItemSize && !item.broken
                   && Brought(items) + |item.data| + Cost(l, |Entries(actual) + Prefixes(rel)|) <= l.maxDiskSize)
    ensures Acceptable(l, actual + [(RelName(root, item.name).value, 0)]) ==>
        |RelName(root, item.name).value| <= l.maxPathLen
  {
    var rel := RelName(root, item.name).value;
    NextAffordable(root, l, items, item);
    NextAccepted(l, declared, rel, item.size);
    NextAccepted(l, actual, rel, 0);
    hide *;
  }

  /** The tree allows the entry if and only if its directories can be made and its file can be opened. */
  lemma NextCompatible(root: string, start: Tree, items: seq<Item>, item: Item, tree: Tree)
    requires root != "" && Compatible(start, AllPlaced(root, items)) && tree == PlaceAll(start, AllPlaced(root, items))
    requires !item.skip && !Hopeless(root, item)
    ensures var rel := RelName(root, item.name).value;
            var made := tree.(dirs := tree.dirs + Needs(EntryOf(item, rel)));
            && (Compatible(start, AllPlaced(root, items + [item])) <==>
                 && Needs(EntryOf(item, rel)) !! tree.files.Keys && (item.kind.Regular? ==> rel !in made.dirs))
            && PlaceAll(start, AllPlaced(root, items + [item]))
                 == if item.kind.Regular? then Written(made, rel, item.data) else made
  {
    hide Compatible, RelName, Overlay, Prefixes;
    var rel := RelName(root, item.name).value;
    var es, e := AllPlaced(root, items), EntryOf(item, rel);
    OneMorePlaced(root, items, item);
    assert Placed(root, item) == [e];
    NextIsPlaceable(start, es, e);
    assert (es + [e])[..|es|] == es;
    assert item.kind.Regular? ==> rel !in Needs(e);
  }

  /** What becomes of the next entry: it is taken along, or it ends the run and the tarball does not fit. */
  method UnpackItem(root: string, ghost start: Tree, ghost items: seq<Item>, item: Item, declared: Limiter,
                    actual: Limiter, d: Disk)
    returns (stop: Option<Outcome>, after: Disk)
    requires root != "" && IsRoot(root) && InStep(root, start, items, declared, actual, d) &&
        0 <= item.size <= MAX_INT64
    modifies declared, actual
    ensures stop != Some(Done) && stop != Some(BadHeader)
    ensures stop.None? ==> InStep(root, start, items + [item], declared, actual, after)
    ensures stop.Some? ==> !Fits(root, actual.limits, start, items + [item])
    ensures Usage(actual.limits, after) <= actual.limits.maxDiskSize + 1
  {
    hide Wanted, Brought, Declared, RelName, Prefixes, Entries, Bytes, Total, Cost, IsRoot, IsInside, Affordable,
        Acceptable;
    hide AllPlaced, Compatible, Needs, Written, PlaceAll, Hopeless;
    ghost var limits := actual.limits;
    UsageIsTotal(actual);
    UsageIsTotal(declared);
    OneMoreItem(root, items, item);
    OwnVerdict(root, limits, start, items, item);
    if item.skip {
      SkippedPlacesNothing(root, items, item);
      return None, d;
    }
    ghost var calls, charged := actual.accepted, declared.accepted;
    HopelessCases(root, item);
    if !Hopeless(root, item) {
      NextFits(root, limits, items, item, charged, calls);
      NextCompatible(root, start, items, item, d.tree);
    }
    if item.kind.Other? {
      return Some(BadKind), d;
    }
    if item.kind.Regular? && item.name == "" {
      return Some(NoName), d;
    }
    var rel, diskSize, tree, err := CreateDirFor(root, item, declared, actual, d.tree);
    if err.Some? {
      return err, d;
    }
    OneMoreCall(limits, calls, rel, 0);
    OneMoreCall(limits, charged, rel, item.size);
    UsageIsTotal(actual);
    UsageIsTotal(declared);
    after := Disk(actual.uniqueDirEntries, d.written, tree);
    if item.kind.Regular? {
      OneMoreCall(limits, actual.accepted, rel, |item.data|);
      after, err := WriteFile(item, rel, diskSize, actual, after);
      if err.Some? {
        return err, after;
      }
      UsageIsTotal(actual);
    }
    stop := None;
  }

  lemma SkippedPlacesNothing(root: string, items: seq<Item>, item: Item)
    requires root != "" && item.skip
    ensures AllPlaced(root, items + [item]) == AllPlaced(root, items)
  {
    OneMorePlaced(root, items, item);
  }

  lemma HopelessCases(root: string, item: Item)
    requires root != ""
    ensures Hopeless(root, item) <==>
              item.kind.Other? || (item.kind.Regular? && item.name == "") || RelName(root, item.name).None?
  {
  }

  // ---- What the destination holds, said of the items ----

  /** The item is a file, not skipped, whose path in the archive leads to this place in the destination. */
  predicate FileAt(root: string, item: Item, rel: string)
    requires root != ""
  {
    !item.skip && item.kind.Regular? && AbsPathNoEscape(root, item.name) == Some(JoinPath(root, rel))
  }

  lemma JoinInside(root: string, rel: string)
    requires root != "" && IsRoot(root) && IsInside(rel)
    ensures JoinPath(root, rel) == Text(IsRooted(root), SegsOf(root) + InsideSegs(rel))
    ensures Segments(SegsOf(root) + InsideSegs(rel))
  {
    hide Follow, Text;
    InsideIsRelative(rel);
    JoinIsFollow(root, rel);
    DownFollows(IsRooted(root), SegsOf(root), InsideSegs(rel));
  }

  /** The relative name of an item is the place in the destination that it resolves to. */
  lemma RelNameMeans(root: string, name: string, rel: string)
    requires root != "" && IsRoot(root) && IsInside(rel)
    ensures RelName(root, name) == Some(rel) <==> AbsPathNoEscape(root, name) == Some(JoinPath(root, rel))
  {
    hide Follow, AbsPathNoEscape, JoinPath, Text, IsInside, RelPath, InsideSegs;
    if AbsPathNoEscape(root, name).Some? {
      RelativePathRoundTrip(root, name);
      var found := RelName(root, name).value;
      JoinInside(root, found);
      JoinInside(root, rel);
      InsideIsRelative(rel);
      InsideIsRelative(found);
      if JoinPath(root, found) == JoinPath(root, rel) {
        TextIsInjective(IsRooted(root), SegsOf(root) + InsideSegs(found), SegsOf(root) + InsideSegs(rel));
        assert InsideSegs(found) == (SegsOf(root) + InsideSegs(found))[|SegsOf(root)|..];
        assert InsideSegs(rel) == (SegsOf(root) + InsideSegs(rel))[|SegsOf(root)|..];
      }
    }
  }

  lemma {:induction false} PlacedBySome(root: string, items: seq<Item>, e: Entry)
    requires root != ""
    ensures e in AllPlaced(root, items) <==> exists i :: i in items && e in Placed(root, i)
  {
    hide Placed;
    if items != [] {
      PlacedBySome(root, items[..|items| - 1], e);
      assert items == items[..|items| - 1] + [items[|items| - 1]];
    }
  }

  /** After unpacking there is a file where there was one before or an item of the archive is one, and nowhere else. */
  lemma FilesUnpacked(root: string, start: Tree, items: seq<Item>, rel: string)
    requires root != "" && IsRoot(root) && IsInside(rel)
    ensures rel in PlaceAll(start, AllPlaced(root, items)).files
            <==> rel in start.files || exists i :: i in items && FileAt(root, i, rel)
  {
    hide AbsPathNoEscape, JoinPath, IsInside, IsRoot, AllPlaced, PlaceAll, RelName;
    var es := AllPlaced(root, items);
    PlacedTree(start, es);
    forall i | i in items ensures FileAt(root, i, rel) <==> exists e ::
        e in Placed(root, i) && e.FileEntry? && e.path == rel {
      RelNameMeans(root, i.name, rel);
      if FileAt(root, i, rel) { assert FileEntry(rel, i.data) in Placed(root, i); }
    }
    forall e ensures e in es <==> exists i :: i in items && e in Placed(root, i) { PlacedBySome(root, items, e); }
    hide FileAt, Placed;
    assert rel in FilePaths(es) <==> exists e :: e in es && e.FileEntry? && e.path == rel;
  }

  /** What a place in the destination has above it, by segments. */
  lemma AboveMeans(segs: seq<string>, rel: string)
    requires Names(segs) && IsInside(rel)
    ensures rel in Above(Relative(segs)) <==> InsideSegs(rel) <= segs
  {
    hide Relative, Above, IsInside, InsideSegs;
    InsideIsRelative(rel);
    assert segs[..|segs|] == segs;
    AboveOfPrefix(segs, |segs|);
    RelativeOfNone([]);
    var down := InsideSegs(rel);
    if down <= segs && down != [] { assert segs[..|down|] == down; }
    if i :| 1 <= i <= |segs| && rel == Relative(segs[..i]) {
      NamesOfPrefix(segs, i);
      InsideOfNames(segs[..i]);
      assert down == segs[..i];
    }
    if rel == "." { InsideOfNames([]); }
  }

  /** The item needs a directory at this place: it is one there or below, or a file below. */
  predicate NeedsDir(root: string, item: Item, rel: string)
    requires root != ""
  {
    && !item.skip && AbsPathNoEscape(root, item.name).Some?
    && var path := Follow(IsRooted(root), SegsOf(root), item.name);
       var dir := SegsOf(root) + InsideSegs(rel);
       if item.kind.Regular? then dir < path else dir <= path
  }

  /** What an item needs, by segments. */
  lemma NeedsMeans(root: string, item: Item, rel: string)
    requires root != "" && IsRoot(root) && IsInside(rel)
    ensures NeedsDir(root, item, rel) <==> exists e :: e in Placed(root, item) && rel in Needs(e)
  {
    hide Follow, AbsPathNoEscape, JoinPath, IsInside, IsRoot, Above, RelPath, InsideSegs;
    var r, path := SegsOf(root), Follow(IsRooted(root), SegsOf(root), item.name);
    if !item.skip && AbsPathNoEscape(root, item.name).Some? {
      RelativePathRoundTrip(root, item.name);
      var found := RelName(root, item.name).value;
      InsideIsRelative(found);
      InsideIsRelative(rel);
      var below, down := InsideSegs(found), InsideSegs(rel);
      assert path == r + below && path[|r|..] == below;
      AboveMeans(below, rel);
      SamePrefixSegs(r, down, below);
      var e := EntryOf(item, found);
      assert Placed(root, item) == [e];
      assert rel in Needs(e) <==> rel in Above(found) && (item.kind.Regular? ==> rel != found);
    }
  }

  lemma SamePrefixSegs(r: seq<string>, a: seq<string>, b: seq<string>)
    ensures r + a <= r + b <==> a <= b
    ensures r + a < r + b <==> a < b
    ensures a <= b && a != b <==> a < b
  {
    assert (r + a)[|r|..] == a && (r + b)[|r|..] == b;
    if r + a <= r + b {
      assert a == (r + b)[|r|..|r| + |a|] == b[..|a|];
    }
    if a <= b { assert r + b == r + a + b[|a|..]; }
  }

  /** After unpacking there is a directory where there was one before or an item of the archive needs one, and nowhere
      else. */
  lemma DirsUnpacked(root: string, start: Tree, items: seq<Item>, rel: string)
    requires root != "" && IsRoot(root) && IsInside(rel)
    ensures rel in PlaceAll(start, AllPlaced(root, items)).dirs
            <==> rel in start.dirs || exists i :: i in items && NeedsDir(root, i, rel)
  {
    hide AbsPathNoEscape, IsInside, IsRoot, AllPlaced, PlaceAll, RelName, NeedsDir, Needs, Placed;
    var es := AllPlaced(root, items);
    PlacedTree(start, es);
    NeededBySome(es, rel);
    forall e ensures e in es <==> exists i :: i in items && e in Placed(root, i) { PlacedBySome(root, items, e); }
    forall i | i in items ensures NeedsDir(root, i, rel) <==> exists e :: e in Placed(root, i) && rel in Needs(e) {
      NeedsMeans(root, i, rel);
    }
  }

  /** Item `j` writes byte `k` of the file at the place. */
  predicate WritesByte(root: string, items: seq<Item>, rel: string, j: int, k: nat)
    requires root != ""
  {
    0 <= j < |items| && FileAt(root, items[j], rel) && k < |items[j].data|
  }

  /** Byte `k` is the last written one, or the one that was there when no item writes it. */
  ghost predicate LastWritten(root: string, before: string, items: seq<Item>, rel: string, k: nat, after: string)
    requires root != ""
  {
    && (k < |after| <==> k < |before| || exists j :: WritesByte(root, items, rel, j, k))
    && (forall j | WritesByte(root, items, rel, j, k) && !exists i :: j < i && WritesByte(root, items, rel, i, k) ::
          k < |after| && after[k] == items[j].data[k])
    && (k < |before| && !(exists j :: WritesByte(root, items, rel, j, k)) ==> k < |after| && after[k] == before[k])
  }

  lemma OneMoreWritten(root: string, before: string, front: seq<Item>, last: Item, rel: string, k: nat, was: string)
    requires root != "" && LastWritten(root, before, front, rel, k, was)
    ensures LastWritten(root, before, front + [last], rel, k,
                        if FileAt(root, last, rel) then Overlay(was, last.data) else was)
  {
    hide FileAt;
    var items, n := front + [last], |front|;
    forall j | 0 <= j < n ensures WritesByte(root, front, rel, j, k) == WritesByte(root, items, rel, j, k) {
      assert front[j] == items[j];
    }
    assert forall j :: WritesByte(root, front, rel, j, k) <==> j < n && WritesByte(root, items, rel, j, k);
    assert WritesByte(root, items, rel, n, k) <==> FileAt(root, last, rel) && k < |last.data|;
  }

  lemma {:induction false} ContentIsLastWritten(root: string, before: string, items: seq<Item>, rel: string, k: nat)
    requires root != "" && IsRoot(root) && IsInside(rel)
    ensures LastWritten(root, before, items, rel, k, Content(before, AllPlaced(root, items), rel))
  {
    hide AbsPathNoEscape, JoinPath, IsInside, IsRoot, RelName;
    if items != [] {
      var front, last := items[..|items| - 1], items[|items| - 1];
      assert items == front + [last];
      hide FileAt, AllPlaced, Content, LastWritten;
      ContentIsLastWritten(root, before, front, rel, k);
      RelNameMeans(root, last.name, rel);
      LastItem(root, before, front, last, rel);
      OneMoreWritten(root, before, front, last, rel, k, Content(before, AllPlaced(root, front), rel));
    }
  }

  lemma LastItem(root: string, before: string, front: seq<Item>, last: Item, rel: string)
    requires root != ""
    requires RelName(root, last.name) == Some(rel)
        <==> AbsPathNoEscape(root, last.name) == Some(JoinPath(root, rel))
    ensures var was := Content(before, AllPlaced(root, front), rel);
            Content(before, AllPlaced(root, front + [last]), rel)
              == if FileAt(root, last, rel) then Overlay(was, last.data) else was
  {
    hide AbsPathNoEscape, JoinPath, RelName, Overlay, Content, AllPlaced;
    OneMorePlaced(root, front, last);
    var es := AllPlaced(root, front);
    if Placed(root, last) == [] {
      assert es + [] == es;
    } else {
      OneMoreLaid(before, es, Placed(root, last)[0], rel);
    }
  }

  /** After unpacking every byte of a file is that of the last item of this path that is long enough, or the one that
      was there before when there is no such item. */
  lemma BytesUnpacked(root: string, start: Tree, items: seq<Item>, rel: string, k: nat)
    requires root != "" && IsRoot(root) && IsInside(rel) && rel in PlaceAll(start, AllPlaced(root, items)).files
    ensures LastWritten(root, if rel in start.files then start.files[rel] else "", items, rel, k,
                        PlaceAll(start, AllPlaced(root, items)).files[rel])
  {
    hide LastWritten, PlaceAll, Content, AllPlaced, IsRoot, IsInside;
    FileHolds(start, AllPlaced(root, items), rel);
    ContentIsLastWritten(root, if rel in start.files then start.files[rel] else "", items, rel, k);
  }

  /** Unpacks a tarball into what is at the destination. `complete` says whether the stream ends after these entries;
      else the next header is malformed or cut off, or the reader cannot get past the bytes of a skipped entry. It
      succeeds exactly when the tarball is complete and fits, and then the destination holds all of its directories and
      files, a repeated file laid over the earlier one; however it ends, no more than one byte over the limit was
      charged and written. */
  method Unpack(root: string, start: Tree, items: seq<Item>, complete: bool, limits: Limits)
    returns (outcome: Outcome, d: Disk)
    requires root != "" && IsRoot(root) && Sane(limits) && WellFormed(items) && start.dirs !! start.files.Keys
    ensures d.written + limits.blockSize * |d.entries| <= limits.maxDiskSize + 1
    ensures outcome.Done? <==> complete && Fits(root, limits, start, items)
    ensures outcome.Done? || outcome.BadHeader? ==>
        d == Disk(Wanted(root, items), Brought(items), PlaceAll(start, AllPlaced(root, items)))
  {
    hide Wanted, Brought, Declared, RelName, Prefixes, Entries, Bytes, Total, Cost, IsRoot, IsInside, Fits, Acceptable;
    hide AllPlaced, PlaceAll;
    NothingYet(root, limits, start);
    CostGrows(limits, 0, 0);
    var declared := new Limiter(limits);
    var actual := new Limiter(limits);
    d := Disk({}, 0, start);
    UsageIsTotal(actual);
    for n := 0 to |items|
      invariant fresh(declared) && fresh(actual) && actual.limits == limits
      invariant InStep(root, start, items[..n], declared, actual, d)
      invariant Usage(limits, d) <= limits.maxDiskSize + 1
    {
      assert items[..n + 1] == items[..n] + [items[n]];
      if Fits(root, limits, start, items) {
        FitsFromTheStart(root, limits, start, items, n + 1);
      }
      var stop;
      stop, d := UnpackItem(root, start, items[..n], items[n], declared, actual, d);
      if stop.Some? {
        UsageMeans(limits, d);
        return stop.value, d;
      }
    }
    assert items[..|items|] == items;
    UsageMeans(limits, d);
    return if complete then Done else BadHeader, d;
  }
}
