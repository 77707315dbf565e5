/** The chain of root metadata: importing the roots of another server, adding one that links to them, and reading the
    chain back. Parsing, key ids and signatures are functions the model knows only by law. */
module TufRoots {
  import opened TextLines

  type Bytes = seq<int>
  type Key = int
  type KeyId = int

  datatype Role = RootRole | TargetsRole | SnapshotRole | TimestampRole

  datatype RoleKeys = RoleKeys(keyIds: seq<KeyId>, threshold: int)

  /** The signed part of a root. */
  datatype RootMeta = RootMeta(version: int, expires: int, keys: map<KeyId, Key>, roles: map<Role, RoleKeys>)

  /** Made with the private half of `key`. */
  datatype Signature = Signature(keyId: KeyId, key: Key, message: RootMeta)

  datatype Root = Root(signed: RootMeta, signatures: seq<Signature>)

  datatype Codec = Codec(encode: Root -> Bytes, decode: Bytes -> Option<Root>, keyId: Key -> KeyId)

  ghost predicate Faithful(c: Codec)
  {
    forall r: Root :: c.decode(c.encode(r)) == Some(r)
  }

  // ---- File names ----

  const SUFFIX := ".root.json"

  function Decimal(n: nat): (s: string)
    ensures s != "" && forall i | 0 <= i < |s| :: '0' <= s[i] <= '9'
  {
    if n < 10 then ['0' + n as char] else Decimal(n / 10) + ['0' + (n % 10) as char]
  }

  function Digits(s: string): Option<nat>
  {
    if s == "" then Some(0)
    else
      var high, d := Digits(s[..|s| - 1]), s[|s| - 1];
      if high.None? || !('0' <= d <= '9') then None else Some(10 * high.value + (d - '0') as nat)
  }

  /** `strconv.Atoi`, for numbers of any size. */
  function ParseInt(s: string): Option<int>
  {
    var digits := if s != "" && (s[0] == '-' || s[0] == '+') then s[1..] else s;
    var n := Digits(digits);
    if digits == "" || n.None? then None
    else
      var magnitude: int := n.value;
      Some(if s[0] == '-' then -magnitude else magnitude)
  }

  function RootName(n: nat): string
  {
    Decimal(n) + SUFFIX
  }

  predicate HasSuffix(name: string)
  {
    |name| >= |SUFFIX| && name[|name| - |SUFFIX|..] == SUFFIX
  }

  function RootVersion(name: string): int
  {
    var n := ParseInt(if HasSuffix(name) then name[..|name| - |SUFFIX|] else name);
    if n.Some? then n.value else 0
  }

  lemma {:induction false} DigitsOfDecimal(n: nat)
    ensures Digits(Decimal(n)) == Some(n)
  {
    if n < 10 {
      assert Decimal(n)[..0] == "";
    } else {
      DigitsOfDecimal(n / 10);
      var s := Decimal(n);
      assert s[..|s| - 1] == Decimal(n / 10);
    }
  }

  /** A root file is one whose name ends so. */
  lemma SuffixMeans(name: string)
    ensures HasSuffix(name) <==> exists stem :: name == stem + ".root.json"
  {
    if HasSuffix(name) { assert name == name[..|name| - |SUFFIX|] + ".root.json"; }
  }

  /** The version is read back from the name, so different versions have different names. */
  lemma RootNameRoundTrip(n: nat)
    ensures HasSuffix(RootName(n)) && RootVersion(RootName(n)) == n
    ensures RootName(n) == Decimal(n) + ".root.json"
  {
    DigitsOfDecimal(n);
    var name, s := RootName(n), Decimal(n);
    assert name[..|name| - |SUFFIX|] == s && name[|name| - |SUFFIX|..] == SUFFIX;
    assert '0' <= s[0] <= '9';
  }

  lemma {:induction false} DigitsIff(s: string)
    ensures Digits(s).Some? <==> forall c | c in s :: '0' <= c <= '9'
  {
    if s != "" {
      var front, d := s[..|s| - 1], s[|s| - 1];
      DigitsIff(front);
      assert s == front + [d];
      forall c | c in front ensures c in s {}
      forall c | c in s ensures c in front || c == d {
        var i :| 0 <= i < |s| && s[i] == c;
        if i < |front| { assert front[i] == c; }
      }
      assert d in s;
    }
  }

  /** A signed number counts with its sign, and a name that is no number as version zero. */
  lemma OddNames(n: nat, stem: string)
    ensures RootVersion("-" + Decimal(n) + ".root.json") + n == 0 && RootVersion("+" + Decimal(n) + ".root.json") == n
    ensures (exists c :: c in stem && !('0' <= c <= '9') && c != '-' && c != '+') ==>
              RootVersion(stem + ".root.json") == 0
  {
    hide Decimal, Digits, HasSuffix;
    DigitsOfDecimal(n);
    var minus, plus := "-" + Decimal(n), "+" + Decimal(n);
    assert minus[1..] == Decimal(n) && plus[1..] == Decimal(n);
    StemOf(minus);
    StemOf(plus);
    StemOf(stem);
    if c :| c in stem && !('0' <= c <= '9') && c != '-' && c != '+' {
      NoNumber(stem, c);
    }
  }

  lemma NoNumber(stem: string, c: char)
    requires c in stem && !('0' <= c <= '9') && c != '-' && c != '+'
    ensures ParseInt(stem) == None
  {
    hide Digits;
    var digits := if stem[0] == '-' || stem[0] == '+' then stem[1..] else stem;
    assert stem == [stem[0]] + stem[1..];
    DigitsIff(digits);
    assert c in digits;
  }

  lemma StemOf(stem: string)
    ensures var name := stem + ".root.json"; HasSuffix(name) && name[..|name| - |SUFFIX|] == stem
  {
  }

  // ---- Ascending versions ----

  predicate Ascending(v: seq<int>)
  {
    forall i, j | 0 <= i < j < |v| :: v[i] <= v[j]
  }

  predicate CoversUpTo(v: seq<int>, m: nat)
  {
    forall k | 1 <= k <= m :: k in v
  }

  lemma {:induction false} NotTooEarly(v: seq<int>, m: nat, i: nat)
    requires Ascending(v) && CoversUpTo(v, m) && i < |v| && 1 <= v[i] <= m
    ensures i >= v[i] - 1
    decreases v[i]
  {
    if v[i] > 1 {
      assert v[i] - 1 in v;
      var j :| 0 <= j < |v| && v[j] == v[i] - 1;
      NotTooEarly(v, m, j);
    }
  }

  lemma {:induction false} NotTooLate(v: seq<int>, m: nat, i: nat)
    requires Ascending(v) && CoversUpTo(v, m) && |v| == m && i < |v| && 1 <= v[i] <= m
    ensures i <= v[i] - 1
    decreases m - v[i]
  {
    if v[i] < m {
      assert v[i] + 1 in v;
      var j :| 0 <= j < |v| && v[j] == v[i] + 1;
      NotTooLate(v, m, j);
    }
  }

  predicate OneByOne(v: seq<int>)
  {
    forall i | 0 <= i < |v| :: v[i] == i + 1
  }

  /** `m` ascending numbers are 1 to `m` exactly when each of those is among them. */
  lemma OneByOneIffCovers(v: seq<int>)
    requires Ascending(v)
    ensures OneByOne(v) <==> CoversUpTo(v, |v|)
  {
    if OneByOne(v) {
      forall k | 1 <= k <= |v| ensures k in v {
        assert v[k - 1] == k;
      }
    }
    if CoversUpTo(v, |v|) {
      forall i | 0 <= i < |v| ensures v[i] == i + 1 {
        assert i + 1 in v;
        var j :| 0 <= j < |v| && v[j] == i + 1;
        NotTooEarly(v, |v|, j);
        NotTooLate(v, |v|, j);
      }
    }
  }

  lemma {:induction false} StrictlyAscending(v: seq<int>, m: nat, i: nat)
    requires forall a, b | 0 <= a < b < |v| :: v[a] < v[b]
    requires CoversUpTo(v, m) && forall a | 0 <= a < |v| :: 1 <= v[a] <= m
    requires i < |v|
    ensures v[i] == i + 1
  {
    NotTooEarly(v, m, i);
    if i > 0 {
      StrictlyAscending(v, m, i - 1);
    }
  }

  // ---- Listing and reading ----

  type Files = map<string, Bytes>

  /** What the directory listing and the sort by version yield; equal versions may come in any order. */
  predicate IsListing(names: seq<string>, files: Files)
  {
    && (forall n | n in names :: n in files && HasSuffix(n))
    && (forall n | n in files && HasSuffix(n) :: n in names)
    && (forall i, j | 0 <= i < j < |names| :: names[i] != names[j] && RootVersion(names[i]) <= RootVersion(names[j]))
  }

  /** Where a name belongs among sorted ones. */
  method Place(names: seq<string>, name: string) returns (i: nat)
    requires forall a, b | 0 <= a < b < |names| :: RootVersion(names[a]) <= RootVersion(names[b])
    ensures i <= |names|
    ensures forall a | 0 <= a < i :: RootVersion(names[a]) <= RootVersion(name)
    ensures forall a | i <= a < |names| :: RootVersion(name) <= RootVersion(names[a])
  {
    i := |names|;
    while i > 0 && RootVersion(name) < RootVersion(names[i - 1])
      invariant i <= |names|
      invariant forall a | i <= a < |names| :: RootVersion(name) <= RootVersion(names[a])
    {
      i := i - 1;
    }
  }

  method RootMetaNames(files: Files) returns (names: seq<string>)
    ensures IsListing(names, files)
  {
    hide RootVersion, HasSuffix;
    names := [];
    var entries := files.Keys;
    ghost var seen: set<string> := {};
    while entries != {}
      invariant entries <= files.Keys && seen == files.Keys - entries
      invariant forall n | n in names :: n in seen && HasSuffix(n)
      invariant forall n | n in seen && HasSuffix(n) :: n in names
      invariant forall i, j | 0 <= i < j < |names| ::
          names[i] != names[j] && RootVersion(names[i]) <= RootVersion(names[j])
    {
      var entry :| entry in entries;
      entries := entries - {entry};
      seen := seen + {entry};
      if HasSuffix(entry) {
        var i := Place(names, entry);
        ghost var was := names;
        names := names[..i] + [entry] + names[i..];
        assert forall n :: n in names <==> n in was || n == entry;
      }
    }
  }

  method GetRoots(c: Codec, files: Files) returns (roots: Option<seq<Root>>, ghost listed: seq<string>)
    ensures IsListing(listed, files)
    ensures roots.Some? <==> forall n | n in files && HasSuffix(n) :: c.decode(files[n]).Some?
    ensures roots.Some? ==> |roots.value| == |listed|
    ensures roots.Some? ==> forall i | 0 <= i < |listed| :: Some(roots.value[i]) == c.decode(files[listed[i]])
  {
    hide RootVersion, HasSuffix;
    var order := RootMetaNames(files);
    listed := order;
    var all := [];
    for i := 0 to |order|
      invariant |all| == i && forall k | 0 <= k < i :: Some(all[k]) == c.decode(files[order[k]])
    {
      var root := c.decode(files[order[i]]);
      if root.None? {
        assert order[i] in files;
        return None, listed;
      }
      all := all + [root.value];
    }
    roots := Some(all);
    forall n | n in files && HasSuffix(n) ensures c.decode(files[n]).Some? {
      var i :| 0 <= i < |order| && order[i] == n;
      assert Some(all[i]) == c.decode(files[order[i]]);
    }
  }

  /** A version of zero or less asks for the newest root. */
  method ReadRoot(files: Files, version: int) returns (content: Option<Bytes>, ghost listed: seq<string>)
    ensures IsListing(listed, files)
    ensures version > 0 ==> content == if RootName(version) in files then Some(files[RootName(version)]) else None
    ensures version <= 0 ==> content == if listed == [] then None else Some(files[listed[|listed| - 1]])
  {
    hide RootVersion, HasSuffix, Decimal;
    var names := RootMetaNames(files);
    listed := names;
    if version <= 0 {
      if names == [] {
        return None, listed;
      }
      assert names[|names| - 1] in names;
      content := Some(files[names[|names| - 1]]);
    } else {
      content := if RootName(version) in files then Some(files[RootName(version)]) else None;
    }
  }

  // ---- What a client accepts ----

  /** The keys of the holder's root role with a valid signature on the new root. */
  function SignedIds(holder: RootMeta, next: Root): set<KeyId>
    requires RootRole in holder.roles
  {
    set id | id in holder.roles[RootRole].keyIds && id in holder.keys
             && exists s :: s in next.signatures && s == Signature(id, holder.keys[id], next.signed)
  }

  predicate SignedFor(holder: RootMeta, next: Root)
  {
    RootRole in holder.roles && |SignedIds(holder, next)| >= holder.roles[RootRole].threshold
  }

  /** Sections 5.3.4 and 5.3.5 of the TUF specification: the new root is signed by a threshold of the trusted root's
      keys and of its own keys, and its version is the next one. */
  predicate Follows(trusted: Root, next: Root)
  {
    && SignedFor(trusted.signed, next) && SignedFor(next.signed, next)
    && next.signed.version == trusted.signed.version + 1
  }

  // ---- The root that links to the imported ones ----

  /** Newly generated keys. */
  datatype Fresh = Fresh(root: Key, targets: Key, snapshot: Key, timestamp: Key)

  predicate DistinctIds(c: Codec, f: Fresh)
  {
    && c.keyId(f.root) != c.keyId(f.targets) && c.keyId(f.root) != c.keyId(f.snapshot) &&
        c.keyId(f.root) != c.keyId(f.timestamp)
  }

  function Owned(c: Codec, key: Key): RoleKeys
  {
    RoleKeys([c.keyId(key)], 1)
  }

  function NewMeta(c: Codec, f: Fresh, version: int, expires: int): RootMeta
  {
    RootMeta(version, expires,
             map[c.keyId(f.root) := f.root, c.keyId(f.targets) := f.targets,
                 c.keyId(f.snapshot) := f.snapshot, c.keyId(f.timestamp) := f.timestamp],
             map[RootRole := Owned(c, f.root), TargetsRole := Owned(c, f.targets),
                 SnapshotRole := Owned(c, f.snapshot), TimestampRole := Owned(c, f.timestamp)])
  }

  function Sign(c: Codec, key: Key, message: RootMeta): Signature
  {
    Signature(c.keyId(key), key, message)
  }

  function NewRoot(c: Codec, f: Fresh, version: int, expires: int, oldKey: Key): Root
  {
    var m := NewMeta(c, f, version, expires);
    Root(m, [Sign(c, f.root, m), Sign(c, oldKey, m)])
  }

  /** The root gives each of the four roles its own new key, alone and with threshold one, and lists these keys under
      their ids. */
  predicate OwnsRoles(c: Codec, m: RootMeta, f: Fresh)
  {
    && m.roles.Keys == {RootRole, TargetsRole, SnapshotRole, TimestampRole}
    && m.roles[RootRole] == RoleKeys([c.keyId(f.root)], 1) && m.roles[TargetsRole] == RoleKeys([c.keyId(f.targets)], 1)
    && m.roles[SnapshotRole] == RoleKeys([c.keyId(f.snapshot)], 1)
    && m.roles[TimestampRole] == RoleKeys([c.keyId(f.timestamp)], 1)
    && m.keys.Keys == {c.keyId(f.root), c.keyId(f.targets), c.keyId(f.snapshot), c.keyId(f.timestamp)}
    && forall id | id in m.keys :: c.keyId(m.keys[id]) == id
  }

  lemma NewRootOwnsRoles(c: Codec, f: Fresh, version: int, expires: int, oldKey: Key)
    ensures var r := NewRoot(c, f, version, expires, oldKey);
            && OwnsRoles(c, r.signed, f) && r.signed.version == version && r.signed.expires == expires
            && r.signatures == [Signature(c.keyId(f.root), f.root, r.signed),
                                Signature(c.keyId(oldKey), oldKey, r.signed)]
  {
    var keys := NewMeta(c, f, version, expires).keys;
    assert forall id | id in keys :: keys[id] in {f.root, f.targets, f.snapshot, f.timestamp};
  }

  lemma SizeAtLeastOne(s: set<KeyId>, x: KeyId)
    requires x in s
    ensures |s| >= 1
  {
  }

  /** A client that trusts the last imported root accepts the new one exactly when that root lists the key it was signed
      with under its id, as every sound root does for the ids of its roles, or asks for no signature at all. */
  lemma ClientFollows(c: Codec, base: Root, f: Fresh, oldKey: Key, expires: int)
    requires RootRole in base.signed.roles && base.signed.roles[RootRole].threshold <= 1
    requires c.keyId(oldKey) in base.signed.roles[RootRole].keyIds
    requires DistinctIds(c, f) && c.keyId(f.root) !in base.signed.roles[RootRole].keyIds
    ensures Follows(base, NewRoot(c, f, base.signed.version + 1, expires, oldKey))
            <==> base.signed.roles[RootRole].threshold <= 0
                 || (c.keyId(oldKey) in base.signed.keys && base.signed.keys[c.keyId(oldKey)] == oldKey)
  {
    var r := NewRoot(c, f, base.signed.version + 1, expires, oldKey);
    var own, id := c.keyId(f.root), c.keyId(oldKey);
    assert r.signatures[0] == Signature(own, f.root, r.signed) && r.signatures[0] in r.signatures;
    assert own in r.signed.roles[RootRole].keyIds && r.signed.keys[own] == f.root;
    SizeAtLeastOne(SignedIds(r.signed, r), own);
    if id in base.signed.keys && base.signed.keys[id] == oldKey {
      assert r.signatures[1] == Signature(id, oldKey, r.signed) && r.signatures[1] in r.signatures;
      SizeAtLeastOne(SignedIds(base.signed, r), id);
    } else {
      assert SignedIds(base.signed, r) == {};
    }
  }

  // ---- The import ----

  datatype Imported = Imported(raw: Bytes, root: Root)

  /** A key of the offline tarball; some are not usable for signing. */
  datatype Candidate = Unusable | Usable(key: Key)

  function Versions(roots: seq<Imported>): (v: seq<int>)
    ensures |v| == |roots| && forall i | 0 <= i < |v| :: v[i] == roots[i].root.signed.version
  {
    seq(|roots|, i requires 0 <= i < |roots| => roots[i].root.signed.version)
  }

  predicate IsRoot(c: Codec, raw: Bytes)
  {
    c.decode(raw).Some? && |c.decode(raw).value.signed.roles| > 0
  }

  predicate AllRoots(c: Codec, rootJSONs: seq<Bytes>)
  {
    forall raw | raw in rootJSONs :: IsRoot(c, raw)
  }

  /** The documents with what they hold. */
  function Parsed(c: Codec, rootJSONs: seq<Bytes>): (roots: seq<Imported>)
    requires AllRoots(c, rootJSONs)
    ensures |roots| == |rootJSONs|
    ensures forall i | 0 <= i < |roots| :: roots[i].raw == rootJSONs[i] && c.decode(rootJSONs[i]) == Some(roots[i].root)
  {
    if rootJSONs == [] then []
    else
      assert rootJSONs[0] in rootJSONs && forall raw | raw in rootJSONs[1..] :: raw in rootJSONs;
      [Imported(rootJSONs[0], c.decode(rootJSONs[0]).value)] + Parsed(c, rootJSONs[1..])
  }

  method ParseRoots(c: Codec, rootJSONs: seq<Bytes>) returns (roots: Option<seq<Imported>>)
    ensures roots.Some? <==> AllRoots(c, rootJSONs)
    ensures roots.Some? <==> forall i | 0 <= i < |rootJSONs| ::
              c.decode(rootJSONs[i]).Some? && c.decode(rootJSONs[i]).value.signed.roles != map[]
    ensures roots.Some? ==> roots.value == Parsed(c, rootJSONs) && |roots.value| == |rootJSONs|
    ensures roots.Some? ==> forall i | 0 <= i < |rootJSONs| ::
              roots.value[i].raw == rootJSONs[i] && c.decode(rootJSONs[i]) == Some(roots.value[i].root)
  {
    var all: seq<Imported> := [];
    for i := 0 to |rootJSONs|
      invariant |all| == i
      invariant forall k | 0 <= k < i ::
        IsRoot(c, rootJSONs[k]) && all[k].raw == rootJSONs[k] && c.decode(rootJSONs[k]) == Some(all[k].root)
    {
      var root := c.decode(rootJSONs[i]);
      if root.None? || |root.value.signed.roles| == 0 {
        assert !IsRoot(c, rootJSONs[i]);
        return None;
      }
      all := all + [Imported(rootJSONs[i], root.value)];
    }
    roots := Some(all);
  }

  lemma InsertedVersions(v: seq<int>, i: nat, x: int)
    requires Ascending(v) && i <= |v|
    requires forall a | i <= a < |v| :: x <= v[a]
    requires i > 0 ==> v[i - 1] <= x
    ensures Ascending(v[..i] + [x] + v[i..])
  {
  }

  lemma Inserted(sorted: seq<Imported>, i: nat, r: Imported)
    requires Ascending(Versions(sorted)) && i <= |sorted|
    requires forall a | i <= a < |sorted| :: r.root.signed.version <= Versions(sorted)[a]
    requires i > 0 ==> sorted[i - 1].root.signed.version <= r.root.signed.version
    ensures Ascending(Versions(sorted[..i] + [r] + sorted[i..]))
    ensures multiset(sorted[..i] + [r] + sorted[i..]) == multiset(sorted) + multiset{r}
  {
    hide Ascending;
    var v := Versions(sorted);
    InsertedVersions(v, i, r.root.signed.version);
    assert Versions(sorted[..i] + [r] + sorted[i..]) == v[..i] + [r.root.signed.version] + v[i..];
    assert sorted == sorted[..i] + sorted[i..];
  }

  method InsertRoot(sorted: seq<Imported>, r: Imported) returns (more: seq<Imported>)
    requires Ascending(Versions(sorted))
    ensures Ascending(Versions(more)) && |more| == |sorted| + 1
    ensures multiset(more) == multiset(sorted) + multiset{r}
  {
    hide Ascending;
    var i := |sorted|;
    while i > 0 && r.root.signed.version < sorted[i - 1].root.signed.version
      invariant 0 <= i <= |sorted|
      invariant forall a | i <= a < |sorted| :: r.root.signed.version <= Versions(sorted)[a]
    {
      i := i - 1;
    }
    Inserted(sorted, i, r);
    more := sorted[..i] + [r] + sorted[i..];
  }

  method SortRoots(roots: seq<Imported>) returns (sorted: seq<Imported>)
    ensures multiset(sorted) == multiset(roots) && |sorted| == |roots|
    ensures Ascending(Versions(sorted))
  {
    sorted := [];
    for k := 0 to |roots|
      invariant multiset(sorted) == multiset(roots[..k]) && |sorted| == k
      invariant Ascending(Versions(sorted))
    {
      hide Ascending;
      assert roots[..k + 1] == roots[..k] + [roots[k]];
      sorted := InsertRoot(sorted, roots[k]);
    }
    assert roots[..|roots|] == roots;
  }

  /** The first usable candidate among the wanted ids. */
  method FindFirstRootSigner(c: Codec, keyIds: seq<KeyId>, candidates: seq<Candidate>) returns (signer: Option<Key>)
    ensures signer.Some? ==> c.keyId(signer.value) in keyIds && Usable(signer.value) in candidates
    ensures signer.None? ==> forall k | Usable(k) in candidates :: c.keyId(k) !in keyIds
  {
    for i := 0 to |candidates|
      invariant forall k | Usable(k) in candidates[..i] :: c.keyId(k) !in keyIds
    {
      assert candidates[..i + 1] == candidates[..i] + [candidates[i]];
      if candidates[i].Unusable? {
        continue;
      }
      if c.keyId(candidates[i].key) in keyIds {
        return Some(candidates[i].key);
      }
    }
    assert candidates[..|candidates|] == candidates;
    signer := None;
  }

  ghost predicate CanSign(c: Codec, base: RootMeta, candidates: seq<Candidate>)
  {
    && RootRole in base.roles && base.roles[RootRole].threshold <= 1
    && exists k | Usable(k) in candidates :: c.keyId(k) in base.roles[RootRole].keyIds
  }

  /** The given roots are versions 1 to n, each once, and a candidate key can sign for the newest of them. */
  ghost predicate Importable(c: Codec, roots: seq<Imported>, candidates: seq<Candidate>)
  {
    && roots != [] && CoversUpTo(Versions(roots), |roots|)
    && exists r :: r in roots && r.root.signed.version == |roots| && CanSign(c, r.root.signed, candidates)
  }

  lemma SortedFacts(roots: seq<Imported>, sorted: seq<Imported>)
    requires multiset(sorted) == multiset(roots)
    ensures |sorted| == |roots|
    ensures forall r :: r in roots <==> r in sorted
    ensures CoversUpTo(Versions(roots), |roots|) <==> CoversUpTo(Versions(sorted), |sorted|)
  {
    assert |multiset(sorted)| == |sorted| && |multiset(roots)| == |roots|;
    forall r ensures r in roots <==> r in sorted {
      assert r in multiset(roots) <==> r in multiset(sorted);
    }
    VersionsOf(roots, sorted);
    VersionsOf(sorted, roots);
  }

  lemma VersionsOf(a: seq<Imported>, b: seq<Imported>)
    requires forall r :: r in a ==> r in b
    ensures forall v | v in Versions(a) :: v in Versions(b)
  {
    forall v | v in Versions(a) ensures v in Versions(b) {
      var i :| 0 <= i < |a| && Versions(a)[i] == v;
      assert a[i] in b;
      var j :| 0 <= j < |b| && b[j] == a[i];
      assert Versions(b)[j] == v;
    }
  }

  predicate AmongRoots(name: string, m: nat)
  {
    exists k :: 1 <= k <= m && name == RootName(k)
  }

  /** The directory after the import: every given root as it came, under its own version, and the
      new root after them. */
  predicate Stored(c: Codec, before: Files, after: Files, roots: seq<Imported>, newest: Root)
  {
    && (forall n | n in after :: n in before || n == RootName(|roots| + 1) || AmongRoots(n, |roots|))
    && (forall n | n in before :: n in after)
    && (forall r | r in roots && r.root.signed.version > 0 ::
          RootName(r.root.signed.version) in after && after[RootName(r.root.signed.version)] == r.raw)
    && RootName(|roots| + 1) in after && after[RootName(|roots| + 1)] == c.encode(newest)
    && (forall n | n in before && n != RootName(|roots| + 1) && !AmongRoots(n, |roots|) ::
          after[n] == before[n])
  }

  /** The directory after the first `i` roots were written. */
  predicate Written(before: Files, after: Files, sorted: seq<Imported>, i: nat)
    requires i <= |sorted|
  {
    && (forall n | n in after :: n in before || AmongRoots(n, i))
    && (forall n | n in before :: n in after && (!AmongRoots(n, i) ==> after[n] == before[n]))
    && (forall k | 1 <= k <= i :: RootName(k) in after && after[RootName(k)] == sorted[k - 1].raw)
  }

  lemma NothingWritten(files: Files, sorted: seq<Imported>)
    ensures Written(files, files, sorted, 0)
  {
  }

  lemma AmongOneMore(name: string, i: nat)
    ensures AmongRoots(name, i + 1) <==> AmongRoots(name, i) || name == RootName(i + 1)
  {
  }

  lemma OneMoreWritten(before: Files, after: Files, sorted: seq<Imported>, i: nat)
    requires i < |sorted| && Written(before, after, sorted, i)
    ensures Written(before, after[RootName(i + 1) := sorted[i].raw], sorted, i + 1)
  {
    hide RootName, AmongRoots;
    NamesDiffer(i + 1);
    var more := after[RootName(i + 1) := sorted[i].raw];
    forall n | n in more ensures n in before || AmongRoots(n, i + 1) { AmongOneMore(n, i); }
    forall n | n in before ensures n in more && (!AmongRoots(n, i + 1) ==> more[n] == before[n]) { AmongOneMore(n, i); }
  }

  lemma OneByOneAt(sorted: seq<Imported>, i: nat)
    requires OneByOne(Versions(sorted)) && i < |sorted|
    ensures sorted[i].root.signed.version == i + 1
  {
  }

  lemma AllWritten(c: Codec, before: Files, after: Files, sorted: seq<Imported>, newest: Root)
    requires OneByOne(Versions(sorted)) && Written(before, after, sorted, |sorted|)
    ensures Stored(c, before, after[RootName(|sorted| + 1) := c.encode(newest)], sorted, newest)
  {
    hide RootName, AmongRoots, OneByOne;
    NamesDiffer(|sorted| + 1);
    forall r | r in sorted ensures r.root.signed.version <= |sorted| && (r.root.signed.version > 0 ==>
        RootName(r.root.signed.version) in after && after[RootName(r.root.signed.version)] == r.raw) {
      var i :| 0 <= i < |sorted| && sorted[i] == r;
      OneByOneAt(sorted, i);
    }
  }

  lemma StoredInAnyOrder(c: Codec, before: Files, after: Files, sorted: seq<Imported>, roots: seq<Imported>,
                         newest: Root)
    requires Stored(c, before, after, sorted, newest)
    requires |sorted| == |roots| && forall r :: r in roots <==> r in sorted
    ensures Stored(c, before, after, roots, newest)
  {
  }

  lemma NewVersion(c: Codec, f: Fresh, version: int, expires: int, oldKey: Key)
    ensures NewRoot(c, f, version, expires, oldKey).signed.version == version
  {
  }

  class TufHandle {
    const codec: Codec
    var files: Files
    var keyFiles: set<Role>

    constructor (codec: Codec, files: Files, keyFiles: set<Role>)
      ensures this.codec == codec && this.files == files && this.keyFiles == keyFiles
    {
      this.codec, this.files, this.keyFiles := codec, files, keyFiles;
    }

    predicate Initialized()
      reads this
    {
      RootRole in keyFiles && exists n | n in files :: HasSuffix(n)
    }

    /** Writes the imported roots, lowest version first, then the new one. */
    method WriteRoots(sorted: seq<Imported>, newest: Root)
      requires OneByOne(Versions(sorted))
      requires newest.signed.version == |sorted| + 1
      modifies this`files
      ensures Stored(codec, old(files), files, sorted, newest)
    {
      hide Written, Stored, OneByOne, RootName;
      NothingWritten(files, sorted);
      for i := 0 to |sorted|
        invariant Written(old(files), files, sorted, i)
      {
        OneByOneAt(sorted, i);
        OneMoreWritten(old(files), files, sorted, i);
        files := files[RootName(sorted[i].root.signed.version) := sorted[i].raw];
      }
      AllWritten(codec, old(files), files, sorted, newest);
      files := files[RootName(newest.signed.version) := codec.encode(newest)];
    }

    /** Works exactly when this server has no roots with keys yet, every document is a root, the versions are 1 to n in
        some order and a usable candidate key belongs to the newest root; otherwise nothing is written. */
    method ImportTuf(rootJSONs: seq<Bytes>, candidates: seq<Candidate>, hmacOk: bool, generated: Fresh, expires: int)
      returns (ok: bool, ghost oldKey: Key)
      modifies this
      ensures ok <==> !(RootRole in old(keyFiles) && exists n :: n in old(files) && HasSuffix(n))
                      && hmacOk && AllRoots(codec, rootJSONs)
                      && Importable(codec, Parsed(codec, rootJSONs), candidates)
      ensures !ok ==> files == old(files) && keyFiles == old(keyFiles)
      ensures ok ==> keyFiles == old(keyFiles) + {RootRole, TargetsRole, SnapshotRole, TimestampRole}
      ensures ok ==> Usable(oldKey) in candidates
      ensures ok ==> Stored(codec, old(files), files, Parsed(codec, rootJSONs),
                            NewRoot(codec, generated, |rootJSONs| + 1, expires, oldKey))
      ensures ok ==> exists b :: Newest(Parsed(codec, rootJSONs), b) && SignsFor(codec, b, oldKey)
    {
      hide Stored, NewRoot, CoversUpTo, HasSuffix, Versions, Parsed;
      oldKey := 0;
      if Initialized() || rootJSONs == [] {
        return false, oldKey;
      }
      var parsed := ParseRoots(codec, rootJSONs);
      if parsed.None? {
        return false, oldKey;
      }
      ghost var roots := parsed.value;
      if !hmacOk {
        return false, oldKey;
      }
      var sorted := SortRoots(parsed.value);
      SortedFacts(parsed.value, sorted);
      OneByOneIffCovers(Versions(sorted));
      var base := sorted[|sorted| - 1].root.signed;
      for idx := 0 to |sorted|
        invariant forall i | 0 <= i < idx :: Versions(sorted)[i] == i + 1
      {
        if idx + 1 != sorted[idx].root.signed.version {
          assert Versions(sorted)[idx] != idx + 1;
          return false, oldKey;
        }
      }
      NewestIsLast(sorted);
      var rootThresh := if RootRole in base.roles then base.roles[RootRole].threshold else 0;
      if rootThresh > 1 || RootRole !in base.roles {
        return false, oldKey;
      }
      var oldSigner := FindFirstRootSigner(codec, base.roles[RootRole].keyIds, candidates);
      if oldSigner.None? {
        return false, oldKey;
      }
      oldKey := oldSigner.value;
      keyFiles := keyFiles + {RootRole, TargetsRole, SnapshotRole, TimestampRole};
      NewVersion(codec, generated, base.version + 1, expires, oldSigner.value);
      WriteRoots(sorted, NewRoot(codec, generated, base.version + 1, expires, oldSigner.value));
      StoredInAnyOrder(codec, old(files), files, sorted, roots,
                       NewRoot(codec, generated, |roots| + 1, expires, oldKey));
      assert Newest(roots, sorted[|sorted| - 1]) && SignsFor(codec, sorted[|sorted| - 1], oldKey);
      return true, oldKey;
    }
  }

  /** The only one with the highest version. */
  ghost predicate Newest(roots: seq<Imported>, b: Imported)
  {
    && b in roots && b.root.signed.version == |roots|
    && forall r | r in roots && r.root.signed.version == |roots| :: r == b
  }

  predicate SignsFor(c: Codec, b: Imported, key: Key)
  {
    && RootRole in b.root.signed.roles && b.root.signed.roles[RootRole].threshold <= 1
    && c.keyId(key) in b.root.signed.roles[RootRole].keyIds
  }

  lemma NewestIsLast(sorted: seq<Imported>)
    requires OneByOne(Versions(sorted)) && sorted != []
    ensures forall r | r in sorted && r.root.signed.version == |sorted| :: r == sorted[|sorted| - 1]
    ensures sorted[|sorted| - 1].root.signed.version == |sorted|
  {
  }

  lemma NamesDiffer(n: nat)
    ensures forall k: nat | k != n :: RootName(k) != RootName(n)
  {
    forall k: nat | k != n ensures RootName(k) != RootName(n) {
      RootNameRoundTrip(k);
      RootNameRoundTrip(n);
    }
  }

  predicate ListsExactly(listed: seq<string>, m: nat)
  {
    |listed| == m && forall i | 0 <= i < m :: listed[i] == RootName(i + 1)
  }

  lemma ListedVersions(names: seq<string>) returns (v: seq<int>)
    ensures |v| == |names| && forall i | 0 <= i < |v| :: v[i] == RootVersion(names[i])
  {
    v := seq(|names|, i requires 0 <= i < |names| => RootVersion(names[i]));
  }

  /** When the root files are just those of versions 1 to m, their listing is in the order of the versions. */
  lemma ExactListing(files: Files, m: nat, listed: seq<string>)
    requires IsListing(listed, files)
    requires forall k | 1 <= k <= m :: RootName(k) in files
    requires forall n | n in files && HasSuffix(n) :: AmongRoots(n, m)
    ensures ListsExactly(listed, m)
  {
    hide RootName, RootVersion, HasSuffix;
    var v := ListedVersions(listed);
    forall i | 0 <= i < |v| ensures 1 <= v[i] <= m && listed[i] == RootName(v[i]) {
      assert listed[i] in files;
      var k :| 1 <= k <= m && listed[i] == RootName(k);
      RootNameRoundTrip(k);
    }
    forall k | 1 <= k <= m ensures k in v {
      RootNameRoundTrip(k);
      var i :| 0 <= i < |listed| && listed[i] == RootName(k);
      assert v[i] == k;
    }
    forall a, b | 0 <= a < b < |v| ensures v[a] < v[b] {
      assert listed[a] != listed[b];
    }
    forall i | 0 <= i < |v| ensures v[i] == i + 1 {
      StrictlyAscending(v, m, i);
    }
    if m > 0 {
      assert m in v;
    }
    if |v| > 0 {
      assert v[|v| - 1] == |v|;
    }
  }

  lemma StoredNames(c: Codec, before: Files, after: Files, roots: seq<Imported>, newest: Root, k: nat)
    requires Stored(c, before, after, roots, newest) && CoversUpTo(Versions(roots), |roots|)
    requires 1 <= k <= |roots| + 1
    ensures RootName(k) in after
  {
    if k <= |roots| {
      assert k in Versions(roots);
      var i :| 0 <= i < |roots| && Versions(roots)[i] == k;
      assert roots[i] in roots;
    }
  }

  /** After an import the directory lists roots 1 to n + 1, in that order, exactly when every root file it held before
      was named like one of them. */
  lemma ListingAfterImport(c: Codec, before: Files, after: Files, roots: seq<Imported>, newest: Root,
                           listed: seq<string>)
    requires Stored(c, before, after, roots, newest) && IsListing(listed, after)
    requires CoversUpTo(Versions(roots), |roots|)
    ensures ListsExactly(listed, |roots| + 1)
            <==> forall n | n in before && HasSuffix(n) :: AmongRoots(n, |roots| + 1)
  {
    hide RootName, RootVersion, HasSuffix;
    var m := |roots| + 1;
    if ListsExactly(listed, m) {
      forall n | n in before && HasSuffix(n) ensures AmongRoots(n, m) {
        assert n in after;
        var i :| 0 <= i < |listed| && listed[i] == n;
        assert n == RootName(i + 1);
      }
    }
    if forall n | n in before && HasSuffix(n) :: AmongRoots(n, m) {
      forall k | 1 <= k <= m ensures RootName(k) in after {
        StoredNames(c, before, after, roots, newest, k);
      }
      forall n | n in after && HasSuffix(n) ensures AmongRoots(n, m) {
        if n !in before && n != RootName(m) {
          var k :| 1 <= k <= |roots| && n == RootName(k);
        }
      }
      ExactListing(after, m, listed);
    }
  }

  predicate Given(roots: seq<Imported>, root: Root)
  {
    exists r :: r in roots && r.root == root
  }

  /** What is stored under the name of version `i + 1`. */
  lemma StoredRoot(c: Codec, before: Files, after: Files, roots: seq<Imported>, newest: Root, i: nat)
    requires Faithful(c) && Stored(c, before, after, roots, newest) && CoversUpTo(Versions(roots), |roots|)
    requires newest.signed.version == |roots| + 1 && i <= |roots|
    requires forall r | r in roots :: c.decode(r.raw) == Some(r.root)
    ensures RootName(i + 1) in after && c.decode(after[RootName(i + 1)]).Some?
    ensures var root := c.decode(after[RootName(i + 1)]).value;
            && root.signed.version == i + 1
            && (if i < |roots| then Given(roots, root) else root == newest)
  {
    hide RootName, AmongRoots;
    if i < |roots| {
      assert i + 1 in Versions(roots);
      var j :| 0 <= j < |roots| && Versions(roots)[j] == i + 1;
      assert roots[j] in roots;
    }
  }

  lemma StoredNewest(c: Codec, before: Files, after: Files, roots: seq<Imported>, newest: Root)
    requires Stored(c, before, after, roots, newest)
    ensures RootName(|roots| + 1) in after && after[RootName(|roots| + 1)] == c.encode(newest)
  {
  }

  /** Reading the roots back after an import into a directory without stray root files gives version 1 to n + 1 in
      order, each as it was given, with the new root last and returned as the newest. */
  method ReadBack(c: Codec, ghost before: Files, after: Files, ghost roots: seq<Imported>, ghost newest: Root)
    returns (all: Option<seq<Root>>, last: Option<Bytes>)
    requires Faithful(c)
    requires Stored(c, before, after, roots, newest) && CoversUpTo(Versions(roots), |roots|)
    requires newest.signed.version == |roots| + 1
    requires forall r | r in roots :: c.decode(r.raw) == Some(r.root)
    requires forall n | n in before && HasSuffix(n) :: AmongRoots(n, |roots| + 1)
    ensures all.Some? && |all.value| == |roots| + 1 && last == Some(c.encode(newest))
    ensures forall i | 0 <= i < |all.value| :: all.value[i].signed.version == i + 1
    ensures forall i | 0 <= i < |roots| :: Given(roots, all.value[i])
    ensures all.value[|roots|] == newest
  {
    hide RootName, RootVersion, HasSuffix, AmongRoots, Stored, CoversUpTo, Given;
    ghost var m := |roots| + 1;
    ghost var listed, listedAgain;
    all, listed := GetRoots(c, after);
    last, listedAgain := ReadRoot(after, 0);
    ListingAfterImport(c, before, after, roots, newest, listed);
    ListingAfterImport(c, before, after, roots, newest, listedAgain);
    StoredNewest(c, before, after, roots, newest);
    assert listedAgain[m - 1] == RootName(m);
    forall i | 0 <= i < m ensures c.decode(after[listed[i]]).Some?
                               && c.decode(after[listed[i]]).value.signed.version == i + 1
                               && (i == |roots| ==> c.decode(after[listed[i]]).value == newest)
                               && (i < |roots| ==> Given(roots, c.decode(after[listed[i]]).value)) {
      StoredRoot(c, before, after, roots, newest, i);
      assert listed[i] == RootName(i + 1);
    }
    forall n | n in after && HasSuffix(n) ensures c.decode(after[n]).Some? {
      assert n in listed;
      var i :| 0 <= i < |listed| && listed[i] == n;
    }
  }

  // ---- From the import to the clients ----

  /** Newly generated keys have ids of their own. */
  predicate NewKeys(c: Codec, f: Fresh, roots: seq<Imported>)
  {
    && DistinctIds(c, f)
    && forall r | r in roots && RootRole in r.root.signed.roles ::
        c.keyId(f.root) !in r.root.signed.roles[RootRole].keyIds
  }

  /** The trusted root asks for no signature, or lists this key under its id. */
  predicate Accepts(c: Codec, trusted: Root, key: Key)
    requires RootRole in trusted.signed.roles
  {
    || trusted.signed.roles[RootRole].threshold <= 0
    || (c.keyId(key) in trusted.signed.keys && trusted.signed.keys[c.keyId(key)] == key)
  }

  /** An import and the reading of what it stored. It works exactly when it may; then the served roots are versions 1
      to n + 1 in order, the given ones and a new one, and a client that trusts version n accepts version n + 1 exactly
      when version n lists the old key under its id or asks for no signature. */
  method ImportAndServe(h: TufHandle, rootJSONs: seq<Bytes>, candidates: seq<Candidate>, hmacOk: bool, generated: Fresh,
                        expires: int)
    returns (ok: bool, all: Option<seq<Root>>, last: Option<Bytes>, ghost oldKey: Key)
    requires Faithful(h.codec)
    requires AllRoots(h.codec, rootJSONs) ==> NewKeys(h.codec, generated, Parsed(h.codec, rootJSONs))
    requires forall n | n in h.files && HasSuffix(n) :: AmongRoots(n, |rootJSONs| + 1)
    modifies h
    ensures ok <==> !(RootRole in old(h.keyFiles) && exists n :: n in old(h.files) && HasSuffix(n))
                    && hmacOk && AllRoots(h.codec, rootJSONs)
                    && Importable(h.codec, Parsed(h.codec, rootJSONs), candidates)
    ensures !ok ==> h.files == old(h.files) && h.keyFiles == old(h.keyFiles)
    ensures ok ==> all.Some? && |all.value| == |rootJSONs| + 1 && |rootJSONs| > 0 && Usable(oldKey) in candidates
    ensures ok ==> forall i | 0 <= i < |all.value| :: all.value[i].signed.version == i + 1
    ensures ok ==> forall i | 0 <= i < |rootJSONs| :: Given(Parsed(h.codec, rootJSONs), all.value[i])
    ensures ok ==> last == Some(h.codec.encode(all.value[|rootJSONs|]))
    ensures ok ==> var newest := all.value[|rootJSONs|];
                   OwnsRoles(h.codec, newest.signed, generated) && newest.signed.expires == expires
    ensures ok ==> var base, newest := all.value[|rootJSONs| - 1], all.value[|rootJSONs|];
                   RootRole in base.signed.roles && (Follows(base, newest) <==> Accepts(h.codec, base, oldKey))
  {
    hide HasSuffix, AmongRoots, Stored, Follows, Faithful, Importable, CoversUpTo, NewRoot, NewKeys, Accepts, AllRoots;
    hide Newest, SignsFor, Given, Parsed, OwnsRoles;
    ghost var before, n := h.files, |rootJSONs|;
    ok, oldKey := h.ImportTuf(rootJSONs, candidates, hmacOk, generated, expires);
    if !ok {
      return ok, None, None, oldKey;
    }
    ghost var roots := Parsed(h.codec, rootJSONs);
    ghost var newest := NewRoot(h.codec, generated, n + 1, expires, oldKey);
    NewVersion(h.codec, generated, n + 1, expires, oldKey);
    ImportableFacts(h.codec, rootJSONs, candidates);
    all, last := ReadBack(h.codec, before, h.files, roots, newest);
    ghost var b :| Newest(roots, b) && SignsFor(h.codec, b, oldKey);
    NewestGiven(roots, b, all.value[n - 1]);
    FollowsIffAccepts(h.codec, roots, b, generated, oldKey, expires);
    NewRootOwnsRoles(h.codec, generated, n + 1, expires, oldKey);
  }

  lemma ImportableFacts(c: Codec, rootJSONs: seq<Bytes>, candidates: seq<Candidate>)
    requires AllRoots(c, rootJSONs) && Importable(c, Parsed(c, rootJSONs), candidates)
    ensures rootJSONs != [] && CoversUpTo(Versions(Parsed(c, rootJSONs)), |rootJSONs|)
    ensures forall r | r in Parsed(c, rootJSONs) :: c.decode(r.raw) == Some(r.root)
  {
    hide CoversUpTo, Parsed, AllRoots;
  }

  lemma NewestGiven(roots: seq<Imported>, b: Imported, root: Root)
    requires Newest(roots, b) && Given(roots, root) && root.signed.version == |roots|
    ensures root == b.root
  {
  }

  lemma FollowsIffAccepts(c: Codec, roots: seq<Imported>, b: Imported, f: Fresh, oldKey: Key, expires: int)
    requires Newest(roots, b) && SignsFor(c, b, oldKey) && NewKeys(c, f, roots)
    ensures RootRole in b.root.signed.roles
    ensures Follows(b.root, NewRoot(c, f, |roots| + 1, expires, oldKey)) <==> Accepts(c, b.root, oldKey)
  {
    hide Follows, NewRoot, DistinctIds;
    ClientFollows(c, b.root, f, oldKey, expires);
  }
}
