/** The OSTree object reader: hand-written decoders for commits and directory trees, and the walk from a commit to a
    file's content. Integers are those of a 64-bit platform, where no offset read here can wrap. */
module Ostree {
  import opened TextLines
  import opened GVariant

  // ---- Hexadecimal checksums ----

  function Hex(b: Bytes): (s: string)
    ensures |s| == 2 * |b|
  {
    if b == [] then "" else [HexDigit(b[0] as nat / 16), HexDigit(b[0] as nat % 16)] + Hex(b[1..])
  }

  lemma {:induction false} HexIsInjective(a: Bytes, b: Bytes)
    requires Hex(a) == Hex(b)
    ensures a == b
  {
    if a != [] {
      var x, y := a[0] as nat, b[0] as nat;
      assert Hex(a)[0] == HexDigit(x / 16) && Hex(a)[1] == HexDigit(x % 16);
      assert Hex(b)[0] == HexDigit(y / 16) && Hex(b)[1] == HexDigit(y % 16);
      HexDigitIsInjective(x / 16, y / 16);
      HexDigitIsInjective(x % 16, y % 16);
      assert Hex(a)[2..] == Hex(a[1..]) && Hex(b)[2..] == Hex(b[1..]);
      HexIsInjective(a[1..], b[1..]);
      assert a == [a[0]] + a[1..] && b == [b[0]] + b[1..];
    }
  }

  // ---- Framing offsets ----

  function OffsetSize(n: nat): (size: nat)
  {
    if n <= 0xff then 1 else if n <= 0xffff then 2 else 4
  }

  /** The reader knows three of the four widths, so it is right for everything below four gigabytes and only there. */
  lemma OffsetSizeIsStandard(n: nat)
    ensures OffsetSize(n) == StandardWidth(n) <==> n <= 0xffff_ffff
  {
  }

  function ReadLE(data: Bytes, pos: nat, size: nat): nat
    requires size == 1 || size == 2 || size == 4
    requires pos + size <= |data|
  {
    if size == 1 then data[pos] as nat
    else if size == 2 then data[pos] as nat + 0x100 * data[pos + 1] as nat
    else
      data[pos] as nat + 0x100 * data[pos + 1] as nat
      + 0x1_0000 * data[pos + 2] as nat + 0x100_0000 * data[pos + 3] as nat
  }

  lemma ReadOfLittleEndian(a: Bytes, v: nat, size: nat, b: Bytes)
    requires size == 1 || size == 2 || size == 4
    requires v < Limit(size)
    ensures ReadLE(a + LittleEndian(v, size) + b, |a|, size) == v
  {
    var d := a + LittleEndian(v, size) + b;
    var w0, w1, w2 := v / 256, v / 256 / 256, v / 256 / 256 / 256;
    assert LittleEndian(v, size) == [(v % 256) as Byte] + LittleEndian(w0, size - 1);
    assert d[|a|] as nat == v % 256;
    if size >= 2 {
      assert LittleEndian(w0, size - 1) == [(w0 % 256) as Byte] + LittleEndian(w1, size - 2);
      assert d[|a| + 1] as nat == w0 % 256;
    }
    if size == 4 {
      assert LittleEndian(w1, 2) == [(w1 % 256) as Byte] + LittleEndian(w2, 1);
      assert LittleEndian(w2, 1) == [(w2 % 256) as Byte] + LittleEndian(w2 / 256, 0);
      assert d[|a| + 2] as nat == w1 % 256;
      assert d[|a| + 3] as nat == w2 % 256;
    }
  }

  lemma {:induction false} ReadOfOffsets(a: Bytes, values: seq<nat>, size: nat, i: nat, b: Bytes)
    requires size == 1 || size == 2 || size == 4
    requires i < |values| && values[i] < Limit(size)
    ensures |a| + i * size + size <= |a + Offsets(values, size) + b|
    ensures ReadLE(a + Offsets(values, size) + b, |a| + i * size, size) == values[i]
    decreases |values|
  {
    var first, rest := LittleEndian(values[0], size), Offsets(values[1..], size);
    if i == 0 {
      assert a + Offsets(values, size) + b == a + first + (rest + b);
      ReadOfLittleEndian(a, values[0], size, rest + b);
    } else {
      assert a + Offsets(values, size) + b == (a + first) + rest + b;
      ReadOfOffsets(a + first, values[1..], size, i - 1, b);
      assert |a + first| + (i - 1) * size == |a| + i * size;
    }
  }

  /** Reading the table of a container below four gigabytes gives back the ends that were framed. */
  lemma ReadOfContainer(body: Bytes, ends: seq<nat>, i: nat)
    requires |Container(body, ends)| <= 0xffff_ffff
    requires i < |ends| && ends[i] <= |body|
    ensures var data, size := Container(body, ends), OffsetSize(|Container(body, ends)|);
            && size == WriterWidth(|body|, |ends|) && |data| == |body| + |ends| * size
            && |body| + i * size + size <= |data|
            && ReadLE(data, |body| + i * size, size) == ends[i]
  {
    WidthsAgree(|body|, |ends|);
    var size := OffsetSize(|Container(body, ends)|);
    assert size * |ends| == |ends| * size;
    ReadOfOffsets(body, ends, size, i, []);
    assert body + Offsets(ends, size) + [] == Container(body, ends);
  }

  // ---- Commits ----

  datatype ParseError = Empty | TooSmall | OffsetOutOfRange | Overrun
  datatype Parsed<T> = Ok(value: T) | Err(error: ParseError)

  function RootDirtreeHash(data: Bytes): Parsed<string>
  {
    var n := |data|;
    var size := OffsetSize(n);
    if n < 6 * size + 8 + HASH_SIZE then Err(TooSmall)
    else
      var table := n - 6 * size;
      var bodyEnd := ReadLE(data, table + size, size);
      if bodyEnd >= table then Err(OffsetOutOfRange)
      else
        var timestamp := (bodyEnd + 7) / 8 * 8;
        var dirtree := timestamp + 8;
        if dirtree + HASH_SIZE > table then Err(Overrun)
        else Ok(Hex(data[dirtree..dirtree + HASH_SIZE]))
  }

  lemma AlignUp(n: nat)
    ensures (n + 7) / 8 * 8 == n + |Padding(n)|
  {
  }

  lemma BodyEndOfCommit(c: Commit)
    requires |EncodeCommit(c)| <= 0xffff_ffff
    ensures var data, size := EncodeCommit(c), OffsetSize(|EncodeCommit(c)|);
            var head := BeforeTimestamp(c);
            && |data| == |head| + |Padding(|head|)| + 8 + |c.dirtree| + |c.dirmeta| + 6 * size
            && ReadLE(data, |data| - 6 * size + size, size) == |head|
  {
    var head := BeforeTimestamp(c);
    var body := head + Padding(|head|) + LittleEndian(c.timestamp, 8) + c.dirtree + c.dirmeta;
    assert EncodeCommit(c) == Container(body, CommitEnds(c));
    ReadOfContainer(body, CommitEnds(c), 1);
  }

  lemma MiddleOf(a: Bytes, b: Bytes, c: Bytes)
    ensures (a + b + c)[|a|..|a| + |b|] == b
  {
  }

  lemma CommitAround(c: Commit, before: Bytes)
    requires before == BeforeTimestamp(c) + Padding(|BeforeTimestamp(c)|) + LittleEndian(c.timestamp, 8)
    ensures before + c.dirtree <= EncodeCommit(c)
  {
  }

  /** The reader on bytes whose framing table says that the fields before the timestamp end at `head`. */
  lemma RootReads(data: Bytes, before: Bytes, dirtree: Bytes, head: nat)
    requires before + dirtree <= data && |dirtree| == HASH_SIZE
    requires |before| == (head + 7) / 8 * 8 + 8
    requires |before| + HASH_SIZE + 6 * OffsetSize(|data|) <= |data|
    requires ReadLE(data, |data| - 6 * OffsetSize(|data|) + OffsetSize(|data|), OffsetSize(|data|)) == head
    ensures RootDirtreeHash(data) == Ok(Hex(dirtree))
  {
    hide ReadLE, Hex;
    assert data[|before|..|before| + HASH_SIZE] == dirtree;
  }

  /** From any commit, whatever the lengths of its fields, the reader takes the root directory checksum. */
  lemma RootOfEncodedCommit(c: Commit)
    requires |c.dirtree| == 32 && |EncodeCommit(c)| <= 0xffff_ffff
    ensures RootDirtreeHash(EncodeCommit(c)) == Ok(Hex(c.dirtree))
  {
    hide BeforeTimestamp, EncodeCommit, OffsetSize, ReadLE, LittleEndian, Hex, Padding, RootDirtreeHash;
    var head := BeforeTimestamp(c);
    var before := head + Padding(|head|) + LittleEndian(c.timestamp, 8);
    BodyEndOfCommit(c);
    AlignUp(|head|);
    CommitAround(c, before);
    RootReads(EncodeCommit(c), before, c.dirtree, |head|);
  }

  /** What the reader accepts at all, for any bytes: 32 bytes right before the framing table's reach, 8-aligned. */
  lemma RootHashIsAligned(data: Bytes)
    requires RootDirtreeHash(data).Ok?
    ensures exists p: nat ::
        p % 8 == 0 && p + 32 <= |data| && RootDirtreeHash(data).value == Hex(data[p..p + 32])
  {
    var p := RootHashAt(data);
    hide RootDirtreeHash, Hex;
  }

  lemma RootHashAt(data: Bytes) returns (p: nat)
    requires RootDirtreeHash(data).Ok?
    ensures p % 8 == 0 && p + 32 <= |data| && RootDirtreeHash(data).value == Hex(data[p..p + 32])
  {
    var size := OffsetSize(|data|);
    p := (ReadLE(data, |data| - 6 * size + size, size) + 7) / 8 * 8 + 8;
  }

  // ---- Arrays of directory entries ----

  lemma SlotFits(i: nat, count: nat, size: nat)
    requires i < count
    ensures i * size + size <= count * size
  {
    assert (i + 1) * size <= count * size;
  }

  lemma CountFits(room: nat, size: nat)
    requires size > 0
    ensures room / size * size <= room
  {
  }

  /** The `i`-th offset of a framing table of `count` offsets that starts at `table`. */
  function Slot(data: Bytes, size: nat, table: nat, count: nat, i: nat): nat
    requires size == 1 || size == 2 || size == 4
    requires table + count * size <= |data| && i < count
  {
    SlotFits(i, count, size);
    ReadLE(data, table + i * size, size)
  }

  function Slots(data: Bytes, size: nat, table: nat, count: nat): (ends: seq<nat>)
    requires size == 1 || size == 2 || size == 4
    requires table + count * size <= |data|
    ensures |ends| == count
  {
    seq(count, i requires 0 <= i < count => Slot(data, size, table, count, i))
  }

  datatype Look = Stop | Hit(hash: string) | Skip

  /** One element against the name looked for. */
  function Inspect(elem: Bytes, name: Bytes): Look
  {
    var nul := IndexOf(elem, 0 as Byte);
    if nul == |elem| then Stop
    else if elem[..nul] != name then Skip
    else if nul + 1 + HASH_SIZE > |elem| then Stop
    else Hit(Hex(elem[nul + 1..nul + 1 + HASH_SIZE]))
  }

  /** The search over the elements that end at `ends`, the first of which starts at `prev`. */
  function Search(elems: Bytes, name: Bytes, ends: seq<nat>, prev: nat): string
    requires prev <= |elems|
    decreases |ends|
  {
    if ends == [] then ""
    else
      var end := ends[0];
      if end <= prev || end > |elems| then ""
      else
        match Inspect(elems[prev..end], name)
        case Stop => ""
        case Hit(hash) => hash
        case Skip => Search(elems, name, ends[1..], end)
  }

  lemma SliceOfSlice(data: Bytes, from: nat, to: nat, a: nat, b: nat)
    requires from <= to <= |data| && a <= b <= to - from
    ensures data[from..to][a..b] == data[from + a..from + b]
  {
    var s, t := data[from..to][a..b], data[from + a..from + b];
    assert forall i | 0 <= i < |s| :: s[i] == t[i];
  }

  /** How the reader takes an array apart: offset width, start of the framing table, number of elements. */
  datatype Frame = Frame(size: nat, table: nat, count: nat)

  predicate FrameFits(f: Frame, n: nat)
  {
    (f.size == 1 || f.size == 2 || f.size == 4) && f.table + f.count * f.size <= n
  }

  function ReadFrame(data: Bytes): (frame: Option<Frame>)
    ensures frame.Some? ==> FrameFits(frame.value, |data|)
  {
    var n := |data|;
    if n == 0 then None
    else
      var size := OffsetSize(n);
      var table := ReadLE(data, n - size, size);
      if table > n - size then None
      else
        CountFits(n - table, size);
        Some(Frame(size, table, (n - table) / size))
  }

  /** What `LookupArray` computes. */
  function ArrayHash(data: Bytes, name: Bytes): string
  {
    match ReadFrame(data)
    case None => ""
    case Some(f) => Search(data[..f.table], name, Slots(data, f.size, f.table, f.count), 0)
  }

  /** The array search as it runs; every index it uses is within the data, whatever the bytes. */
  method LookupArray(data: Bytes, name: Bytes) returns (hash: string)
    ensures hash == ArrayHash(data, name)
  {
    hide Inspect, ReadFrame, Slot;
    var frame := ReadFrame(data);
    if frame.None? {
      return "";
    }
    var Frame(size, table, count) := frame.value;
    ghost var ends, elems := Slots(data, size, table, count), data[0..table];
    assert data[..table] == elems;
    assert ArrayHash(data, name) == Search(elems, name, ends, 0);
    var prev := 0;
    var i := 0;
    while i < count
      invariant i <= count && prev <= table
      invariant Search(elems, name, ends, 0) == Search(elems, name, ends[i..], prev)
    {
      var end := Slot(data, size, table, count, i);
      assert ends[i..][0] == end && ends[i..][1..] == ends[i + 1..];
      if end <= prev || end > table {
        return "";
      }
      SliceOfSlice(data, 0, table, prev, end);
      match Inspect(data[prev..end], name) {
        case Stop => return "";
        case Hit(found) => return found;
        case Skip => prev := end;
      }
      i := i + 1;
    }
    return "";
  }

  // ---- Any bytes: a reported hash stands right behind the name ----

  /** The name at `p`, its terminator, then the 32 bytes reported. */
  predicate FoundAt(data: Bytes, name: Bytes, hash: string, p: nat)
  {
    var q := p + |name| + 1;
    && q + 32 <= |data|
    && data[p..q] == name + [0 as Byte] && (0 as Byte) !in name
    && hash == Hex(data[q..q + 32])
  }

  lemma InspectIsSound(data: Bytes, name: Bytes, from: nat, to: nat)
    requires from <= to <= |data|
    ensures var look := Inspect(data[from..to], name); look.Hit? ==> FoundAt(data, name, look.hash, from)
  {
    hide Hex;
    var elem := data[from..to];
    var nul := IndexOf(elem, 0 as Byte);
    var look := Inspect(elem, name);
    if look.Hit? {
      assert nul < |elem| && nul + 1 + HASH_SIZE <= |elem| && name == elem[..nul];
      assert look.hash == Hex(elem[nul + 1..nul + 1 + HASH_SIZE]);
      SliceOfSlice(data, from, to, 0, nul + 1);
      SliceOfSlice(data, from, to, nul + 1, nul + 1 + HASH_SIZE);
      assert elem[0..nul + 1] == name + [0 as Byte];
    }
  }

  lemma {:induction false} SearchIsSound(elems: Bytes, name: Bytes, ends: seq<nat>, prev: nat)
    requires prev <= |elems| && Search(elems, name, ends, prev) != ""
    ensures exists p: nat :: FoundAt(elems, name, Search(elems, name, ends, prev), p)
    decreases |ends|
  {
    var end := ends[0];
    InspectIsSound(elems, name, prev, end);
    var look := Inspect(elems[prev..end], name);
    if look.Hit? {
      assert FoundAt(elems, name, look.hash, prev);
    } else {
      SearchIsSound(elems, name, ends[1..], end);
    }
  }

  /** For any bytes at all, a hash is only ever reported from right behind a terminated occurrence of the name. */
  lemma ArrayHashIsSound(data: Bytes, name: Bytes)
    requires ArrayHash(data, name) != ""
    ensures exists p: nat :: FoundAt(data, name, ArrayHash(data, name), p)
  {
    var f := ReadFrame(data).value;
    var elems := data[..f.table];
    SearchIsSound(elems, name, Slots(data, f.size, f.table, f.count), 0);
    var p: nat :| FoundAt(elems, name, ArrayHash(data, name), p);
    FoundInPrefix(data, f.table, name, ArrayHash(data, name), p);
  }

  lemma FoundInPrefix(data: Bytes, n: nat, name: Bytes, hash: string, p: nat)
    requires n <= |data| && FoundAt(data[..n], name, hash, p)
    ensures FoundAt(data, name, hash, p)
  {
    var q := p + |name| + 1;
    assert data[p..q] == data[..n][p..q] && data[q..q + HASH_SIZE] == data[..n][q..q + HASH_SIZE];
  }

  // ---- Encoded arrays: exactly the named entry ----

  /** The checksum of the first entry of this name. */
  function FirstHash(es: seq<Entry>, name: Bytes): string
  {
    if es == [] then "" else if es[0].name == name then Hex(es[0].hash) else FirstHash(es[1..], name)
  }

  lemma InspectEntry(kind: Kind, e: Entry, name: Bytes)
    requires ValidEntry(e)
    ensures Inspect(EncodeEntry(kind, e), name) == if e.name == name then Hit(Hex(e.hash)) else Skip
  {
    var elem := EncodeEntry(kind, e);
    var n := |e.name|;
    var head := e.name + [0 as Byte] + e.hash;
    assert elem[..|head|] == head;
    var tail := elem[n + 1..];
    assert elem == e.name + [0 as Byte] + tail;
    IndexOfAfter(e.name, 0 as Byte, tail);
    assert elem[..n] == e.name;
    assert elem[n + 1..n + 1 + HASH_SIZE] == head[n + 1..] == e.hash;
  }

  /** One round of the search over elements laid out behind `before`. */
  lemma SearchStep(before: Bytes, elem: Bytes, after: Bytes, name: Bytes, ends: seq<nat>)
    requires elem != []
    ensures var elems, end := before + elem + after, |before| + |elem|;
            Search(elems, name, [end] + ends, |before|) ==
              match Inspect(elem, name)
              case Stop => ""
              case Hit(hash) => hash
              case Skip => Search(elems, name, ends, end)
  {
    hide Inspect;
    var end := |before| + |elem|;
    MiddleOf(before, elem, after);
    assert ([end] + ends)[1..] == ends;
  }

  /** The verdict of the first element that is not passed over. */
  function FirstHit(items: seq<Bytes>, name: Bytes): string
  {
    if items == [] then ""
    else
      match Inspect(items[0], name)
      case Stop => ""
      case Hit(hash) => hash
      case Skip => FirstHit(items[1..], name)
  }

  /** Searching elements laid out from `|before|` on, with their true ends, is going through them one by one. */
  lemma {:induction false} SearchOfItems(before: Bytes, items: seq<Bytes>, name: Bytes)
    requires [] !in items
    ensures Search(before + Concat(items), name, Ends(items, |before|), |before|) == FirstHit(items, name)
    decreases |items|
  {
    hide Inspect, Search;
    if items == [] {
      SearchNothing(before + Concat(items), name, |before|);
    } else {
      var first, rest := items[0], items[1..];
      assert first in items && forall i | i in rest :: i in items;
      assert before + Concat(items) == before + first + Concat(rest);
      SearchStep(before, first, Concat(rest), name, Ends(rest, |before + first|));
      SearchOfItems(before + first, rest, name);
      hide Concat, Ends;
      assert Search(before + Concat(items), name, Ends(items, |before|), |before|) ==
             match Inspect(first, name)
             case Stop => ""
             case Hit(hash) => hash
             case Skip => FirstHit(rest, name);
    }
  }

  lemma SearchNothing(elems: Bytes, name: Bytes, prev: nat)
    requires prev <= |elems|
    ensures Search(elems, name, [], prev) == ""
  {
  }

  lemma {:induction false} FirstHitOfEntries(kind: Kind, es: seq<Entry>, name: Bytes)
    requires forall e | e in es :: ValidEntry(e)
    ensures FirstHit(Items(kind, es), name) == FirstHash(es, name)
    ensures [] !in Items(kind, es)
    decreases |es|
  {
    var items := Items(kind, es);
    if es != [] {
      InspectEntry(kind, es[0], name);
      assert items[1..] == Items(kind, es[1..]);
      FirstHitOfEntries(kind, es[1..], name);
    }
  }

  lemma {:induction false} EndsAreBounded(items: seq<Bytes>, start: nat)
    ensures forall i | 0 <= i < |items| :: Ends(items, start)[i] <= start + |Concat(items)|
    ensures items != [] ==> Ends(items, start)[|items| - 1] == start + |Concat(items)|
    decreases |items|
  {
    if |items| == 1 {
      assert Concat(items) == items[0] + Concat([]);
    } else if |items| > 1 {
      var rest := items[1..];
      EndsAreBounded(rest, start + |items[0]|);
      forall i | 0 < i < |items| ensures Ends(items, start)[i] == Ends(rest, start + |items[0]|)[i - 1] {}
    }
  }

  lemma SlotsOfContainer(body: Bytes, ends: seq<nat>)
    requires |Container(body, ends)| <= 0xffff_ffff
    requires forall i | 0 <= i < |ends| :: ends[i] <= |body|
    ensures var data, size := Container(body, ends), OffsetSize(|Container(body, ends)|);
            && |body| + |ends| * size == |data|
            && Slots(data, size, |body|, |ends|) == ends
  {
    var data, size := Container(body, ends), OffsetSize(|Container(body, ends)|);
    WidthsAgree(|body|, |ends|);
    OffsetSizeIsStandard(|data|);
    assert |body| + |ends| * size == |data|;
    var slots := Slots(data, size, |body|, |ends|);
    forall i: nat | i < |ends| ensures slots[i] == ends[i] {
      ReadOfContainer(body, ends, i);
    }
  }

  lemma DivideBack(count: nat, size: nat)
    requires size == 1 || size == 2 || size == 4
    ensures count * size / size == count
    ensures count > 0 ==> (count - 1) * size + size == count * size
  {
  }

  /** The last framing offset of an array is the start of its framing table. */
  lemma LastOffset(body: Bytes, ends: seq<nat>)
    requires ends != [] && |Container(body, ends)| <= 0xffff_ffff
    requires ends[|ends| - 1] == |body|
    ensures var data, size := Container(body, ends), OffsetSize(|Container(body, ends)|);
            && |body| + |ends| * size == |data|
            && ReadLE(data, |data| - size, size) == |body|
            && |body| <= |data| - size && (|data| - |body|) / size == |ends|
  {
    var size := OffsetSize(|Container(body, ends)|);
    ReadOfContainer(body, ends, |ends| - 1);
    DivideBack(|ends|, size);
  }

  /** The frame of a non-empty array is found again. */
  lemma FrameOfContainer(body: Bytes, ends: seq<nat>)
    requires ends != [] && |Container(body, ends)| <= 0xffff_ffff
    requires ends[|ends| - 1] == |body|
    ensures var data := Container(body, ends);
            && ReadFrame(data) == Some(Frame(OffsetSize(|data|), |body|, |ends|))
            && data[..|body|] == body
  {
    LastOffset(body, ends);
  }

  lemma ArrayHashOfItems(items: seq<Bytes>, name: Bytes)
    requires items != [] && |EncodeItems(items)| <= 0xffff_ffff
    ensures ArrayHash(EncodeItems(items), name) == Search(Concat(items), name, Ends(items, 0), 0)
  {
    var body, ends := Concat(items), Ends(items, 0);
    EndsAreBounded(items, 0);
    FrameOfContainer(body, ends);
    SlotsOfContainer(body, ends);
  }

  /** The array search finds exactly the first entry of a name, for files and directories and in every width. */
  lemma ArrayHashOfEncoded(kind: Kind, es: seq<Entry>, name: Bytes)
    requires forall e | e in es :: ValidEntry(e)
    requires |EncodeArray(kind, es)| <= 0xffff_ffff
    ensures ArrayHash(EncodeArray(kind, es), name) == FirstHash(es, name)
  {
    var items := Items(kind, es);
    FirstHitOfEntries(kind, es, name);
    if es != [] {
      ArrayHashOfItems(items, name);
      SearchOfItems([], items, name);
      assert [] + Concat(items) == Concat(items);
    }
  }

  // ---- Directory trees ----

  /** At most one of the two hashes is set. */
  datatype Child = Child(file: string, subdir: string)

  /** What `LookupDirtree` computes. */
  function DirtreeChild(data: Bytes, name: Bytes): Parsed<Child>
  {
    var n := |data|;
    if n == 0 then Err(Empty)
    else
      var size := OffsetSize(n);
      var filesEnd := ReadLE(data, n - size, size);
      if filesEnd > n - size then Err(OffsetOutOfRange)
      else
        var file := ArrayHash(data[..filesEnd], name);
        if file != "" then Ok(Child(file, "")) else Ok(Child("", ArrayHash(data[filesEnd..n - size], name)))
  }

  method LookupDirtree(data: Bytes, name: Bytes) returns (child: Parsed<Child>)
    ensures child == DirtreeChild(data, name)
  {
    var n := |data|;
    if n == 0 {
      return Err(Empty);
    }
    var size := OffsetSize(n);
    var filesEnd := ReadLE(data, n - size, size);
    if filesEnd > n - size {
      return Err(OffsetOutOfRange);
    }
    var file := LookupArray(data[..filesEnd], name);
    if file != "" {
      return Ok(Child(file, ""));
    }
    var subdir := LookupArray(data[filesEnd..n - size], name);
    return Ok(Child("", subdir));
  }

  lemma FilesEndOfContainer(a: Bytes, b: Bytes)
    requires |Container(a + b, [|a|])| <= 0xffff_ffff
    ensures var data, size := Container(a + b, [|a|]), OffsetSize(|Container(a + b, [|a|])|);
            && |data| == |a| + |b| + size && ReadLE(data, |data| - size, size) == |a|
            && data[..|a|] == a && data[|a|..|data| - size] == b
  {
    ReadOfContainer(a + b, [|a|], 0);
    var data, size := Container(a + b, [|a|]), OffsetSize(|Container(a + b, [|a|])|);
    assert data == a + b + data[|a| + |b|..];
    MiddleOf(a, b, data[|a| + |b|..]);
  }

  /** What a directory with these two encoded arrays says about a name. */
  function Chosen(file: string, subdir: string): Child
  {
    if file != "" then Child(file, "") else Child("", subdir)
  }

  lemma ChildOfArrays(a: Bytes, b: Bytes, name: Bytes)
    requires |Container(a + b, [|a|])| <= 0xffff_ffff
    ensures DirtreeChild(Container(a + b, [|a|]), name) == Ok(Chosen(ArrayHash(a, name), ArrayHash(b, name)))
  {
    FilesEndOfContainer(a, b);
  }

  /** On the encoding of any directory, the reader returns the checksum of exactly the named file, or else of exactly
      the named subdirectory, or nothing at all. */
  lemma ChildOfEncoded(files: seq<Entry>, dirs: seq<Entry>, name: Bytes)
    requires forall e | e in files :: ValidEntry(e)
    requires forall e | e in dirs :: ValidEntry(e)
    requires |EncodeDirtree(files, dirs)| <= 0xffff_ffff
    ensures DirtreeChild(EncodeDirtree(files, dirs), name) == Ok(Chosen(FirstHash(files, name), FirstHash(dirs, name)))
  {
    var a, b := EncodeArray(File, files), EncodeArray(Dir, dirs);
    ChildOfArrays(a, b, name);
    ArrayHashOfEncoded(File, files, name);
    ArrayHashOfEncoded(Dir, dirs, name);
  }

  /** With distinct names, "first" is "the". */
  lemma {:induction false} FirstHashIsTheHash(es: seq<Entry>, name: Bytes)
    requires forall e | e in es :: ValidEntry(e)
    requires forall i, j | 0 <= i < j < |es| :: es[i].name != es[j].name
    ensures forall e | e in es && e.name == name :: FirstHash(es, name) == Hex(e.hash)
    ensures (forall e | e in es :: e.name != name) <==> FirstHash(es, name) == ""
  {
    if es != [] {
      FirstHashIsTheHash(es[1..], name);
      assert es == [es[0]] + es[1..];
    }
  }
}
