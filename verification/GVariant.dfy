/** The serialised form of the two OSTree object types, as section 2.3.6 "Framing Offsets" of the
    GVariant Specification 1.0 lays it out, written as an encoder. It is the specification the
    object reader is proved against. */
module GVariant {

  newtype Byte = x: int | 0 <= x < 256
  type Bytes = seq<Byte>

  const HASH_SIZE := 32

  /** Largest value a framing offset of this many bytes can hold, plus one. */
  function Limit(size: nat): nat
  {
    match size
    case 1 => 0x100
    case 2 => 0x1_0000
    case 4 => 0x1_0000_0000
    case _ => 0x1_0000_0000_0000_0000
  }

  predicate IsWidth(size: nat) { size == 1 || size == 2 || size == 4 || size == 8 }

  /** The framing offset width of a container of `n` bytes. */
  function StandardWidth(n: nat): (size: nat)
    ensures IsWidth(size)
    ensures n < Limit(8) ==> n < Limit(size)
  {
    if n <= 0xff then 1 else if n <= 0xffff then 2 else if n <= 0xffff_ffff then 4 else 8
  }

  /** The width a writer picks: the smallest that can address the container it leads to. */
  function WriterWidth(body: nat, offsets: nat): (size: nat)
    ensures IsWidth(size)
  {
    if body + offsets <= 0xff then 1
    else if body + 2 * offsets <= 0xffff then 2
    else if body + 4 * offsets <= 0xffff_ffff then 4
    else 8
  }

  /** Reader and writer agree on the width, so the table is found again. */
  lemma WidthsAgree(body: nat, offsets: nat)
    ensures var w := WriterWidth(body, offsets); StandardWidth(body + w * offsets) == w
  {
  }

  function LittleEndian(v: nat, size: nat): (b: Bytes)
    ensures |b| == size
  {
    if size == 0 then [] else [(v % 256) as Byte] + LittleEndian(v / 256, size - 1)
  }

  function Offsets(values: seq<nat>, size: nat): (b: Bytes)
    ensures |b| == size * |values|
  {
    if values == [] then [] else LittleEndian(values[0], size) + Offsets(values[1..], size)
  }

  /** A container: its body followed by its framing offsets. */
  function Container(body: Bytes, ends: seq<nat>): (b: Bytes)
    ensures |b| == |body| + WriterWidth(|body|, |ends|) * |ends|
  {
    body + Offsets(ends, WriterWidth(|body|, |ends|))
  }

  // ---- Directory trees: (a(say)a(sayay)) ----

  /** A name with the checksums stored under it: one for a file, content and metadata for a directory. */
  datatype Entry = Entry(name: Bytes, hash: Bytes, meta: Bytes)

  predicate ValidEntry(e: Entry)
  {
    (0 as Byte) !in e.name && |e.hash| == HASH_SIZE
  }

  /** `(say)`: the string, its terminator, the checksum, and the end of the string as the one framing offset. */
  function EncodeFile(e: Entry): Bytes
  {
    Container(e.name + [0 as Byte] + e.hash, [|e.name| + 1])
  }

  /** `(sayay)`: both ends but the last, in reverse order. */
  function EncodeDir(e: Entry): Bytes
  {
    Container(e.name + [0 as Byte] + e.hash + e.meta, [|e.name| + 1 + |e.hash|, |e.name| + 1])
  }

  datatype Kind = File | Dir

  function EncodeEntry(kind: Kind, e: Entry): (b: Bytes)
    ensures e.name + [0 as Byte] + e.hash <= b
  {
    if kind.File? then EncodeFile(e) else EncodeDir(e)
  }

  // An array of variable-size elements of alignment 1: the elements one after the other, then where each one ends.

  function Concat(items: seq<Bytes>): Bytes
  {
    if items == [] then [] else items[0] + Concat(items[1..])
  }

  /** Where each element ends, counted from `start`. */
  function Ends(items: seq<Bytes>, start: nat): (ends: seq<nat>)
    ensures |ends| == |items|
  {
    if items == [] then [] else [start + |items[0]|] + Ends(items[1..], start + |items[0]|)
  }

  function EncodeItems(items: seq<Bytes>): Bytes
  {
    Container(Concat(items), Ends(items, 0))
  }

  function Items(kind: Kind, es: seq<Entry>): (items: seq<Bytes>)
    ensures |items| == |es|
  {
    seq(|es|, i requires 0 <= i < |es| => EncodeEntry(kind, es[i]))
  }

  function EncodeArray(kind: Kind, es: seq<Entry>): Bytes
  {
    EncodeItems(Items(kind, es))
  }

  function EncodeDirtree(files: seq<Entry>, dirs: seq<Entry>): Bytes
  {
    var a := EncodeArray(File, files);
    Container(a + EncodeArray(Dir, dirs), [|a|])
  }

  // ---- Commits: (a{sv}aya(say)sstayay) ----

  /** The serialised fields; `metadata`, `parent` and `related` are of any length. */
  datatype Commit = Commit(
    metadata: Bytes, parent: Bytes, related: Bytes, subject: Bytes, body: Bytes,
    timestamp: nat, dirtree: Bytes, dirmeta: Bytes)

  function Zeros(n: nat): (b: Bytes)
    ensures |b| == n
  {
    seq(n, _ => 0 as Byte)
  }

  /** Padding that brings position `at` to the next multiple of 8. */
  function Padding(at: nat): (b: Bytes)
    ensures (at + |b|) % 8 == 0 && |b| < 8
  {
    Zeros((8 - at % 8) % 8)
  }

  function BeforeTimestamp(c: Commit): Bytes
  {
    c.metadata + c.parent + c.related + (c.subject + [0 as Byte]) + (c.body + [0 as Byte])
  }

  function CommitEnds(c: Commit): seq<nat>
  {
    var e1 := |c.metadata|;
    var e2 := e1 + |c.parent|;
    var e3 := e2 + |c.related|;
    var e4 := e3 + |c.subject| + 1;
    var e5 := e4 + |c.body| + 1;
    var e6 := e5 + |Padding(e5)| + 8 + |c.dirtree|;
    [e6, e5, e4, e3, e2, e1]
  }

  function EncodeCommit(c: Commit): Bytes
  {
    var head := BeforeTimestamp(c);
    Container(head + Padding(|head|) + LittleEndian(c.timestamp, 8) + c.dirtree + c.dirmeta, CommitEnds(c))
  }
}
