/** Access scopes: masks of declared permissions, and their text form. A 64-bit mask is modelled as the set of its bits'
    positions, so that `&` is intersection, `|` is union and `s & k == k` is inclusion. */
module Scopes {
  import opened TextLines

  type Mask = set<nat>

  const COUNT := 11

  /** The declared scopes in the order of their names, which is the order of every printed list. */
  function NameAt(i: nat): string
    requires i < COUNT
  {
    match i
    case 0 => "devices:create"
    case 1 => "devices:delete"
    case 2 => "devices:read"
    case 3 => "devices:read-update"
    case 4 => "updates:delete"
    case 5 => "updates:read"
    case 6 => "updates:read-update"
    case 7 => "users:create"
    case 8 => "users:delete"
    case 9 => "users:read"
    case _ => "users:read-update"
  }

  /** Each resource has four bits, for reading, updating, creating and deleting; updating comes with reading, and there
      is no scope for creating updates. */
  function MaskAt(i: nat): Mask
    requires i < COUNT
  {
    match i
    case 0 => {2}
    case 1 => {3}
    case 2 => {0}
    case 3 => {0, 1}
    case 4 => {7}
    case 5 => {4}
    case 6 => {4, 5}
    case 7 => {10}
    case 8 => {11}
    case 9 => {8}
    case _ => {8, 9}
  }

  predicate Has(s: Mask, scope: Mask)
  {
    s * scope == scope
  }

  // ---- Printing ----

  /** A broader declared scope that `s` has too makes a narrower one redundant. */
  predicate Redundant(s: Mask, i: nat)
    requires i < COUNT
  {
    exists j: nat :: j < COUNT && Has(MaskAt(j), MaskAt(i)) && MaskAt(j) != MaskAt(i) && Has(s, MaskAt(j))
  }

  predicate Printed(s: Mask, i: nat)
    requires i < COUNT
  {
    Has(s, MaskAt(i)) && !Redundant(s, i)
  }

  function NamesFrom(s: Mask, i: nat): seq<string>
    requires i <= COUNT
    decreases s, COUNT - i
  {
    if i == COUNT then [] else (if Printed(s, i) then [NameAt(i)] else []) + NamesFrom(s, i + 1)
  }

  function ToString(s: Mask): string
  {
    Join(NamesFrom(s, 0), ',')
  }

  // ---- Parsing ----

  predicate Space(c: char)
  {
    c in {' ', '\t', '\n', '\U{0B}', '\U{0C}', '\r', '\U{85}', '\U{A0}'}
  }

  function TrimLeft(s: string): string
  {
    if s != "" && Space(s[0]) then TrimLeft(s[1..]) else s
  }

  function TrimRight(s: string): string
  {
    if s != "" && Space(s[|s| - 1]) then TrimRight(s[..|s| - 1]) else s
  }

  function TrimSpace(s: string): string
  {
    TrimRight(TrimLeft(s))
  }

  /** The declared scope of this name, counted from `i` on. */
  function Find(name: string, i: nat): (r: Option<nat>)
    requires i <= COUNT
    ensures r.Some? ==> i <= r.value < COUNT && NameAt(r.value) == name
    ensures r.None? ==> forall j | i <= j < COUNT :: NameAt(j) != name
    decreases name, COUNT - i
  {
    if i == COUNT then None else if NameAt(i) == name then Some(i) else Find(name, i + 1)
  }

  function ParseParts(parts: seq<string>, sum: Mask): Option<Mask>
  {
    if parts == [] then Some(sum)
    else
      var i := Find(TrimSpace(parts[0]), 0);
      if i.Some? then ParseParts(parts[1..], sum + MaskAt(i.value)) else None
  }

  function Parse(text: string): Option<Mask>
  {
    ParseParts(Split(text, ','), {})
  }

  // ---- Unions of declared scopes ----

  /** The union of the declared scopes from the `i`th on that `s` has. */
  function Union(s: Mask, i: nat): Mask
    requires i <= COUNT
    decreases s, COUNT - i
  {
    if i == COUNT then {} else (if Has(s, MaskAt(i)) then MaskAt(i) else {}) + Union(s, i + 1)
  }

  function PrintedUnion(s: Mask, i: nat): Mask
    requires i <= COUNT
    decreases s, COUNT - i
  {
    if i == COUNT then {} else (if Printed(s, i) then MaskAt(i) else {}) + PrintedUnion(s, i + 1)
  }

  /** The mask is a union of declared ones. */
  predicate Proper(s: Mask)
  {
    s == Union(s, 0)
  }

  lemma HasIsSubset(s: Mask, scope: Mask)
    ensures Has(s, scope) <==> scope <= s
  {
  }

  /** No declared scope is broader than one that is itself broader than another. */
  lemma TwoLevels(i: nat, j: nat, k: nat)
    requires i < COUNT && j < COUNT && k < COUNT
    requires Has(MaskAt(j), MaskAt(i)) && MaskAt(j) != MaskAt(i) && Has(MaskAt(k), MaskAt(j))
    ensures MaskAt(k) == MaskAt(j)
  {
  }

  predicate HasBit(s: Mask, i: nat, bit: nat)
    requires i < COUNT
  {
    Has(s, MaskAt(i)) && bit in MaskAt(i)
  }

  lemma {:induction false} UnionBits(s: Mask, i: nat, bit: nat)
    requires i <= COUNT
    ensures bit in Union(s, i) <==> exists j: nat :: i <= j < COUNT && HasBit(s, j, bit)
    ensures bit in PrintedUnion(s, i) <==> exists j: nat :: i <= j < COUNT && HasBit(s, j, bit) && Printed(s, j)
    decreases COUNT - i
  {
    hide MaskAt, Has, Redundant;
    if i < COUNT {
      UnionBits(s, i + 1, bit);
      assert bit in MaskAt(i) && Has(s, MaskAt(i)) ==> HasBit(s, i, bit);
    }
  }

  /** The printed scopes cover all that the mask has of declared ones. */
  lemma PrintedIsUnion(s: Mask)
    ensures PrintedUnion(s, 0) == Union(s, 0)
  {
    hide MaskAt, Has, Union, PrintedUnion;
    forall bit: nat ensures bit in Union(s, 0) <==> bit in PrintedUnion(s, 0) {
      UnionBits(s, 0, bit);
      if bit in Union(s, 0) {
        var j: nat :| j < COUNT && HasBit(s, j, bit);
        if Redundant(s, j) {
          var k: nat :| k < COUNT && Has(MaskAt(k), MaskAt(j)) && MaskAt(k) != MaskAt(j) && Has(s, MaskAt(k));
          BroaderIsPrinted(s, j, k);
          HasIsSubset(MaskAt(k), MaskAt(j));
          assert HasBit(s, k, bit);
        }
      }
    }
  }

  lemma BroaderIsPrinted(s: Mask, j: nat, k: nat)
    requires j < COUNT && k < COUNT
    requires Has(MaskAt(k), MaskAt(j)) && MaskAt(k) != MaskAt(j) && Has(s, MaskAt(k))
    ensures Printed(s, k)
  {
    hide MaskAt, Has;
    forall l: nat | l < COUNT && Has(MaskAt(l), MaskAt(k)) ensures MaskAt(l) == MaskAt(k) {
      TwoLevels(j, k, l);
    }
  }

  /** The mask is the union of the declared scopes it has. */
  lemma ProperBits(s: Mask)
    ensures Proper(s) <==> forall bit | bit in s :: exists j: nat :: j < COUNT && HasBit(s, j, bit)
  {
    hide MaskAt, Union, PrintedUnion;
    forall bit: nat ensures bit in Union(s, 0) <==> exists j: nat :: j < COUNT && HasBit(s, j, bit) {
      UnionBits(s, 0, bit);
    }
    forall bit | bit in Union(s, 0) ensures bit in s {
      var j: nat :| j < COUNT && HasBit(s, j, bit);
      HasIsSubset(s, MaskAt(j));
    }
  }

  /** Unions of declared scopes are closed under union with a declared scope. */
  lemma AddKeepsProper(s: Mask, i: nat)
    requires Proper(s) && i < COUNT
    ensures Proper(s + MaskAt(i))
  {
    hide MaskAt, Has;
    var t := s + MaskAt(i);
    ProperBits(s);
    ProperBits(t);
    forall bit | bit in t ensures exists j: nat :: j < COUNT && HasBit(t, j, bit) {
      var j: nat;
      if bit in s {
        j :| j < COUNT && HasBit(s, j, bit);
        HasIsSubset(s, MaskAt(j));
      } else {
        j := i;
      }
      HasIsSubset(t, MaskAt(j));
      assert HasBit(t, j, bit);
    }
  }

  /** Two declared scopes that share a bit have a declared intersection: one includes the other. */
  lemma OverlapIsInclusion(i: nat, j: nat, bit: nat)
    requires i < COUNT && j < COUNT && bit in MaskAt(i) && bit in MaskAt(j)
    ensures MaskAt(i) <= MaskAt(j) || MaskAt(j) <= MaskAt(i)
  {
  }

  /** Unions of declared scopes are closed under intersection, so what is granted can always be printed. */
  lemma MeetKeepsProper(s: Mask, t: Mask)
    requires Proper(s) && Proper(t)
    ensures Proper(s * t)
  {
    hide MaskAt, Has;
    var meet := s * t;
    ProperBits(s);
    ProperBits(t);
    ProperBits(meet);
    forall bit | bit in meet ensures exists j: nat :: j < COUNT && HasBit(meet, j, bit) {
      var i: nat :| i < COUNT && HasBit(s, i, bit);
      var j: nat :| j < COUNT && HasBit(t, j, bit);
      OverlapIsInclusion(i, j, bit);
      HasIsSubset(s, MaskAt(i));
      HasIsSubset(t, MaskAt(j));
      var k := if MaskAt(i) <= MaskAt(j) then i else j;
      HasIsSubset(meet, MaskAt(k));
      assert HasBit(meet, k, bit);
    }
  }

  lemma EmptyIsProper()
    ensures Proper({})
  {
  }

  // ---- Round trip ----

  lemma NameShape(i: nat)
    requires i < COUNT
    ensures var name := NameAt(i);
            |name| > 8 && ',' !in name && !Space(name[0]) && !Space(name[|name| - 1])
  {
  }

  /** The resource, and the first letters of what may be done with it, tell the names apart. */
  function Signature(name: string): (char, char, char, int)
    requires |name| > 8
  {
    (name[1], name[6], name[8], |name|)
  }

  lemma NamesDiffer(i: nat, j: nat)
    requires i < COUNT && j < COUNT && NameAt(i) == NameAt(j)
    ensures i == j
  {
    NameShape(i);
    var s := Signature(NameAt(i));
    assert s == Signature(NameAt(j));
  }

  /** A declared name is found under its own position, needs no trimming and holds no comma. */
  lemma NameFacts(i: nat)
    requires i < COUNT
    ensures Find(NameAt(i), 0) == Some(i) && TrimSpace(NameAt(i)) == NameAt(i) && ',' !in NameAt(i)
  {
    NameShape(i);
    hide NameAt, Space;
    var found := Find(NameAt(i), 0);
    if found.Some? { NamesDiffer(found.value, i); }
  }

  lemma ParseOneName(i: nat, rest: seq<string>, sum: Mask)
    requires i < COUNT
    ensures ParseParts([NameAt(i)] + rest, sum) == ParseParts(rest, sum + MaskAt(i))
  {
    hide MaskAt, NameAt, Find, TrimSpace;
    NameFacts(i);
    assert ([NameAt(i)] + rest)[1..] == rest;
  }

  lemma {:induction false} ParseNames(s: Mask, i: nat, sum: Mask)
    requires i <= COUNT
    ensures ParseParts(NamesFrom(s, i), sum) == Some(sum + PrintedUnion(s, i))
    decreases COUNT - i
  {
    hide MaskAt, NameAt, Printed, ParseParts;
    if i < COUNT {
      var rest := NamesFrom(s, i + 1);
      if Printed(s, i) {
        ParseNames(s, i + 1, sum + MaskAt(i));
        ParseOneName(i, rest, sum);
        assert sum + MaskAt(i) + PrintedUnion(s, i + 1) == sum + PrintedUnion(s, i);
      } else {
        ParseNames(s, i + 1, sum);
        assert [] + rest == rest && {} + PrintedUnion(s, i + 1) == PrintedUnion(s, i + 1);
      }
    } else {
      assert sum + {} == sum;
      NothingToParse([], sum);
    }
  }

  lemma NothingToParse(parts: seq<string>, sum: Mask)
    requires parts == []
    ensures ParseParts(parts, sum) == Some(sum)
  {
  }

  lemma {:induction false} NamesHaveNoComma(s: Mask, i: nat)
    requires i <= COUNT
    ensures forall n | n in NamesFrom(s, i) :: ',' !in n
    decreases COUNT - i
  {
    hide NameAt, Printed;
    if i < COUNT {
      NameFacts(i);
      NamesHaveNoComma(s, i + 1);
    }
  }

  lemma {:induction false} ParsedIsProper(parts: seq<string>, sum: Mask)
    requires Proper(sum)
    ensures ParseParts(parts, sum).Some? ==> Proper(ParseParts(parts, sum).value)
  {
    hide MaskAt, NameAt, Proper, TrimSpace;
    if parts != [] {
      var i := Find(TrimSpace(parts[0]), 0);
      if i.Some? {
        AddKeepsProper(sum, i.value);
        ParsedIsProper(parts[1..], sum + MaskAt(i.value));
      }
    }
  }

  lemma DeclaredIsNotEmpty(i: nat)
    requires i < COUNT
    ensures MaskAt(i) != {}
  {
  }

  lemma {:induction false} ParsedGrows(parts: seq<string>, sum: Mask)
    ensures ParseParts(parts, sum).Some? ==>
              sum <= ParseParts(parts, sum).value && (parts != [] ==> ParseParts(parts, sum).value != {})
  {
    hide MaskAt, NameAt, TrimSpace;
    if parts != [] {
      var i := Find(TrimSpace(parts[0]), 0);
      if i.Some? {
        DeclaredIsNotEmpty(i.value);
        ParsedGrows(parts[1..], sum + MaskAt(i.value));
      }
    }
  }

  /** Every text that parses names at least one scope. */
  lemma ParsedIsNotEmpty(text: string)
    ensures Parse(text).Some? ==> Parse(text).value != {}
  {
    hide ParseParts;
    ParsedGrows(Split(text, ','), {});
  }

  lemma NothingParsed()
    ensures Parse("") == None
  {
  }

  lemma {:induction false} NothingPrinted(s: Mask, i: nat)
    requires i <= COUNT && NamesFrom(s, i) == []
    ensures PrintedUnion(s, i) == {}
    decreases COUNT - i
  {
    hide MaskAt, NameAt, Printed;
    if i < COUNT { NothingPrinted(s, i + 1); }
  }

  /** Parsing gives back a printed mask exactly when it is a union of declared scopes and not empty; and whatever
      parses is such a union. */
  lemma TextRoundTrip(s: Mask)
    ensures Parse(ToString(s)) == Some(s) <==> Proper(s) && s != {}
    ensures forall text :: Parse(text).Some? ==> Proper(Parse(text).value)
  {
    hide Find, TrimSpace, MaskAt, NameAt, Printed, ParseParts, NamesFrom, Union, PrintedUnion;
    var names := NamesFrom(s, 0);
    EmptyIsProper();
    forall text ensures Parse(text).Some? ==> Proper(Parse(text).value) {
      ParsedIsProper(Split(text, ','), {});
    }
    PrintedIsUnion(s);
    ParseNames(s, 0, {});
    NamesHaveNoComma(s, 0);
    if names == [] {
      NothingPrinted(s, 0);
      NothingParsed();
      assert Join(names, ',') == "";
    } else {
      SplitOfJoin(names, ',');
      assert {} + PrintedUnion(s, 0) == Union(s, 0);
      SomethingPrinted(s, 0);
    }
  }

  lemma {:induction false} SomethingPrinted(s: Mask, i: nat)
    requires i <= COUNT && NamesFrom(s, i) != []
    ensures PrintedUnion(s, i) != {}
    decreases COUNT - i
  {
    hide NameAt, Printed;
    if i < COUNT && !Printed(s, i) { SomethingPrinted(s, i + 1); }
  }

  /** Whatever a mask prints as, what is read back is never more than the mask. */
  lemma TextNeverWidens(s: Mask)
    ensures Parse(ToString(s)).Some? ==> Parse(ToString(s)).value <= s
  {
    hide Find, TrimSpace, MaskAt, NameAt, Printed, ParseParts, NamesFrom, Union, PrintedUnion;
    var names := NamesFrom(s, 0);
    ParseNames(s, 0, {});
    NamesHaveNoComma(s, 0);
    if names == [] {
      NothingParsed();
      assert Join(names, ',') == "";
    } else {
      SplitOfJoin(names, ',');
      forall bit | bit in PrintedUnion(s, 0) ensures bit in s {
        UnionBits(s, 0, bit);
        var j: nat :| j < COUNT && HasBit(s, j, bit);
        HasIsSubset(s, MaskAt(j));
      }
      assert {} + PrintedUnion(s, 0) == PrintedUnion(s, 0);
    }
  }

  // ---- What is printed ----

  lemma {:induction false} PrintedNames(s: Mask, i: nat, name: string)
    requires i <= COUNT
    ensures name in NamesFrom(s, i) <==> exists j: nat :: i <= j < COUNT && Printed(s, j) && NameAt(j) == name
    decreases COUNT - i
  {
    hide NameAt, Printed;
    if i < COUNT { PrintedNames(s, i + 1, name); }
  }

  /** A scope is printed if and only if the mask has it and no other declared scope that the mask has is broader: of two
      printed names neither covers the other. */
  lemma PrintedIsBroadest(s: Mask, i: nat)
    requires i < COUNT
    ensures NameAt(i) in NamesFrom(s, 0)
            <==> MaskAt(i) <= s && forall j: nat | j < COUNT && MaskAt(i) < MaskAt(j) :: !(MaskAt(j) <= s)
  {
    PrintedNames(s, 0, NameAt(i));
    forall j: nat | j < COUNT && NameAt(j) == NameAt(i) ensures j == i { NamesDiffer(i, j); }
    hide NameAt, MaskAt, NamesFrom;
    HasIsSubset(s, MaskAt(i));
    forall j: nat | j < COUNT ensures
        (Has(s, MaskAt(j)) <==> MaskAt(j) <= s) && (Has(MaskAt(j), MaskAt(i)) <==> MaskAt(i) <= MaskAt(j)) {
      HasIsSubset(s, MaskAt(j));
      HasIsSubset(MaskAt(j), MaskAt(i));
    }
    forall j: nat | j < COUNT && MaskAt(i) < MaskAt(j) ensures MaskAt(j) != MaskAt(i) {}
    forall j: nat | j < COUNT && MaskAt(i) <= MaskAt(j) && MaskAt(j) != MaskAt(i) ensures MaskAt(i) < MaskAt(j) {}
  }

  // ---- What the names grant ----

  predicate Blank(s: string)
  {
    forall c | c in s :: c in {' ', '\t', '\n', '\r'}
  }

  lemma BlankEnds(s: string)
    requires Blank(s) && s != ""
    ensures Space(s[0]) && Space(s[|s| - 1]) && Blank(s[1..]) && Blank(s[..|s| - 1])
  {
    var rest, front := s[1..], s[..|s| - 1];
    assert s[0] in s && s[|s| - 1] in s;
    forall c | c in rest ensures c in s {}
    forall c | c in front ensures c in s {}
  }

  lemma {:induction false} TrimBlank(a: string, name: string, b: string)
    requires Blank(a) && Blank(b) && name != "" && !Space(name[0]) && !Space(name[|name| - 1])
    ensures TrimSpace(a + name + b) == name
    decreases |a| + |b|
  {
    hide Space, Blank;
    if a != "" {
      BlankEnds(a);
      assert (a + name + b)[1..] == a[1..] + name + b;
      TrimBlank(a[1..], name, b);
    } else {
      assert a + name + b == name + b && TrimLeft(name + b) == name + b;
      if b != "" {
        BlankEnds(b);
        var c := b[..|b| - 1];
        assert (name + b)[..|name + b| - 1] == name + c && "" + name + c == name + c;
        TrimBlank("", name, c);
        assert TrimLeft(name + c) == name + c;
      } else {
        assert name + b == name;
      }
    }
  }

  lemma NamedMask(a: string, i: nat, b: string)
    requires i < COUNT && Blank(a) && Blank(b)
    ensures Parse(a + NameAt(i) + b) == Some(MaskAt(i))
  {
    hide MaskAt, NameAt, Find, TrimSpace, Parse, ParseParts;
    NameFacts(i);
    NameShape(i);
    TrimBlank(a, NameAt(i), b);
    var text := a + NameAt(i) + b;
    SplitNone(text, ',');
    ParseOnePart(text);
    assert {} + MaskAt(i) == MaskAt(i);
  }

  lemma ParseOnePart(text: string)
    requires Split(text, ',') == [text]
    ensures var i := Find(TrimSpace(text), 0); Parse(text) == if i.Some? then Some({} + MaskAt(i.value)) else None
  {
    hide MaskAt, NameAt, Find, TrimSpace;
    var one := [text];
    assert one[1..] == [] && ParseParts(one, {}).None? == Find(TrimSpace(one[0]), 0).None?;
  }

  /** The names, with any space around them, and the bits they stand for: a resource has four bits, for reading,
      updating, creating and deleting, and whoever may update may read. */
  lemma NamesMean(a: string, b: string)
    requires Blank(a) && Blank(b)
    ensures Parse(a + "devices:read" + b) == Some({0}) && Parse(a + "devices:read-update" + b) == Some({0, 1})
    ensures Parse(a + "devices:create" + b) == Some({2}) && Parse(a + "devices:delete" + b) == Some({3})
    ensures Parse(a + "updates:read" + b) == Some({4}) && Parse(a + "updates:read-update" + b) == Some({4, 5})
    ensures Parse(a + "updates:delete" + b) == Some({7})
    ensures Parse(a + "users:read" + b) == Some({8}) && Parse(a + "users:read-update" + b) == Some({8, 9})
    ensures Parse(a + "users:create" + b) == Some({10}) && Parse(a + "users:delete" + b) == Some({11})
  {
    hide Parse, Blank;
    NamedMask(a, 0, b);
    NamedMask(a, 1, b);
    NamedMask(a, 2, b);
    NamedMask(a, 3, b);
    NamedMask(a, 4, b);
    NamedMask(a, 5, b);
    NamedMask(a, 6, b);
    NamedMask(a, 7, b);
    NamedMask(a, 8, b);
    NamedMask(a, 9, b);
    NamedMask(a, 10, b);
  }
}
