/** Text conventions shared by the journals, the path code and the scope codec: splitting and joining on one
    separator, and reading a file line by line with the limits of Go's `bufio.Scanner`.
    Bytes are modelled as characters. */
module TextLines {

  /** The longest token a line scanner returns is one byte shorter than its buffer. */
  const MAX_TOKEN := 65536

  datatype Option<+T> = None | Some(value: T)

  /** What a line-by-line read yields: the lines, then possibly a "token too long" error. */
  datatype Scan = Scan(lines: seq<string>, tooLong: bool)

  /** Position of the first `c` in `s`, or `|s|` when there is none. */
  function IndexOf<T(==)>(s: seq<T>, c: T): (i: nat)
    ensures i <= |s|
    ensures c !in s[..i]
    ensures i < |s| ==> s[i] == c
  {
    if s == [] then 0
    else if s[0] == c then 0
    else
      var j := IndexOf(s[1..], c);
      assert s[..1 + j] == [s[0]] + s[1..][..j];
      1 + j
  }

  lemma {:induction false} IndexOfAfter<T>(a: seq<T>, c: T, b: seq<T>)
    requires c !in a
    ensures IndexOf(a + [c] + b, c) == |a|
  {
    if a != [] {
      assert (a + [c] + b)[1..] == a[1..] + [c] + b;
      IndexOfAfter(a[1..], c, b);
    }
  }

  lemma IndexOfBound<T>(s: seq<T>, c: T, k: nat)
    requires k < |s| && s[k] == c
    ensures IndexOf(s, c) <= k
  {
  }

  lemma IndexOfAbsent<T>(s: seq<T>, c: T)
    requires c !in s
    ensures IndexOf(s, c) == |s|
  {
  }

  /** Splits at every separator; the result always has one part more than `s` has separators. */
  function Split<T(==)>(s: seq<T>, c: T): (parts: seq<seq<T>>)
    ensures parts != []
    decreases |s|
  {
    var i := IndexOf(s, c);
    if i == |s| then [s] else [s[..i]] + Split(s[i + 1..], c)
  }

  lemma SplitHead<T>(part: seq<T>, c: T, rest: seq<T>)
    requires c !in part
    ensures Split(part + [c] + rest, c) == [part] + Split(rest, c)
  {
    var s := part + [c] + rest;
    IndexOfAfter(part, c, rest);
    assert s[..|part|] == part && s[|part| + 1..] == rest;
  }

  lemma SplitNone<T>(part: seq<T>, c: T)
    requires c !in part
    ensures Split(part, c) == [part]
  {
    IndexOfAbsent(part, c);
  }

  lemma {:induction false} SplitPartsHoldNone<T>(s: seq<T>, c: T)
    ensures forall p | p in Split(s, c) :: c !in p
    decreases |s|
  {
    hide Split;
    var i := IndexOf(s, c);
    if i == |s| {
      assert s[..i] == s;
      SplitNone(s, c);
    } else {
      var rest := s[i + 1..];
      assert s == s[..i] + [c] + rest;
      SplitHead(s[..i], c, rest);
      SplitPartsHoldNone(rest, c);
    }
  }

  function Join<T>(parts: seq<seq<T>>, c: T): seq<T>
  {
    if |parts| == 0 then []
    else if |parts| == 1 then parts[0]
    else parts[0] + [c] + Join(parts[1..], c)
  }

  lemma JoinCons<T>(part: seq<T>, rest: seq<seq<T>>, c: T)
    ensures Join([part], c) == part
    ensures rest != [] ==> Join([part] + rest, c) == part + [c] + Join(rest, c)
  {
    assert ([part] + rest)[1..] == rest;
  }

  /** Splitting undoes joining, provided no part holds the separator. */
  lemma {:induction false} SplitOfJoin<T>(parts: seq<seq<T>>, c: T)
    requires parts != []
    requires forall p | p in parts :: c !in p
    ensures Split(Join(parts, c), c) == parts
  {
    hide Split, Join;
    var part, rest := parts[0], parts[1..];
    assert parts == [part] + rest;
    JoinCons(part, rest, c);
    if rest == [] {
      assert parts == [part];
      SplitNone(part, c);
    } else {
      SplitHead(part, c, Join(rest, c));
      SplitOfJoin(rest, c);
    }
  }

  /** Joining undoes splitting, for every string. */
  lemma {:induction false} JoinOfSplit<T>(s: seq<T>, c: T)
    ensures Join(Split(s, c), c) == s
    decreases |s|
  {
    hide Split, Join;
    var i := IndexOf(s, c);
    if i == |s| {
      assert s[..i] == s;
      SplitNone(s, c);
      JoinCons(s, [], c);
    } else {
      var rest := s[i + 1..];
      assert s == s[..i] + [c] + rest;
      SplitHead(s[..i], c, rest);
      JoinOfSplit(rest, c);
      JoinCons(s[..i], Split(rest, c), c);
    }
  }

  /** At most `n` parts; the last one keeps any further separators. */
  function SplitN(s: string, c: char, n: nat): (parts: seq<string>)
    requires n > 0
    ensures 1 <= |parts| <= n
  {
    var i := IndexOf(s, c);
    if n == 1 || i == |s| then [s] else [s[..i]] + SplitN(s[i + 1..], c, n - 1)
  }

  lemma SplitNStep(a: string, c: char, b: string, n: nat)
    requires c !in a
    requires n > 1
    ensures SplitN(a + [c] + b, c, n) == [a] + SplitN(b, c, n - 1)
  {
    var s := a + [c] + b;
    IndexOfAfter(a, c, b);
    assert s[..|a|] == a;
    assert s[|a| + 1..] == b;
  }

  function DropCr(line: string): string
  {
    if |line| > 0 && line[|line| - 1] == '\r' then line[..|line| - 1] else line
  }

  function ScanLines(text: string): Scan
    decreases |text|
  {
    if text == "" then Scan([], false)
    else
      var i := IndexOf(text, '\n');
      if i >= MAX_TOKEN then Scan([], true)
      else if i == |text| then Scan([DropCr(text)], false)
      else
        var rest := ScanLines(text[i + 1..]);
        Scan([DropCr(text[..i])] + rest.lines, rest.tooLong)
  }

  /** A line that survives being written with a newline and read back. */
  predicate CleanLine(line: string)
  {
    '\n' !in line && DropCr(line) == line && |line| < MAX_TOKEN
  }

  function Unlines(lines: seq<string>): string
  {
    if lines == [] then "" else lines[0] + ['\n'] + Unlines(lines[1..])
  }

  lemma {:induction false} UnlinesAppend(lines: seq<string>, line: string)
    ensures Unlines(lines + [line]) == Unlines(lines) + line + ['\n']
  {
    if lines == [] {
      assert lines + [line] == [line];
      assert Unlines([line]) == line + ['\n'] + Unlines([]);
    } else {
      assert (lines + [line])[1..] == lines[1..] + [line];
      UnlinesAppend(lines[1..], line);
    }
  }

  lemma CleanMeans(line: string)
    requires '\n' !in line
    ensures CleanLine(line) <==> |line| < 65536 && (line == "" || line[|line| - 1] != '\r')
  {
  }

  /** Appended lines are read back one for one exactly when each of them is clean: shorter than the scanner's buffer and
      without a carriage return at its end. */
  lemma {:induction false} ScanOfUnlines(lines: seq<string>)
    requires forall l | l in lines :: '\n' !in l
    ensures ScanLines(Unlines(lines)) == Scan(lines, false)
            <==> forall l | l in lines :: |l| < 65536 && (l == "" || l[|l| - 1] != '\r')
    ensures ScanLines(Unlines(lines)).tooLong <==> exists l :: l in lines && |l| >= 65536
  {
    CleanOfUnlines(lines);
    forall l | l in lines ensures CleanLine(l) <==> |l| < 65536 && (l == "" || l[|l| - 1] != '\r') { CleanMeans(l); }
  }

  lemma {:induction false} CleanOfUnlines(lines: seq<string>)
    requires forall l | l in lines :: '\n' !in l
    ensures ScanLines(Unlines(lines)) == Scan(lines, false) <==> forall l | l in lines :: CleanLine(l)
    ensures ScanLines(Unlines(lines)).tooLong <==> exists l :: l in lines && |l| >= MAX_TOKEN
  {
    if lines != [] {
      var text := Unlines(lines);
      var rest := Unlines(lines[1..]);
      IndexOfAfter(lines[0], '\n', rest);
      assert text[..|lines[0]|] == lines[0];
      assert text[|lines[0]| + 1..] == rest;
      CleanOfUnlines(lines[1..]);
      assert lines == [lines[0]] + lines[1..];
      if |lines[0]| < MAX_TOKEN {
        var tail := ScanLines(rest);
        assert ScanLines(text) == Scan([DropCr(lines[0])] + tail.lines, tail.tooLong);
        if ScanLines(text) == Scan(lines, false) {
          assert ([DropCr(lines[0])] + tail.lines)[1..] == tail.lines;
        }
      }
    }
  }

  /** A last line without a newline is read too. */
  lemma LastLineIsRead(line: string)
    requires line != "" && '\n' !in line && |line| < 65536
    ensures ScanLines(line) == Scan([if line[|line| - 1] == '\r' then line[..|line| - 1] else line], false)
  {
    IndexOfAbsent(line, '\n');
  }

  // ---- Hexadecimal digits ----

  function HexDigit(d: nat): (c: char)
    requires d < 16
    ensures c == "0123456789abcdef"[d]
  {
    if d < 10 then '0' + d as char else 'a' + (d - 10) as char
  }

  lemma HexDigitIsInjective(d: nat, e: nat)
    requires d < 16 && e < 16 && HexDigit(d) == HexDigit(e)
    ensures d == e
  {
  }
}
