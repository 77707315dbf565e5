/** The configuration history of one device, group or factory: content files named by their hash, an append-only
    journal of saves, and a purge of files that fell out of the last ten saves. */
module ConfigHistory {
  import opened TextLines

  const JOURNAL := ".journal"
  const HISTORY_LIMIT := 10

  datatype Item = Item(name: string, timestamp: int, username: string, reason: string)

  datatype FileSet = FileSet(rawFiles: string, reason: string, createdAt: int, createdBy: string)

  // ---- Timestamps: `%x` against `strconv.ParseInt(_, 16, 64)` ----

  predicate Int64(n: int)
  {
    -0x8000_0000_0000_0000 <= n < 0x8000_0000_0000_0000
  }

  function HexOf(n: nat): (s: string)
    ensures s != "" && forall c | c in s :: DigitOf(c).Some?
  {
    if n < 16 then [HexDigit(n)] else HexOf(n / 16) + [HexDigit(n % 16)]
  }

  function PrintHex(n: int): string
  {
    if n < 0 then ['-'] + HexOf(-n) else HexOf(n)
  }

  function DigitOf(c: char): (d: Option<nat>)
    ensures d.Some? ==> c !in {':', '\n', '\r', '-', '+'}
  {
    if '0' <= c <= '9' then Some((c - '0') as nat)
    else if 'a' <= c <= 'f' then Some((c - 'a') as nat + 10)
    else if 'A' <= c <= 'F' then Some((c - 'A') as nat + 10)
    else None
  }

  function ValueOf(s: string): Option<nat>
  {
    if s == "" then Some(0)
    else
      var high := ValueOf(s[..|s| - 1]);
      var low := DigitOf(s[|s| - 1]);
      if high.None? || low.None? then None else Some(16 * high.value + low.value)
  }

  function ParseHex(s: string): (n: Option<int>)
    ensures n.Some? ==> Int64(n.value)
  {
    var negative := s != "" && s[0] == '-';
    var digits := if s != "" && (s[0] == '-' || s[0] == '+') then s[1..] else s;
    var value := ValueOf(digits);
    if digits == "" || value.None? then None
    else
      var magnitude: int := value.value;
      var n := if negative then -magnitude else magnitude;
      if Int64(n) then Some(n) else None
  }

  lemma {:induction false} ValueOfHex(n: nat)
    ensures ValueOf(HexOf(n)) == Some(n)
  {
    if n < 16 {
      assert HexOf(n)[..0] == "";
    } else {
      ValueOfHex(n / 16);
      var s := HexOf(n);
      assert s[..|s| - 1] == HexOf(n / 16);
    }
  }

  /** Digits of either case are read alike, and so is a plus sign. */
  lemma HexInputs(d: nat, n: nat)
    ensures d < 10 ==> DigitOf('0' + d as char) == Some(d)
    ensures d < 6 ==> DigitOf('a' + d as char) == DigitOf('A' + d as char) == Some(10 + d)
    ensures n <= 0x7fff_ffff_ffff_ffff ==> ParseHex("+" + PrintHex(n)) == Some(n)
  {
    hide HexOf, ValueOf;
    var s := "+" + PrintHex(n);
    assert s[1..] == HexOf(n);
    ValueOfHex(n);
  }

  /** Every 64-bit timestamp, before or after the epoch, is read back as it was printed; no other one is. */
  lemma HexRoundTrip(n: int)
    ensures ParseHex(PrintHex(n)) == Some(n) <==> -0x8000_0000_0000_0000 <= n <= 0x7fff_ffff_ffff_ffff
    ensures forall c | c in PrintHex(n) :: c !in {':', '\n', '\r'}
  {
    hide HexOf, ValueOf, DigitOf;
    if n < 0 {
      ValueOfHex(-n);
      assert PrintHex(n)[1..] == HexOf(-n);
    } else {
      ValueOfHex(n);
      assert HexOf(n)[0] in HexOf(n);
    }
  }

  // ---- Journal lines ----

  /** A line as `writeConfig` writes it. */
  function Print(item: Item): string
  {
    item.name + [':'] + (PrintHex(item.timestamp) + [':'] + (item.username + [':'] + item.reason))
  }

  /** A line of the older format, which had no user and no reason. */
  function PrintOld(item: Item): string
  {
    item.name + [':'] + PrintHex(item.timestamp)
  }

  function Parse(line: string): Option<Item>
  {
    var parts := SplitN(line, ':', 4);
    if |parts| < 2 then None
    else
      var timestamp := ParseHex(parts[1]);
      if timestamp.None? then None
      else if |parts| > 3 then Some(Item(parts[0], timestamp.value, parts[2], parts[3]))
      else Some(Item(parts[0], timestamp.value, "", ""))
  }

  lemma SplitTail(username: string, reason: string)
    ensures var parts := SplitN(username + [':'] + reason, ':', 2);
            |parts| == 2 && (parts == [username, reason] <==> ':' !in username)
  {
    var s := username + [':'] + reason;
    var i := IndexOf(s, ':');
    IndexOfBound(s, ':', |username|);
    assert SplitN(s, ':', 2) == [s[..i], s[i + 1..]];
    if ':' !in username {
      SplitNStep(username, ':', reason, 2);
    } else {
      assert ':' !in s[..i];
    }
  }

  lemma PartsOfPrint(item: Item)
    requires ':' !in item.name
    requires Int64(item.timestamp)
    ensures var parts := SplitN(item.username + [':'] + item.reason, ':', 2);
            |parts| == 2 && Parse(Print(item)) == Some(Item(item.name, item.timestamp, parts[0], parts[1]))
    ensures var parts := SplitN(item.username + [':'] + item.reason, ':', 2);
            parts == [item.username, item.reason] <==> ':' !in item.username
  {
    hide SplitN, PrintHex, ParseHex;
    var tail := item.username + [':'] + item.reason;
    var time := PrintHex(item.timestamp);
    HexRoundTrip(item.timestamp);
    SplitNStep(item.name, ':', time + [':'] + tail, 4);
    SplitNStep(time, ':', tail, 3);
    SplitTail(item.username, item.reason);
    var parts := SplitN(tail, ':', 2);
    assert Print(item) == item.name + [':'] + (time + [':'] + tail);
    assert SplitN(Print(item), ':', 4) == [item.name, time, parts[0], parts[1]];
  }

  /** A line is read back as written exactly when the user name is free of the separator; the reason may hold it. */
  lemma ParseOfPrint(item: Item)
    requires ':' !in item.name
    requires Int64(item.timestamp)
    ensures Parse(Print(item)) == Some(item) <==> ':' !in item.username
  {
    hide SplitN, Parse, Print, Int64;
    PartsOfPrint(item);
    var parts := SplitN(item.username + [':'] + item.reason, ':', 2);
    assert parts == [parts[0], parts[1]];
  }

  lemma ParseOfPrintOld(item: Item)
    requires ':' !in item.name
    requires Int64(item.timestamp)
    ensures Parse(PrintOld(item)) == Some(item.(username := "", reason := ""))
  {
    var time := PrintHex(item.timestamp);
    HexRoundTrip(item.timestamp);
    SplitNStep(item.name, ':', time, 4);
    IndexOfAbsent(time, ':');
    assert SplitN(PrintOld(item), ':', 4) == [item.name, time];
  }

  // ---- The journal ----

  function ParseAll(lines: seq<string>): Option<seq<Item>>
  {
    if lines == [] then Some([])
    else
      var first := Parse(lines[0]);
      var rest := ParseAll(lines[1..]);
      if first.None? || rest.None? then None else Some([first.value] + rest.value)
  }

  function ReadText(text: string): Option<seq<Item>>
  {
    var scan := ScanLines(text);
    if scan.tooLong then None else ParseAll(scan.lines)
  }

  /** One journal line and whether it stems from before users and reasons were recorded. */
  datatype Entry = Entry(item: Item, legacy: bool) {
    function Text(): string
    {
      if legacy then PrintOld(item) else Print(item)
    }

    function Seen(): Item
    {
      if legacy then item.(username := "", reason := "") else item
    }

    /** What the code itself guarantees: names are hexadecimal, and the handlers check the reason. No rule restricts
        user names. */
    predicate Sound()
    {
      HexName(item.name) && Int64(item.timestamp) && ValidReason(item.reason)
    }

    /** Whether the line can be read back at all. */
    predicate Loggable()
    {
      |Text()| < MAX_TOKEN && (legacy || (':' !in item.username && '\n' !in item.username))
    }
  }

  predicate HexName(name: string)
  {
    forall c | c in name :: DigitOf(c).Some?
  }

  /** The pattern for reasons. */
  predicate ValidReason(reason: string)
  {
    |reason| <= 200 && forall c | c in reason :: ReasonChar(c)
  }

  predicate ReasonChar(c: char)
  {
    || 'a' <= c <= 'z' || 'A' <= c <= 'Z' || '0' <= c <= '9'
    || c in {'_', ' ', ',', '.', '-', ':', ';', '\'', '"'}
  }

  function Texts(entries: seq<Entry>): (t: seq<string>)
    ensures |t| == |entries|
  {
    if entries == [] then [] else [entries[0].Text()] + Texts(entries[1..])
  }

  function AllSeen(entries: seq<Entry>): (s: seq<Item>)
    ensures |s| == |entries|
    ensures forall i | 0 <= i < |s| :: s[i] == entries[i].Seen()
  {
    if entries == [] then [] else [entries[0].Seen()] + AllSeen(entries[1..])
  }

  function JournalText(entries: seq<Entry>): string
  {
    Unlines(Texts(entries))
  }

  // ---- Reading line by line ----

  /** One round of reading: the line up to the first newline, then the rest. */
  lemma ReadStep(line: string, rest: string)
    requires '\n' !in line
    ensures ReadText(line + ['\n'] + rest) ==
              if |line| >= MAX_TOKEN || Parse(DropCr(line)).None? || ReadText(rest).None? then None
              else Some([Parse(DropCr(line)).value] + ReadText(rest).value)
  {
    hide Parse, DropCr;
    var text := line + ['\n'] + rest;
    IndexOfAfter(line, '\n', rest);
    assert text[..|line|] == line && text[|line| + 1..] == rest;
    var tail := ScanLines(rest);
    if |line| < MAX_TOKEN {
      var lines := [DropCr(line)] + tail.lines;
      assert ScanLines(text) == Scan(lines, tail.tooLong) && lines[1..] == tail.lines;
    }
  }

  lemma ReadNothing()
    ensures ReadText("") == Some([])
  {
  }

  /** Lines are what newlines end. */
  predicate Ended(text: string)
  {
    text == "" || text[|text| - 1] == '\n'
  }

  lemma FirstLine(text: string) returns (line: string, rest: string)
    requires '\n' in text
    ensures text == line + ['\n'] + rest && '\n' !in line && (Ended(text) ==> Ended(rest))
  {
    var i := IndexOf(text, '\n');
    line, rest := text[..i], text[i + 1..];
  }

  /** A text that ends all of its lines yields one record for each newline in it. */
  lemma {:induction false} AsManyAsNewlines(text: string)
    requires Ended(text) && ReadText(text).Some?
    ensures |ReadText(text).value| == multiset(text)['\n']
    decreases |text|
  {
    hide ReadText, Parse, DropCr;
    ReadNothing();
    if text != "" {
      assert text[|text| - 1] in text;
      var line, rest := FirstLine(text);
      ReadStep(line, rest);
      AsManyAsNewlines(rest);
      CountNewlines(line, rest);
    }
  }

  lemma CountNewlines(line: string, rest: string)
    ensures multiset(line + ['\n'] + rest)['\n'] == multiset(line)['\n'] + 1 + multiset(rest)['\n']
    ensures multiset(line)['\n'] == 0 <==> '\n' !in line
  {
  }

  /** What cannot be read stays so, whatever is appended. */
  lemma {:induction false} UnreadableForever(text: string, more: string)
    requires Ended(text) && ReadText(text).None?
    ensures ReadText(text + more).None?
    decreases |text|
  {
    hide ReadText, Parse, DropCr;
    ReadNothing();
    if text != "" {
      assert text[|text| - 1] in text;
      var line, rest := FirstLine(text);
      ReadStep(line, rest);
      ReadStep(line, rest + more);
      assert text + more == line + ['\n'] + (rest + more);
      if ReadText(rest).None? { UnreadableForever(rest, more); }
    }
  }

  // ---- One line ----

  lemma HexNameIsPlain(name: string)
    requires HexName(name)
    ensures ':' !in name && '\n' !in name && '\r' !in name
  {
  }

  lemma ReasonIsPlain(reason: string)
    requires ValidReason(reason)
    ensures '\n' !in reason && '\r' !in reason
  {
    assert !ReasonChar('\n') && !ReasonChar('\r');
  }

  /** Only a user name can bring a newline into a line, and nothing can end it in a carriage return. */
  lemma LineShape(e: Entry)
    requires e.Sound()
    ensures DropCr(e.Text()) == e.Text()
    ensures '\n' in e.Text() <==> !e.legacy && '\n' in e.item.username
  {
    HexNameIsPlain(e.item.name);
    ReasonIsPlain(e.item.reason);
    HexRoundTrip(e.item.timestamp);
    hide PrintHex, HexName, ValidReason, Int64;
    var time := PrintHex(e.item.timestamp);
    if e.legacy {
      LastIsIn(e.item.name + [':'], time);
    } else {
      var front := e.item.name + [':'] + (time + [':'] + e.item.username);
      assert e.Text() == front + [':'] + e.item.reason;
      LastIsIn(front + [':'], e.item.reason);
    }
  }

  lemma LastIsIn(front: string, tail: string)
    requires front != "" && front[|front| - 1] == ':' && '\r' !in tail
    ensures DropCr(front + tail) == front + tail
  {
    if tail != "" { assert tail[|tail| - 1] in tail; }
  }

  /** A record's header: what is read even without the content file. */
  predicate SameHeader(a: Item, b: Item)
  {
    a.timestamp == b.timestamp && a.username == b.username && a.reason == b.reason
  }

  /** A line without inner newlines, short enough to be read, is read back with its header exactly
      when it is loggable. */
  lemma TextReadsBack(e: Entry)
    requires e.Sound() && '\n' !in e.Text() && |e.Text()| < MAX_TOKEN
    ensures DropCr(e.Text()) == e.Text() && Parse(e.Text()).Some?
    ensures e.Loggable() <==> Parse(e.Text()) == Some(e.Seen())
    ensures e.Loggable() <==> SameHeader(Parse(e.Text()).value, e.Seen())
  {
    LineShape(e);
    HexNameIsPlain(e.item.name);
    hide Parse, HexName, ValidReason, Int64, PrintHex, DropCr;
    if e.legacy { ParseOfPrintOld(e.item); } else { ParseOfPrint(e.item); PartsOfPrint(e.item); }
  }

  lemma {:induction false} TextsAppend(entries: seq<Entry>, e: Entry)
    ensures Texts(entries + [e]) == Texts(entries) + [e.Text()]
  {
    if entries == [] {
      assert entries + [e] == [e];
      assert Texts([e]) == [e.Text()] + Texts([]);
    } else {
      assert (entries + [e])[1..] == entries[1..] + [e];
      TextsAppend(entries[1..], e);
    }
  }

  lemma JournalAppend(entries: seq<Entry>, e: Entry)
    ensures JournalText(entries + [e]) == JournalText(entries) + e.Text() + ['\n']
  {
    TextsAppend(entries, e);
    UnlinesAppend(Texts(entries), e.Text());
  }

  lemma {:induction false} NewlinesOfJournal(entries: seq<Entry>)
    requires forall e | e in entries :: e.Sound()
    ensures Ended(JournalText(entries))
    ensures multiset(JournalText(entries))['\n'] >= |entries|
    ensures (exists e :: e in entries && '\n' in e.Text()) ==> multiset(JournalText(entries))['\n'] > |entries|
  {
    hide Entry.Text, Entry.Sound;
    if entries != [] {
      JournalHead(entries[0], entries[1..]);
      assert entries == [entries[0]] + entries[1..];
      NewlinesOfJournal(entries[1..]);
      CountNewlines(entries[0].Text(), JournalText(entries[1..]));
    }
  }

  lemma JournalHead(e: Entry, rest: seq<Entry>)
    ensures JournalText([e] + rest) == e.Text() + ['\n'] + JournalText(rest)
  {
    assert ([e] + rest)[1..] == rest;
    assert Texts([e] + rest)[1..] == Texts(rest);
  }

  predicate SameHeaders(a: seq<Item>, b: seq<Item>)
  {
    |a| == |b| && forall i | 0 <= i < |a| :: SameHeader(a[i], b[i])
  }

  /** Lines without inner newlines: they are all read back right, or a record differs in its header, or
      there is none. */
  lemma {:induction false} PlainLinesReadBack(entries: seq<Entry>)
    requires forall e | e in entries :: e.Sound() && '\n' !in e.Text()
    ensures var read := ReadText(JournalText(entries));
            if forall e | e in entries :: e.Loggable() then read == Some(AllSeen(entries))
            else read.None? || !SameHeaders(read.value, AllSeen(entries))
  {
    hide ReadText, Parse, DropCr, Entry.Text, Entry.Sound, Entry.Seen, JournalText, SameHeader;
    if entries == [] {
      EmptyJournal(entries);
      ReadNothing();
    } else {
      var e, rest := entries[0], entries[1..];
      assert entries == [e] + rest;
      JournalHead(e, rest);
      ReadStep(e.Text(), JournalText(rest));
      if |e.Text()| < MAX_TOKEN { TextReadsBack(e); }
      PlainLinesReadBack(rest);
      assert (forall e | e in entries :: e.Loggable()) <==> e.Loggable() && forall e | e in rest :: e.Loggable();
      assert AllSeen(entries) == [e.Seen()] + AllSeen(rest);
      var first, tail := Parse(e.Text()), ReadText(JournalText(rest));
      if |e.Text()| < MAX_TOKEN && tail.Some? {
        HeadersOfTail(first.value, tail.value, e.Seen(), AllSeen(rest));
      }
    }
  }

  lemma {:induction false} HeadersOfTail(x: Item, xs: seq<Item>, y: Item, ys: seq<Item>)
    ensures SameHeaders([x] + xs, [y] + ys) <==> SameHeader(x, y) && SameHeaders(xs, ys)
  {
    hide SameHeader;
    var a, b := [x] + xs, [y] + ys;
    assert a[0] == x && b[0] == y;
    forall i | 0 <= i < |xs| ensures a[i + 1] == xs[i] {}
    forall i | 0 <= i < |ys| ensures b[i + 1] == ys[i] {}
    if SameHeaders(a, b) {
      forall i | 0 <= i < |xs| ensures SameHeader(xs[i], ys[i]) { assert SameHeader(a[i + 1], b[i + 1]); }
    }
  }

  lemma EmptyJournal(entries: seq<Entry>)
    requires entries == []
    ensures JournalText(entries) == ""
  {
  }

  /** Reading any journal, old and new lines mixed, gives back exactly its records in order if and only if every line
      is short enough for the reader and its user name has neither a separator nor a newline. Already the headers
      differ, or nothing can be read, otherwise. */
  lemma JournalRoundTrip(entries: seq<Entry>)
    requires forall e | e in entries :: e.Sound()
    ensures var read, loggable := ReadText(JournalText(entries)), forall e | e in entries :: e.Loggable();
            && (read == Some(AllSeen(entries)) <==> loggable)
            && (read.Some? && SameHeaders(read.value, AllSeen(entries)) <==> loggable)
  {
    hide ReadText, Entry.Text, Entry.Sound, Entry.Seen, JournalText;
    var text := JournalText(entries);
    if exists e :: e in entries && '\n' in e.Text() {
      NewlinesOfJournal(entries);
      if ReadText(text).Some? { AsManyAsNewlines(text); }
      var e :| e in entries && '\n' in e.Text();
      LineShape(e);
    } else {
      PlainLinesReadBack(entries);
    }
  }

  // ---- The directory and what the operations read from it ----

  /** Content files by name, and the journal when it exists. */
  datatype Dir = Dir(files: map<string, string>, journal: Option<string>)

  function Names(d: Dir): set<string>
  {
    d.files.Keys + if d.journal.Some? then {JOURNAL} else {}
  }

  function Items(d: Dir): Option<seq<Item>>
  {
    if d.journal.Some? then ReadText(d.journal.value) else Some([])
  }

  function LastOf<T>(s: seq<T>, n: nat): (r: seq<T>)
    ensures |r| == if |s| > n then n else |s|
  {
    if |s| > n then s[|s| - n..] else s
  }

  function Reversed<T>(s: seq<T>): (r: seq<T>)
    ensures |r| == |s|
    ensures forall i | 0 <= i < |r| :: r[i] == s[|s| - 1 - i]
  {
    if s == [] then [] else Reversed(s[1..]) + [s[0]]
  }

  function Load(files: map<string, string>, items: seq<Item>, withFiles: bool): Option<seq<FileSet>>
  {
    if items == [] then Some([])
    else
      var i := items[0];
      var rest := Load(files, items[1..], withFiles);
      if (withFiles && i.name !in files) || rest.None? then None
      else Some([FileSet(if withFiles then files[i.name] else "", i.reason, i.timestamp, i.username)] + rest.value)
  }

  /** The latest saves, newest first; none when the journal or one of the files cannot be read. */
  function History(d: Dir, latest: nat, withFiles: bool): Option<seq<FileSet>>
  {
    var items := Items(d);
    if items.None? then None else Load(d.files, Reversed(LastOf(items.value, latest)), withFiles)
  }

  function NamesOf(items: seq<Item>): (names: seq<string>)
    ensures |names| == |items|
    ensures forall i | 0 <= i < |names| :: names[i] == items[i].name
  {
    if items == [] then [] else [items[0].name] + NamesOf(items[1..])
  }

  function Doomed(listing: seq<string>, kept: seq<string>): set<string>
  {
    set n | n in listing && n != JOURNAL && n !in kept
  }

  /** The purge after it handled the first `handled` names of the directory listing. */
  function Purge(d: Dir, keepLatest: nat, listing: seq<string>, handled: nat): Dir
    requires handled <= |listing|
  {
    var items := Items(d);
    if |listing| <= keepLatest || items.None? then d
    else d.(files := d.files - Doomed(listing[..handled], LastOf(NamesOf(items.value), keepLatest)))
  }

  predicate IsListing(listing: seq<string>, d: Dir)
  {
    && (set n | n in listing) == Names(d)
    && (forall i, j | 0 <= i < j < |listing| :: listing[i] != listing[j])
  }

  // ---- Saves ----

  /** How far a save came before an error or a crash stopped it.
      `FileRemoved` is the cleanup after a failed append; `Appended` handled a prefix of its purge. */
  datatype Outcome = NotWritten | FileOnly | FileRemoved | Appended(listing: seq<string>, handled: nat)

  datatype Save = Save(content: string, username: string, reason: string, now: int, outcome: Outcome)

  type Hash = string -> string

  function ItemOf(hash: Hash, s: Save): Item
  {
    Item(hash(s.content), s.now, s.username, s.reason)
  }

  function FileSetOf(s: Save): FileSet
  {
    FileSet(s.content, s.reason, s.now, s.username)
  }

  function Written(hash: Hash, d: Dir, s: Save): Dir
  {
    d.(files := d.files[hash(s.content) := s.content])
  }

  function AppendLine(d: Dir, line: string): Dir
  {
    d.(journal := Some((if d.journal.Some? then d.journal.value else "") + line + ['\n']))
  }

  function Logged(hash: Hash, d: Dir, s: Save): Dir
  {
    AppendLine(Written(hash, d, s), Print(ItemOf(hash, s)))
  }

  /** A save can only purge names it found in the directory. */
  predicate Possible(hash: Hash, d: Dir, s: Save)
  {
    s.outcome.Appended? ==> IsListing(s.outcome.listing, Logged(hash, d, s)) && s.outcome.handled <= |s.outcome.listing|
  }

  function Step(hash: Hash, d: Dir, s: Save): Dir
    requires Possible(hash, d, s)
  {
    match s.outcome
    case NotWritten => d
    case FileOnly => Written(hash, d, s)
    case FileRemoved => d.(files := d.files - {hash(s.content)})
    case Appended(listing, handled) => Purge(Logged(hash, d, s), HISTORY_LIMIT, listing, handled)
  }

  function Run(hash: Hash, saves: seq<Save>): Dir
    requires PossibleRun(hash, saves)
    decreases |saves|, 1
  {
    if saves == [] then Dir(map[], None)
    else Step(hash, Run(hash, saves[..|saves| - 1]), saves[|saves| - 1])
  }

  predicate PossibleRun(hash: Hash, saves: seq<Save>)
    decreases |saves|, 0
  {
    saves == [] ||
    var before := saves[..|saves| - 1];
    PossibleRun(hash, before) && Possible(hash, Run(hash, before), saves[|saves| - 1])
  }

  /** The abstract history: the saves that reached the journal. */
  function Log(saves: seq<Save>): (log: seq<Save>)
    ensures forall s | s in log :: s in saves
  {
    if saves == [] then []
    else
      var s := saves[|saves| - 1];
      Log(saves[..|saves| - 1]) + if s.outcome.Appended? then [s] else []
  }

  predicate InWindow(content: string, log: seq<Save>)
  {
    exists s :: s in LastOf(log, HISTORY_LIMIT) && s.content == content
  }

  /** The last thing any save did to the file of this content was to write it, not to remove it in the cleanup after a
      failed append. */
  predicate Intact(saves: seq<Save>, content: string)
  {
    if saves == [] then false
    else
      var s := saves[|saves| - 1];
      if s.content == content && !s.outcome.NotWritten? then !s.outcome.FileRemoved?
      else Intact(saves[..|saves| - 1], content)
  }

  predicate Distinct(hash: Hash, saves: seq<Save>)
  {
    forall a, b | a in saves && b in saves && hash(a.content) == hash(b.content) :: a.content == b.content
  }

  function EntryOf(hash: Hash, s: Save): Entry
  {
    Entry(ItemOf(hash, s), false)
  }

  /** A save as the handlers admit it, by a user of any name. */
  predicate SoundSave(hash: Hash, s: Save)
  {
    HexName(hash(s.content)) && Int64(s.now) && ValidReason(s.reason)
  }

  /** All of these saves left lines that can be read back. */
  predicate AllLoggable(hash: Hash, log: seq<Save>)
  {
    forall s | s in log :: EntryOf(hash, s).Loggable()
  }

  // ---- What every save keeps ----

  predicate SoundRun(hash: Hash, saves: seq<Save>)
  {
    Distinct(hash, saves) && forall s | s in saves :: SoundSave(hash, s)
  }

  function Entries(hash: Hash, log: seq<Save>): (e: seq<Entry>)
    ensures |e| == |log|
    ensures forall i | 0 <= i < |e| :: e[i] == EntryOf(hash, log[i])
  {
    seq(|log|, i requires 0 <= i < |log| => EntryOf(hash, log[i]))
  }

  predicate Held(hash: Hash, files: map<string, string>, s: Save)
  {
    hash(s.content) in files && files[hash(s.content)] == s.content
  }

  predicate Journalled(hash: Hash, d: Dir, log: seq<Save>)
  {
    && (forall s | s in log :: SoundSave(hash, s))
    && (if d.journal.Some? then d.journal.value == JournalText(Entries(hash, log)) else log == [])
    && (forall n | n in d.files :: HexName(n))
  }

  predicate HeldIff(hash: Hash, files: map<string, string>, intact: bool, s: Save)
  {
    if intact then Held(hash, files, s) else hash(s.content) !in files
  }

  /** Of the last ten saves exactly those have their file whose content is intact. */
  predicate FilesInWindow(hash: Hash, files: map<string, string>, saves: seq<Save>)
  {
    forall s | s in LastOf(Log(saves), HISTORY_LIMIT) :: HeldIff(hash, files, Intact(saves, s.content), s)
  }

  /** The items of the log, oldest first. */
  function ItemsOf(hash: Hash, log: seq<Save>): (items: seq<Item>)
    ensures |items| == |log|
    ensures forall i | 0 <= i < |items| :: items[i] == ItemOf(hash, log[i])
  {
    seq(|log|, i requires 0 <= i < |log| => ItemOf(hash, log[i]))
  }

  lemma SoundEntries(hash: Hash, log: seq<Save>)
    requires forall s | s in log :: SoundSave(hash, s)
    ensures forall e | e in Entries(hash, log) :: e.Sound()
    ensures AllSeen(Entries(hash, log)) == ItemsOf(hash, log)
    ensures (forall e | e in Entries(hash, log) :: e.Loggable()) <==> AllLoggable(hash, log)
  {
    hide Entry.Loggable;
    var entries := Entries(hash, log);
    forall e | e in entries ensures e.Sound() {
      var i :| 0 <= i < |entries| && entries[i] == e;
      assert log[i] in log;
    }
    forall s | s in log ensures EntryOf(hash, s) in entries {
      var i :| 0 <= i < |log| && log[i] == s;
      assert entries[i] == EntryOf(hash, s);
    }
    forall e | e in entries ensures exists s :: s in log && e == EntryOf(hash, s) {
      var i :| 0 <= i < |entries| && entries[i] == e;
      assert log[i] in log;
    }
  }

  /** What is read from the journal is the log exactly when all of its lines can be read back. */
  lemma {:induction false} ItemsOfLog(hash: Hash, d: Dir, log: seq<Save>)
    requires Journalled(hash, d, log)
    ensures AllLoggable(hash, log) ==> Items(d) == Some(ItemsOf(hash, log))
    ensures Items(d).Some? && SameHeaders(Items(d).value, ItemsOf(hash, log)) ==> AllLoggable(hash, log)
  {
    hide ReadText, JournalText, SoundSave, HexName, Entry.Sound, Entry.Loggable, EntryOf, SameHeader;
    var entries := Entries(hash, log);
    SoundEntries(hash, log);
    if d.journal.Some? { JournalRoundTrip(entries); } else { NoItems(hash, log); }
  }

  lemma NoItems(hash: Hash, log: seq<Save>)
    requires log == []
    ensures ItemsOf(hash, log) == [] && AllLoggable(hash, log)
  {
  }

  lemma LoggedIsJournalled(hash: Hash, d: Dir, log: seq<Save>, s: Save)
    requires Journalled(hash, d, log) && SoundSave(hash, s)
    ensures Journalled(hash, Logged(hash, d, s), log + [s])
  {
    hide JournalText, HexName, Print;
    var e := EntryOf(hash, s);
    assert Entries(hash, log + [s]) == Entries(hash, log) + [e];
    JournalAppend(Entries(hash, log), e);
    if d.journal.None? {
      EmptyJournal(Entries(hash, log));
    }
  }

  lemma WindowGrows(log: seq<Save>, s: Save, t: Save)
    requires t in LastOf(log + [s], HISTORY_LIMIT)
    ensures t == s || t in LastOf(log, HISTORY_LIMIT)
  {
  }

  lemma LastOfIsPart<T>(s: seq<T>, n: nat, t: T)
    requires t in LastOf(s, n)
    ensures t in s
  {
  }

  /** What the purge keeps includes the files of the last ten saves. */
  lemma PurgeSparesWindow(hash: Hash, d: Dir, log: seq<Save>, listing: seq<string>, handled: nat, s: Save)
    requires Journalled(hash, d, log) && AllLoggable(hash, log)
    requires handled <= |listing| && s in LastOf(log, HISTORY_LIMIT)
    ensures var after := Purge(d, HISTORY_LIMIT, listing, handled).files;
            && (hash(s.content) in after <==> hash(s.content) in d.files)
            && (hash(s.content) in after ==> after[hash(s.content)] == d.files[hash(s.content)])
  {
    hide Items, Journalled, AllLoggable;
    ItemsOfLog(hash, d, log);
    var kept, window := LastOf(NamesOf(Items(d).value), HISTORY_LIMIT), LastOf(log, HISTORY_LIMIT);
    var i :| 0 <= i < |window| && window[i] == s;
    assert kept[i] == hash(s.content);
  }

  lemma PurgedIsJournalled(hash: Hash, d: Dir, log: seq<Save>, listing: seq<string>, handled: nat)
    requires Journalled(hash, d, log) && handled <= |listing|
    ensures Journalled(hash, Purge(d, HISTORY_LIMIT, listing, handled), log)
  {
    hide JournalText, SoundSave, HexName, Doomed;
  }

  lemma IntactStep(before: seq<Save>, s: Save, content: string)
    ensures Intact(before + [s], content) ==
              if s.content == content && !s.outcome.NotWritten? then !s.outcome.FileRemoved?
              else Intact(before, content)
    ensures Log(before + [s]) == if s.outcome.Appended? then Log(before) + [s] else Log(before)
  {
    assert (before + [s])[..|before|] == before;
    assert Log(before) + [] == Log(before);
  }

  /** Writing or removing one file leaves all others as they are. */
  lemma FileStep(hash: Hash, files: map<string, string>, before: seq<Save>, s: Save, t: Save)
    requires HeldIff(hash, files, Intact(before, t.content), t)
    requires hash(s.content) == hash(t.content) ==> s.content == t.content
    ensures var after := if s.outcome.NotWritten? then files
                         else if s.outcome.FileRemoved? then files - {hash(s.content)}
                         else files[hash(s.content) := s.content];
            HeldIff(hash, after, Intact(before + [s], t.content), t)
  {
    IntactStep(before, s, t.content);
    hide Intact;
  }

  lemma WrittenFile(hash: Hash, files: map<string, string>, before: seq<Save>, s: Save)
    requires s.outcome.Appended?
    ensures HeldIff(hash, files[hash(s.content) := s.content], Intact(before + [s], s.content), s)
  {
    IntactStep(before, s, s.content);
    hide Intact;
  }

  lemma StepIsJournalled(hash: Hash, d: Dir, log: seq<Save>, s: Save)
    requires Journalled(hash, d, log) && Possible(hash, d, s) && SoundSave(hash, s)
    ensures Journalled(hash, Step(hash, d, s), if s.outcome.Appended? then log + [s] else log)
  {
    hide Journalled, Purge, SoundSave, Logged;
    if s.outcome.Appended? {
      LoggedIsJournalled(hash, d, log, s);
      PurgedIsJournalled(hash, Logged(hash, d, s), log + [s], s.outcome.listing, s.outcome.handled);
    } else {
      UnloggedIsJournalled(hash, d, log, s);
    }
  }

  lemma {:induction false} RunIsJournalled(hash: Hash, saves: seq<Save>)
    requires PossibleRun(hash, saves) && forall s | s in saves :: SoundSave(hash, s)
    ensures Journalled(hash, Run(hash, saves), Log(saves))
  {
    hide SoundSave, Step, Possible;
    if saves == [] {
      assert Entries(hash, []) == [];
    } else {
      var before, s := saves[..|saves| - 1], saves[|saves| - 1];
      assert saves == before + [s];
      RunIsJournalled(hash, before);
      IntactStep(before, s, s.content);
      hide Journalled, Log;
      StepIsJournalled(hash, Run(hash, before), Log(before), s);
    }
  }

  lemma {:induction false} StepKeeps(hash: Hash, d: Dir, before: seq<Save>, s: Save)
    requires Journalled(hash, d, Log(before)) && FilesInWindow(hash, d.files, before) && Possible(hash, d, s)
    requires SoundSave(hash, s) && Distinct(hash, before + [s]) && AllLoggable(hash, Log(before + [s]))
    ensures FilesInWindow(hash, Step(hash, d, s).files, before + [s])
  {
    hide Journalled, HeldIff, Intact, Purge, Log, SoundSave, LastOf, AllLoggable;
    var all := before + [s];
    var log, after := Log(before), Step(hash, d, s);
    IntactStep(before, s, s.content);
    if s.outcome.Appended? {
      var logged := Logged(hash, d, s);
      LoggedIsJournalled(hash, d, log, s);
      forall t | t in LastOf(log + [s], HISTORY_LIMIT) ensures HeldIff(hash, after.files, Intact(all, t.content), t) {
        WindowGrows(log, s, t);
        if t == s {
          WrittenFile(hash, d.files, before, s);
        } else {
          SavedIsSave(before, s, t);
          FileStep(hash, d.files, before, s, t);
        }
        PurgeSparesWindow(hash, logged, log + [s], s.outcome.listing, s.outcome.handled, t);
        SameFile(hash, logged.files, after.files, Intact(all, t.content), t);
      }
    } else {
      forall t | t in LastOf(log, HISTORY_LIMIT) ensures HeldIff(hash, after.files, Intact(all, t.content), t) {
        SavedIsSave(before, s, t);
        FileStep(hash, d.files, before, s, t);
      }
    }
  }

  lemma UnloggedIsJournalled(hash: Hash, d: Dir, log: seq<Save>, s: Save)
    requires Journalled(hash, d, log) && SoundSave(hash, s) && !s.outcome.Appended? && Possible(hash, d, s)
    ensures Journalled(hash, Step(hash, d, s), log)
  {
    hide JournalText, HexName;
  }

  lemma SavedIsSave(before: seq<Save>, s: Save, t: Save)
    requires t in LastOf(Log(before), HISTORY_LIMIT)
    ensures s in before + [s] && t in before + [s]
  {
    hide LastOf;
    LastOfIsPart(Log(before), HISTORY_LIMIT, t);
  }

  lemma SameFile(hash: Hash, files: map<string, string>, after: map<string, string>, intact: bool, t: Save)
    requires HeldIff(hash, files, intact, t)
    requires hash(t.content) in after <==> hash(t.content) in files
    requires hash(t.content) in after ==> after[hash(t.content)] == files[hash(t.content)]
    ensures HeldIff(hash, after, intact, t)
  {
  }

  lemma LogGrows(hash: Hash, before: seq<Save>, s: Save)
    requires AllLoggable(hash, Log(before + [s]))
    ensures AllLoggable(hash, Log(before))
  {
    hide Log, EntryOf;
    IntactStep(before, s, s.content);
  }

  lemma {:induction false} RunKeeps(hash: Hash, saves: seq<Save>)
    requires PossibleRun(hash, saves) && SoundRun(hash, saves) && AllLoggable(hash, Log(saves))
    ensures FilesInWindow(hash, Run(hash, saves).files, saves)
  {
    hide SoundSave, Step, HeldIff, Possible, AllLoggable;
    if saves != [] {
      var before, s := saves[..|saves| - 1], saves[|saves| - 1];
      assert saves == before + [s];
      LogGrows(hash, before, s);
      RunKeeps(hash, before);
      RunIsJournalled(hash, before);
      hide Journalled, FilesInWindow, Log;
      StepKeeps(hash, Run(hash, before), before, s);
    }
  }

  // ---- Reading the history ----

  function FileSets(saves: seq<Save>, withFiles: bool): (sets: seq<FileSet>)
    ensures |sets| == |saves|
    ensures forall i | 0 <= i < |sets| ::
              sets[i] == if withFiles then FileSetOf(saves[i]) else FileSetOf(saves[i]).(rawFiles := "")
  {
    if saves == [] then []
    else
      var first := if withFiles then FileSetOf(saves[0]) else FileSetOf(saves[0]).(rawFiles := "");
      [first] + FileSets(saves[1..], withFiles)
  }

  lemma {:induction false} LoadSucceeds(files: map<string, string>, items: seq<Item>, withFiles: bool)
    ensures Load(files, items, withFiles).Some? <==> (withFiles ==> forall i | i in items :: i.name in files)
  {
    if items != [] {
      LoadSucceeds(files, items[1..], withFiles);
      assert items == [items[0]] + items[1..];
    }
  }

  lemma {:induction false} LoadOfSaves(hash: Hash, files: map<string, string>, items: seq<Item>, saves: seq<Save>,
                                       withFiles: bool)
    requires |items| == |saves|
    requires forall i | 0 <= i < |items| :: items[i] == ItemOf(hash, saves[i])
    requires withFiles ==> forall s | s in saves :: Held(hash, files, s)
    ensures Load(files, items, withFiles) == Some(FileSets(saves, withFiles))
  {
    if items != [] {
      LoadOfSaves(hash, files, items[1..], saves[1..], withFiles);
      assert withFiles ==> Held(hash, files, saves[0]);
    }
  }

  lemma LastOfAt<T>(s: seq<T>, n: nat, i: nat)
    requires i < |LastOf(s, n)|
    ensures |LastOf(s, n)| <= |s| && LastOf(s, n)[i] == s[|s| - |LastOf(s, n)| + i]
  {
  }

  lemma {:induction false} LatestPointwise(hash: Hash, log: seq<Save>, n: nat)
    ensures var items, latest := Reversed(LastOf(ItemsOf(hash, log), n)), Reversed(LastOf(log, n));
            |items| == |latest| && forall i | 0 <= i < |items| :: items[i] == ItemOf(hash, latest[i])
  {
    hide Reversed, LastOf, ItemOf;
    var a, b := LastOf(ItemsOf(hash, log), n), LastOf(log, n);
    forall i | 0 <= i < |a| ensures a[i] == ItemOf(hash, b[i]) {
      LastOfAt(ItemsOf(hash, log), n, i);
      LastOfAt(log, n, i);
    }
  }

  lemma LatestAreInWindow(log: seq<Save>, n: nat, s: Save)
    requires n <= HISTORY_LIMIT
    requires s in Reversed(LastOf(log, n))
    ensures s in LastOf(log, HISTORY_LIMIT)
  {
  }

  lemma ReversedHasTheSame(saves: seq<Save>)
    ensures forall s :: s in Reversed(saves) <==> s in saves
  {
    var r := Reversed(saves);
    forall s | s in saves ensures s in r {
      var i :| 0 <= i < |saves| && saves[i] == s;
      assert r[|r| - 1 - i] == s;
    }
  }

  /** All of these saves still have their content files. */
  predicate AllIntact(saves: seq<Save>, latest: seq<Save>)
  {
    forall s | s in latest :: Intact(saves, s.content)
  }

  /** Over any sequence of saves by users whose names the journal can hold, with repeated contents, crashes and errors
      anywhere, the history of up to ten entries is readable exactly when the contents of these entries are intact, and
      then it is exactly the last saved contents, newest first, with their times, users and reasons. */
  lemma {:induction false} HistoryIsTheLog(hash: Hash, saves: seq<Save>, n: nat)
    requires PossibleRun(hash, saves) && SoundRun(hash, saves) && AllLoggable(hash, Log(saves))
    requires n <= 10
    ensures var latest := LastOf(Log(saves), n);
            History(Run(hash, saves), n, true) ==
              if AllIntact(saves, latest) then Some(FileSets(Reversed(latest), true)) else None
  {
    hide Run, Log, Journalled, Intact, Load, Items, LastOf, Reversed, ItemOf, FileSets, PossibleRun, SoundSave;
    hide AllLoggable;
    var d, latest := Run(hash, saves), Reversed(LastOf(Log(saves), n));
    RunIsJournalled(hash, saves);
    RunKeeps(hash, saves);
    ItemsOfLog(hash, d, Log(saves));
    LatestPointwise(hash, Log(saves), n);
    ReversedHasTheSame(LastOf(Log(saves), n));
    var items := Reversed(LastOf(Items(d).value, n));
    forall s | s in latest ensures HeldIff(hash, d.files, Intact(saves, s.content), s) {
      LatestAreInWindow(Log(saves), n, s);
    }
    if AllIntact(saves, latest) {
      LoadOfSaves(hash, d.files, items, latest, true);
    } else {
      LoadSucceeds(d.files, items, true);
      var s :| s in latest && !Intact(saves, s.content);
      var i :| 0 <= i < |latest| && latest[i] == s;
      NameOfItem(hash, items[i], s);
      assert items[i] in items;
    }
  }

  lemma NameOfItem(hash: Hash, item: Item, s: Save)
    requires item == ItemOf(hash, s)
    ensures item.name == hash(s.content)
  {
  }

  lemma {:induction false} LoadHeaders(files: map<string, string>, items: seq<Item>)
    ensures var loaded := Load(files, items, false);
            && loaded.Some? && |loaded.value| == |items|
            && forall i | 0 <= i < |items| ::
                 loaded.value[i] == FileSet("", items[i].reason, items[i].timestamp, items[i].username)
  {
    if items != [] { LoadHeaders(files, items[1..]); }
  }

  lemma {:induction false} SameHeadersInReverse(items: seq<Item>, log: seq<Save>, hash: Hash, loaded: seq<FileSet>)
    requires |loaded| == |items|
    requires forall i | 0 <= i < |items| :: var r := Reversed(items);
               loaded[i] == FileSet("", r[i].reason, r[i].timestamp, r[i].username)
    requires loaded == FileSets(Reversed(log), false)
    ensures SameHeaders(items, ItemsOf(hash, log))
  {
    hide FileSets, Reversed;
    forall i | 0 <= i < |items| ensures SameHeader(items[i], ItemsOf(hash, log)[i]) {
      var k := |items| - 1 - i;
      assert loaded[k] == FileSetOf(log[i]).(rawFiles := "") && Reversed(items)[k] == items[i];
    }
  }

  /** All headers of the log can be read. */
  ghost predicate HeadersAreTheLog(d: Dir, log: seq<Save>)
  {
    forall n: nat :: HeadersMatch(d, log, n)
  }

  predicate HeadersMatch(d: Dir, log: seq<Save>, n: nat)
  {
    History(d, n, false) == Some(FileSets(Reversed(LastOf(log, n)), false))
  }

  /** Reading only the headers needs no content file. After any run, with files removed or not, the headers of every
      number of latest entries are those of the log if and only if every saved line can be read back: it is short
      enough, and its user name has neither a separator nor a newline. */
  lemma {:induction false} HeadersNeedNoFiles(hash: Hash, saves: seq<Save>)
    requires PossibleRun(hash, saves) && forall s | s in saves :: SoundSave(hash, s)
    ensures HeadersAreTheLog(Run(hash, saves), Log(saves)) <==> AllLoggable(hash, Log(saves))
  {
    hide Run, Log, Journalled, Items, LastOf, Reversed, ItemOf, FileSets, Load, PossibleRun, SoundSave, AllLoggable;
    hide SameHeaders;
    var d, log := Run(hash, saves), Log(saves);
    RunIsJournalled(hash, saves);
    ItemsOfLog(hash, d, log);
    if AllLoggable(hash, log) {
      forall n: nat ensures HeadersMatch(d, log, n) {
        LatestPointwise(hash, log, n);
        LoadOfSaves(hash, d.files, Reversed(LastOf(Items(d).value, n)), Reversed(LastOf(log, n)), false);
      }
    } else if HeadersAreTheLog(d, log) {
      assert HeadersMatch(d, log, 0);
      var items := Items(d).value;
      var n := |items| + |log|;
      assert HeadersMatch(d, log, n);
      LastOfAll(items, n);
      LastOfAll(log, n);
      LoadHeaders(d.files, Reversed(items));
      SameHeadersInReverse(items, log, hash, Load(d.files, Reversed(items), false).value);
    }
  }

  lemma LastOfAll<T>(s: seq<T>, n: nat)
    requires |s| <= n
    ensures LastOf(s, n) == s
  {
  }

  /** The cleanup of a failed append breaks a readable history exactly when one of the last ten saves has the same
      content. */
  lemma {:induction false} FailedAppendBreaksHistory(hash: Hash, saves: seq<Save>, s: Save)
    requires PossibleRun(hash, saves) && SoundRun(hash, saves + [s]) && AllLoggable(hash, Log(saves))
    requires History(Run(hash, saves), HISTORY_LIMIT, true).Some? && s.outcome.FileRemoved?
    ensures History(Step(hash, Run(hash, saves), s), HISTORY_LIMIT, true).Some? <==> !InWindow(s.content, Log(saves))
  {
    hide History, Log, Intact, SoundSave, LastOf, Step, AllLoggable;
    var all := saves + [s];
    assert all[..|all| - 1] == saves && all[|all| - 1] == s;
    forall t | t in saves ensures t in all {}
    HistoryIsTheLog(hash, saves, HISTORY_LIMIT);
    IntactStep(saves, s, s.content);
    HistoryIsTheLog(hash, all, HISTORY_LIMIT);
    hide Run, PossibleRun;
    var window := LastOf(Log(saves), HISTORY_LIMIT);
    IntactStep(saves, s, s.content);
    forall t | t in window ensures Intact(all, t.content) <==> t.content != s.content {
      IntactStep(saves, s, t.content);
    }
  }

  // ---- Runs that break the history ----

  /** One save without any error into an empty directory. */
  lemma OneSave(hash: Hash, s: Save)
    requires HexName(hash(s.content)) && s.outcome == Appended([hash(s.content), JOURNAL], 2)
    ensures PossibleRun(hash, [s]) && Log([s]) == [s] && Intact([s], s.content)
    ensures Run(hash, [s]) == Dir(map[hash(s.content) := s.content], Some(Print(ItemOf(hash, s)) + ['\n']))
  {
    hide Print;
    assert [s][..0] == [];
    var d, name := Dir(map[], None), hash(s.content);
    assert Run(hash, []) == d;
    assert name != JOURNAL by { assert JOURNAL[0] in JOURNAL; }
    assert Names(Logged(hash, d, s)) == {name, JOURNAL};
    assert IsListing([name, JOURNAL], Logged(hash, d, s)) by {
      assert (set n | n in [name, JOURNAL]) == {name, JOURNAL};
    }
    assert "" + Print(ItemOf(hash, s)) + ['\n'] == Print(ItemOf(hash, s)) + ['\n'];
  }

  lemma ExampleIsSound(hash: Hash, s: Save)
    requires hash(s.content) == "a" && s.username == "" && s.reason == "" && 0 <= s.now < 16
    ensures SoundSave(hash, s) && EntryOf(hash, s).Loggable()
  {
    assert Print(ItemOf(hash, s)) == ['a', ':', HexDigit(s.now), ':', ':'];
  }

  /** One save of a content, then a second save of it whose append fails: the first can no longer be read. */
  lemma FailedAppendExample()
    ensures exists hash: Hash, saves: seq<Save>, s: Save ::
      && PossibleRun(hash, saves) && SoundRun(hash, saves + [s]) && s.outcome.FileRemoved?
      && AllLoggable(hash, Log(saves))
      && History(Run(hash, saves), HISTORY_LIMIT, true).Some?
      && History(Step(hash, Run(hash, saves), s), HISTORY_LIMIT, true).None?
  {
    hide PossibleRun, SoundSave, Step, Run, History, Log, Intact, FileSets, EntryOf;
    var hash: Hash := c => c;
    var first := Save("a", "", "", 0, Appended(["a", JOURNAL], 2));
    var again := Save("a", "", "", 1, FileRemoved);
    OneSave(hash, first);
    ExampleIsSound(hash, first);
    ExampleIsSound(hash, again);
    assert LastOf([first], HISTORY_LIMIT) == [first];
    HistoryIsTheLog(hash, [first], HISTORY_LIMIT);
    assert first in LastOf(Log([first]), HISTORY_LIMIT);
    FailedAppendBreaksHistory(hash, [first], again);
  }

  /** A user `a:b` is read back as user `a`, with the rest of the name in front of the reason. */
  lemma ColonMisattributes(hash: Hash, s: Save, a: string, b: string, withFiles: bool)
    requires SoundSave(hash, s) && s.outcome == Appended([hash(s.content), JOURNAL], 2)
    requires s.username == a + [':'] + b && ':' !in a && '\n' !in s.username && |EntryOf(hash, s).Text()| < MAX_TOKEN
    ensures PossibleRun(hash, [s]) && Intact([s], s.content)
    ensures History(Run(hash, [s]), 1, withFiles)
            == Some([FileSet(if withFiles then s.content else "", b + [':'] + s.reason, s.now, a)])
  {
    hide PossibleRun, Intact, Parse, Print, HexName, ValidReason, Int64, SplitN, ReadText, DropCr;
    OneSave(hash, s);
    hide Run;
    var e, item := EntryOf(hash, s), ItemOf(hash, s);
    HexNameIsPlain(item.name);
    PartsOfPrint(item);
    SplitNStep(a, ':', b + [':'] + s.reason, 2);
    assert s.username + [':'] + s.reason == a + [':'] + (b + [':'] + s.reason);
    SplitNOne(b + [':'] + s.reason);
    LineShape(e);
    ReadStep(e.Text(), "");
    ReadNothing();
    assert e.Text() + ['\n'] + "" == e.Text() + ['\n'];
    var read := Item(item.name, s.now, a, b + [':'] + s.reason);
    assert Parse(e.Text()) == Some(read) && [read] + [] == [read];
    OneItem(Run(hash, [s]), read, withFiles);
  }

  lemma SplitNOne(t: string)
    ensures SplitN(t, ':', 1) == [t]
  {
  }

  lemma OneItem(d: Dir, item: Item, withFiles: bool)
    requires Items(d) == Some([item]) && item.name in d.files
    ensures History(d, 1, withFiles)
            == Some([FileSet(if withFiles then d.files[item.name] else "", item.reason, item.timestamp, item.username)])
  {
    var one := [item];
    assert LastOf(one, 1) == one && Reversed(one) == one;
    hide Items, Reversed, LastOf;
    assert one[1..] == [] && Load(d.files, one[1..], withFiles) == Some([]);
    var f := FileSet(if withFiles then d.files[item.name] else "", item.reason, item.timestamp, item.username);
    assert [f] + [] == [f];
  }

  /** A user name of two lines makes a second line that is no record: such a save, after any run and without any error,
      leaves a history that cannot be read. */
  lemma NewlineBreaksHistory(hash: Hash, saves: seq<Save>, s: Save, a: string, b: string)
    requires PossibleRun(hash, saves + [s]) && SoundSave(hash, s) && s.outcome.Appended?
    requires s.username == a + ['\n'] + b && '\n' !in a && '\n' !in b && ':' !in b
    requires ':' !in s.reason && ParseHex(s.reason).None?
    ensures Items(Run(hash, saves + [s])).None?
    ensures forall n: nat, withFiles: bool :: History(Run(hash, saves + [s]), n, withFiles) == None
  {
    hide PossibleRun, Parse, HexName, ValidReason, Int64, SplitN, ReadText, Print, ParseHex;
    var all, line := saves + [s], Print(ItemOf(hash, s)) + ['\n'];
    assert all[..|all| - 1] == saves && all[|all| - 1] == s;
    OneMoreIsPossible(hash, saves, s);
    JournalIsEnded(hash, saves);
    var d := Run(hash, saves);
    var text := if d.journal.Some? then d.journal.value else "";
    TwoLines(hash, s, a, b);
    UnreadableBehind(text, line);
    assert text + line == text + Print(ItemOf(hash, s)) + ['\n'];
    assert Items(Logged(hash, d, s)).None?;
  }

  lemma OneMoreIsPossible(hash: Hash, saves: seq<Save>, s: Save)
    requires PossibleRun(hash, saves + [s])
    ensures PossibleRun(hash, saves) && Possible(hash, Run(hash, saves), s)
    ensures Run(hash, saves + [s]) == Step(hash, Run(hash, saves), s)
  {
    hide Possible, Step;
    assert (saves + [s])[..|saves|] == saves;
  }

  lemma TwoLines(hash: Hash, s: Save, a: string, b: string)
    requires SoundSave(hash, s)
    requires s.username == a + ['\n'] + b && '\n' !in a && '\n' !in b && ':' !in b
    requires ':' !in s.reason && ParseHex(s.reason).None?
    ensures ReadText(Print(ItemOf(hash, s)) + ['\n']) == None
  {
    hide Parse, HexName, ValidReason, Int64, SplitN, ReadText, PrintHex, ParseHex;
    var item := ItemOf(hash, s);
    HexNameIsPlain(item.name);
    HexRoundTrip(s.now);
    ReasonIsPlain(s.reason);
    var first, second := item.name + [':'] + (PrintHex(s.now) + [':'] + a), b + [':'] + s.reason;
    ReadStep(first, second + ['\n']);
    ReadStep(second, "");
    assert second + ['\n'] + "" == second + ['\n'];
    NoRecord(b, s.reason);
    assert Print(item) + ['\n'] == first + ['\n'] + (second + ['\n']);
  }

  /** Nothing that comes before an unreadable text makes it readable. */
  lemma {:induction false} UnreadableBehind(text: string, more: string)
    requires Ended(text) && ReadText(more).None?
    ensures ReadText(text + more).None?
    decreases |text|
  {
    hide ReadText, Parse, DropCr;
    if text == "" {
      assert text + more == more;
    } else {
      assert text[|text| - 1] in text;
      var line, rest := FirstLine(text);
      UnreadableBehind(rest, more);
      ReadStep(line, rest + more);
      assert text + more == line + ['\n'] + (rest + more);
    }
  }

  /** Such a run exists: one save by the user `x` newline `y`. */
  lemma NewlineExample()
    ensures exists hash: Hash, s: Save ::
      && PossibleRun(hash, [s]) && SoundRun(hash, [s]) && Intact([s], s.content)
      && History(Run(hash, [s]), 1, true) == None && History(Run(hash, [s]), 1, false) == None
  {
    hide PossibleRun, Run, History, Intact;
    var hash: Hash := c => c;
    var s := Save("a", "x\ny", "", 0, Appended(["a", JOURNAL], 2));
    OneSave(hash, s);
    assert [] + [s] == [s];
    assert s.username == "x" + ['\n'] + "y";
    NewlineBreaksHistory(hash, [], s, "x", "y");
  }

  lemma NoRecord(b: string, reason: string)
    requires ':' !in b && ':' !in reason && ParseHex(reason).None? && '\r' !in reason
    ensures Parse(DropCr(b + [':'] + reason)) == None
  {
    hide ParseHex;
    LastIsIn(b + [':'], reason);
    SplitNStep(b, ':', reason, 4);
    IndexOfAbsent(reason, ':');
    assert SplitN(reason, ':', 3) == [reason];
  }

  lemma StepStaysUnreadable(hash: Hash, d: Dir, s: Save)
    requires Possible(hash, d, s) && d.journal.Some? && Ended(d.journal.value) && Items(d).None?
    ensures var t := Step(hash, d, s); t.journal.Some? && Ended(t.journal.value) && Items(t).None?
  {
    hide ReadText, Print;
    var line := Print(ItemOf(hash, s)) + ['\n'];
    UnreadableForever(d.journal.value, line);
    assert d.journal.value + line == d.journal.value + Print(ItemOf(hash, s)) + ['\n'];
  }

  lemma {:induction false} JournalIsEnded(hash: Hash, saves: seq<Save>)
    requires PossibleRun(hash, saves)
    ensures var d := Run(hash, saves); d.journal.Some? ==> Ended(d.journal.value)
  {
    hide ReadText, Print;
    if saves != [] { JournalIsEnded(hash, saves[..|saves| - 1]); }
  }

  lemma NoJournalIsReadable(d: Dir)
    ensures Items(d).None? ==> d.journal.Some?
  {
  }

  /** A history that cannot be read stays unreadable, whatever is saved afterwards and by whom. */
  lemma {:induction false} UnreadableStays(hash: Hash, saves: seq<Save>, more: seq<Save>)
    requires PossibleRun(hash, saves + more) && PossibleRun(hash, saves) && Items(Run(hash, saves)).None?
    ensures Items(Run(hash, saves + more)).None?
    ensures forall n: nat, withFiles: bool :: History(Run(hash, saves + more), n, withFiles) == None
    decreases |more|
  {
    hide Items, Step, Possible;
    var all := saves + more;
    if more == [] {
      assert all == saves;
    } else {
      var front, last := more[..|more| - 1], more[|more| - 1];
      assert all[..|all| - 1] == saves + front && all[|all| - 1] == last;
      UnreadableStays(hash, saves, front);
      JournalIsEnded(hash, saves + front);
      NoJournalIsReadable(Run(hash, saves + front));
      StepStaysUnreadable(hash, Run(hash, saves + front), last);
    }
  }

  // ---- What the purge leaves ----

  lemma {:induction false} SetOfSeqSize<T>(names: set<T>, s: seq<T>)
    requires forall n | n in names :: n in s
    ensures |names| <= |s|
  {
    if s == [] {
      assert names == {};
    } else {
      SetOfSeqSize(names - {s[0]}, s[1..]);
      assert |names| <= |names - {s[0]}| + 1 by {
        assert names <= (names - {s[0]}) + {s[0]};
        SubsetSize(names, (names - {s[0]}) + {s[0]});
      }
    }
  }

  lemma {:induction false} SubsetSize<T>(a: set<T>, b: set<T>)
    requires a <= b
    ensures |a| <= |b|
  {
    if a != {} {
      var x :| x in a;
      SubsetSize(a - {x}, b - {x});
    }
  }

  /** A purge without errors keeps no more than the wanted number of content files, and among them every file that
      the last saves refer to and the directory had. */
  lemma {:induction false} PurgeBoundsFiles(d: Dir, keepLatest: nat, listing: seq<string>)
    requires IsListing(listing, d) && JOURNAL !in d.files
    requires Items(d).Some?
    ensures var after := Purge(d, keepLatest, listing, |listing|);
            && |after.files| <= keepLatest
            && after.files.Keys <= d.files.Keys
            && forall n | n in LastOf(NamesOf(Items(d).value), keepLatest) && n in d.files ::
                 n in after.files && after.files[n] == d.files[n]
  {
    var after := Purge(d, keepLatest, listing, |listing|);
    var kept := LastOf(NamesOf(Items(d).value), keepLatest);
    assert listing[..|listing|] == listing;
    if |listing| <= keepLatest {
      forall n | n in d.files.Keys ensures n in listing {
        assert n in Names(d);
      }
      SetOfSeqSize(d.files.Keys, listing);
      assert |d.files| == |d.files.Keys|;
    } else {
      forall n | n in after.files.Keys ensures n in kept {
        assert n in Names(d);
      }
      SetOfSeqSize(after.files.Keys, kept);
      assert |after.files| == |after.files.Keys|;
    }
  }

  /** A save without any error leaves at most ten content files, whatever came before, as long as the journal can be
      read. */
  lemma SaveBoundsFiles(hash: Hash, saves: seq<Save>, s: Save)
    requires PossibleRun(hash, saves + [s]) && forall t | t in saves :: SoundSave(hash, t)
    requires SoundSave(hash, s) && s.outcome.Appended? && s.outcome.handled == |s.outcome.listing|
    requires Items(Run(hash, saves + [s])).Some?
    ensures |Run(hash, saves + [s]).files| <= 10
  {
    hide SoundSave, Items, PossibleRun, Journalled, Logged, Log, IsListing, Run, Purge;
    OneMoreIsPossible(hash, saves, s);
    RunIsJournalled(hash, saves);
    var d := Logged(hash, Run(hash, saves), s);
    LoggedIsJournalled(hash, Run(hash, saves), Log(saves), s);
    NoFileIsTheJournal(hash, d, Log(saves) + [s]);
    SameItems(d, s.outcome.listing);
    PurgeBoundsFiles(d, HISTORY_LIMIT, s.outcome.listing);
  }

  lemma NoFileIsTheJournal(hash: Hash, d: Dir, log: seq<Save>)
    requires Journalled(hash, d, log)
    ensures JOURNAL !in d.files
  {
    hide SoundSave, JournalText;
    assert JOURNAL[0] in JOURNAL && DigitOf('.').None?;
  }

  lemma SameItems(d: Dir, listing: seq<string>)
    ensures Items(Purge(d, HISTORY_LIMIT, listing, |listing|)) == Items(d)
  {
    hide ReadText;
  }

  // ---- The operations ----

  /** A result so far, followed by what the rest of a loop will add to it. */
  function Then<T>(done: seq<T>, rest: Option<seq<T>>): Option<seq<T>>
  {
    if rest.Some? then Some(done + rest.value) else None
  }

  lemma ThenNothing<T>(s: seq<T>, r: Option<seq<T>>)
    ensures Then([], r) == r && Then(s, Some([])) == Some(s)
  {
    if r.Some? { assert [] + r.value == r.value; }
    assert s + [] == s;
  }

  lemma ThenAssociates<T>(done: seq<T>, x: T, rest: Option<seq<T>>)
    ensures Then(done, Then([x], rest)) == Then(done + [x], rest)
  {
    if rest.Some? { assert done + ([x] + rest.value) == done + [x] + rest.value; }
  }

  lemma DoomedStep(listing: seq<string>, i: nat, kept: seq<string>)
    requires i < |listing|
    ensures Doomed(listing[..i + 1], kept)
         == Doomed(listing[..i], kept) + if listing[i] != JOURNAL && listing[i] !in kept then {listing[i]} else {}
  {
  }

  /** One configuration directory. File-system failures are parameters of the operations that can meet them. */
  class ConfigDir {
    const hash: Hash
    var files: map<string, string>
    var journal: Option<string>

    ghost function State(): Dir
      reads this
    {
      Dir(files, journal)
    }

    constructor (hash: Hash)
      ensures this.hash == hash && State() == Run(hash, [])
    {
      this.hash := hash;
      files, journal := map[], None;
    }

    method ReadJournal() returns (r: Option<seq<Item>>)
      ensures r == Items(State())
    {
      if journal.None? {
        return Some([]);
      }
      var scan := ScanLines(journal.value);
      var items := [];
      assert scan.lines[0..] == scan.lines;
      ThenNothing(items, ParseAll(scan.lines));
      for i := 0 to |scan.lines|
        invariant ParseAll(scan.lines) == Then(items, ParseAll(scan.lines[i..]))
      {
        var item := Parse(scan.lines[i]);
        if item.None? {
          return None;
        }
        assert scan.lines[i..][1..] == scan.lines[i + 1..];
        ThenAssociates(items, item.value, ParseAll(scan.lines[i + 1..]));
        items := items + [item.value];
      }
      ThenNothing(items, None);
      r := if scan.tooLong then None else Some(items);
    }

    /** A file-based two-phase commit: first the content file, then the journal line. */
    method WriteConfig(content: string, username: string, reason: string, now: int,
                       writeFails: bool, appendFails: bool, deleteFails: bool)
      returns (ok: bool)
      modifies this
      ensures ok == (!writeFails && !appendFails)
      ensures var s := Save(content, username, reason, now, NotWritten);
              State() == if writeFails then old(State())
                         else if !appendFails then Logged(hash, old(State()), s)
                         else Step(hash, old(State()), s.(outcome := if deleteFails then FileOnly else FileRemoved))
      ensures files == if writeFails then old(files)
                       else if ok || deleteFails then old(files)[hash(content) := content]
                       else old(files) - {hash(content)}
      ensures journal == if !ok then old(journal)
                         else Some((if old(journal).Some? then old(journal).value else "")
                                   + (hash(content) + ":" + PrintHex(now) + ":" + username + ":" + reason) + "\n")
    {
      var name := hash(content);
      if writeFails {
        return false;
      }
      files := files[name := content];
      if appendFails {
        if !deleteFails {
          files := files - {name};
        }
        return false;
      }
      var line := Print(Item(name, now, username, reason));
      assert line == name + ":" + PrintHex(now) + ":" + username + ":" + reason;
      journal := Some((if journal.Some? then journal.value else "") + line + ['\n']);
      return true;
    }

    /** A save whose purge fails is still a success. */
    method SaveConfig(content: string, username: string, reason: string, now: int, listing: seq<string>,
                      writeFails: bool, appendFails: bool, deleteFails: bool, failing: set<string>)
      returns (ok: bool, ghost s: Save)
      requires IsListing(listing, Logged(hash, State(), Save(content, username, reason, now, NotWritten)))
      modifies this
      ensures ok == (!writeFails && !appendFails) == s.outcome.Appended?
      ensures s == Save(content, username, reason, now, s.outcome)
      ensures Possible(hash, old(State()), s) && State() == Step(hash, old(State()), s)
    {
      ok := WriteConfig(content, username, reason, now, writeFails, appendFails, deleteFails);
      s := Save(content, username, reason, now,
                if writeFails then NotWritten else if deleteFails then FileOnly else FileRemoved);
      if ok {
        ghost var handled: nat;
        var purged;
        purged, handled := PurgeHistory(HISTORY_LIMIT, listing, failing);
        s := s.(outcome := Appended(listing, handled));
      }
    }

    method ReadHistory(latest: nat, withFiles: bool) returns (r: Option<seq<FileSet>>)
      ensures r == History(State(), latest, withFiles)
    {
      var items := ReadJournal();
      if items.None? {
        return None;
      }
      var order := Reversed(LastOf(items.value, latest));
      var sets := [];
      assert order[0..] == order;
      ThenNothing(sets, Load(files, order, withFiles));
      for i := 0 to |order|
        invariant Load(files, order, withFiles) == Then(sets, Load(files, order[i..], withFiles))
      {
        assert order[i..][1..] == order[i + 1..];
        if withFiles && order[i].name !in files {
          return None;
        }
        var raw := if withFiles then files[order[i].name] else "";
        var set0 := FileSet(raw, order[i].reason, order[i].timestamp, order[i].username);
        ThenAssociates(sets, set0, Load(files, order[i + 1..], withFiles));
        sets := sets + [set0];
      }
      ThenNothing(sets, None);
      r := Some(sets);
    }

    /** `failing` are the names whose deletion fails. The purge works exactly when it has nothing to do, or when the
        journal can be read and no doomed name is failing; else it ends at the first doomed name that is. */
    method PurgeHistory(keepLatest: nat, listing: seq<string>, failing: set<string>)
      returns (ok: bool, ghost handled: nat)
      requires IsListing(listing, State())
      modifies this
      ensures handled <= |listing| && State() == Purge(old(State()), keepLatest, listing, handled)
      ensures ok <==>
                || |listing| <= keepLatest
                || (Items(old(State())).Some?
                    && Doomed(listing, LastOf(NamesOf(Items(old(State())).value), keepLatest)) !! failing)
      ensures ok || |listing| <= keepLatest || Items(old(State())).None? ==> handled == |listing|
      ensures !ok && Items(old(State())).Some? ==>
                var kept := LastOf(NamesOf(Items(old(State())).value), keepLatest);
                && handled < |listing| && listing[handled] in Doomed(listing, kept) * failing
                && Doomed(listing[..handled], kept) !! failing
    {
      hide IsListing, Items, Doomed, NamesOf, LastOf;
      if |listing| <= keepLatest {
        return true, |listing|;
      }
      var items := ReadJournal();
      if items.None? {
        return false, |listing|;
      }
      var kept := LastOf(NamesOf(items.value), keepLatest);
      NothingDoomed(listing, kept);
      assert listing[..|listing|] == listing;
      for i := 0 to |listing|
        invariant journal == old(journal)
        invariant files == old(files) - Doomed(listing[..i], kept)
        invariant Doomed(listing[..i], kept) !! failing
      {
        DoomedStep(listing, i, kept);
        if listing[i] != JOURNAL && listing[i] !in kept {
          if listing[i] in failing {
            DoomedAt(listing, i, kept);
            return false, i;
          }
          files := files - {listing[i]};
        }
      }
      return true, |listing|;
    }
  }

  lemma DoomedAt(listing: seq<string>, i: nat, kept: seq<string>)
    requires i < |listing| && listing[i] != JOURNAL && listing[i] !in kept
    ensures listing[i] in Doomed(listing, kept)
  {
  }

  lemma NothingDoomed(listing: seq<string>, kept: seq<string>)
    ensures Doomed(listing[..0], kept) == {}
  {
  }
}
