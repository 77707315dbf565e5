/** Lexical path handling on a slash-separated file system: cleaning, joining, relative paths and the check that a path
    stays under a root. */
module Paths {
  import opened TextLines

  /** One ordinary path segment. */
  predicate Name(s: string)
  {
    s != "" && s != "." && s != ".." && '/' !in s
  }

  predicate Names(segs: seq<string>)
  {
    forall s | s in segs :: Name(s)
  }

  /** Segments that a split of their joined text gives back. */
  predicate Segments(segs: seq<string>)
  {
    forall s | s in segs :: s != "" && s != "." && '/' !in s
  }

  /** How cleaning treats the next segment, given the segments kept so far. */
  function Push(rooted: bool, kept: seq<string>, seg: string): seq<string>
  {
    if seg == "" || seg == "." then kept
    else if seg != ".." then kept + [seg]
    else if kept != [] && kept[|kept| - 1] != ".." then kept[..|kept| - 1]
    else if rooted then kept
    else kept + [".."]
  }

  function PushAll(rooted: bool, kept: seq<string>, segs: seq<string>): seq<string>
    decreases |segs|
  {
    if segs == [] then kept else PushAll(rooted, Push(rooted, kept, segs[0]), segs[1..])
  }

  /** `filepath.Clean`. */
  function Clean(path: string): string
  {
    if path == "" then "."
    else
      var rooted := path[0] == '/';
      var segs := PushAll(rooted, [], Split(path, '/'));
      if rooted then Rooted(segs) else Relative(segs)
  }

  function Rooted(segs: seq<string>): string { "/" + Join(segs, '/') }

  function Relative(segs: seq<string>): string { if segs == [] then "." else Join(segs, '/') }

  /** `filepath.Join` of two elements, the first of which is not empty. */
  function JoinPath(root: string, path: string): string
    requires root != ""
  {
    if path == "" then Clean(root) else Clean(root + "/" + path)
  }

  predicate IsRooted(path: string) { path != "" && path[0] == '/' }

  function SegsOf(path: string): seq<string>
    requires path != ""
  {
    if path == "/" || path == "." then [] else Split(if IsRooted(path) then path[1..] else path, '/')
  }

  function Text(rooted: bool, segs: seq<string>): string { if rooted then Rooted(segs) else Relative(segs) }

  /** Segments as cleaning leaves them: only a relative path has parent steps, and those come first. */
  predicate Normal(rooted: bool, segs: seq<string>)
  {
    && Segments(segs)
    && forall i | 0 <= i < |segs| && segs[i] == ".." :: !rooted && (i > 0 ==> segs[i - 1] == "..")
  }

  /** A clean path, absolute or relative. */
  predicate IsClean(path: string)
  {
    path != "" && Normal(IsRooted(path), SegsOf(path)) && path == Text(IsRooted(path), SegsOf(path))
  }

  /** A clean path that is absolute or ends in a name, as the path of a directory inside a data directory does. */
  predicate IsRoot(path: string)
  {
    && IsClean(path)
    && (IsRooted(path) || (SegsOf(path) != [] && SegsOf(path)[|SegsOf(path)| - 1] != ".."))
  }

  function AbsPathNoEscape(root: string, path: string): (abs: Option<string>)
    requires root != ""
  {
    var abs := JoinPath(root, path);
    var escaping :=
      if |root| >= |abs| then root != abs
      else if root != "/" then !(root + "/" <= abs)
      else false;
    if escaping then None else Some(abs)
  }

  // ---- Segments and strings ----

  lemma {:induction false} SplitConcat(a: string, c: char, b: string)
    ensures Split(a + [c] + b, c) == Split(a, c) + Split(b, c)
    decreases |a|
  {
    hide Split;
    var i := IndexOf(a, c);
    if i == |a| {
      assert a[..i] == a;
      SplitHead(a, c, b);
      SplitNone(a, c);
    } else {
      var rest := a[i + 1..];
      assert a == a[..i] + [c] + rest;
      assert a + [c] + b == a[..i] + [c] + (rest + [c] + b);
      SplitHead(a[..i], c, rest + [c] + b);
      SplitHead(a[..i], c, rest);
      SplitConcat(rest, c, b);
      assert [a[..i]] + (Split(rest, c) + Split(b, c)) == [a[..i]] + Split(rest, c) + Split(b, c);
    }
  }

  lemma SplitOfSegments(segs: seq<string>)
    requires Segments(segs) && segs != []
    ensures Split(Join(segs, '/'), '/') == segs
  {
    SplitOfJoin(segs, '/');
  }

  lemma {:induction false} JoinConcat(a: seq<string>, b: seq<string>)
    requires a != [] && b != []
    ensures Join(a + b, '/') == Join(a, '/') + "/" + Join(b, '/')
  {
    if |a| == 1 {
      assert (a + b)[1..] == b;
    } else {
      assert (a + b)[1..] == a[1..] + b;
      JoinConcat(a[1..], b);
    }
  }

  lemma JoinIsNotEmpty(segs: seq<string>)
    requires Segments(segs) && segs != []
    ensures |Join(segs, '/')| >= 1 && Join(segs, '/') != "." && Join(segs, '/')[0] != '/'
  {
    SplitOfSegments(segs);
    assert segs[0] in segs;
    assert Split("", '/') == [""];
    assert Split(".", '/') == ["."];
    FirstOfJoin(segs);
  }

  lemma FirstOfJoin(segs: seq<string>)
    requires Segments(segs) && segs != []
    ensures segs[0] != "" && Join(segs, '/') != ""
    ensures Join(segs, '/')[0] == segs[0][0] && segs[0][0] != '/'
  {
    assert segs[0] in segs;
    assert segs[0][0] in segs[0];
  }

  /** The joined text without the leading slash or the dot that stands for no segments. */
  lemma TextIsInjective(rooted: bool, a: seq<string>, b: seq<string>)
    requires Segments(a) && Segments(b) && Text(rooted, a) == Text(rooted, b)
    ensures a == b
  {
    assert rooted ==> Rooted(a)[1..] == Join(a, '/') && Rooted(b)[1..] == Join(b, '/');
    if a != [] {
      JoinIsNotEmpty(a);
      SplitOfSegments(a);
    }
    if b != [] {
      JoinIsNotEmpty(b);
      SplitOfSegments(b);
    }
  }

  /** A joined text goes on with a slash behind the text of `r` exactly when the segments go on behind `r`. */
  lemma JoinPrefix(r: seq<string>, a: seq<string>)
    requires Segments(r) && Segments(a) && r != []
    ensures Join(r, '/') + "/" <= Join(a, '/') <==> r < a
  {
    hide Split, Join;
    var dir, text := Join(r, '/'), Join(a, '/');
    SplitOfSegments(r);
    if r < a {
      assert a == r + a[|r|..];
      JoinConcat(r, a[|r|..]);
      assert text == dir + "/" + Join(a[|r|..], '/');
    }
    if dir + "/" <= text {
      var rest := text[|dir| + 1..];
      assert text == dir + ['/'] + rest;
      SplitConcat(dir, '/', rest);
      if a == [] {
        JoinOfNone(a);
      } else {
        SplitOfSegments(a);
        assert a == r + Split(rest, '/');
      }
    }
  }

  lemma JoinOfNone(a: seq<string>)
    requires a == []
    ensures Join(a, '/') == ""
  {
  }

  /** The string prefix test, with its trailing slash, is the proper prefix test on segments. */
  lemma PrefixTestIsSegmentTest(rooted: bool, r: seq<string>, a: seq<string>)
    requires Segments(r) && Segments(a) && r != []
    ensures Text(rooted, r) + "/" <= Text(rooted, a) <==> r < a
  {
    hide Join;
    JoinPrefix(r, a);
    JoinIsNotEmpty(r);
    JoinOfNone([]);
    var dir, text := Join(r, '/'), Join(a, '/');
    if rooted {
      assert Rooted(r) + "/" == "/" + (dir + "/");
      assert ("/" + (dir + "/"))[1..] == dir + "/" && ("/" + text)[1..] == text;
      SamePrefix("/", dir + "/", text);
    }
  }

  lemma SamePrefix(head: string, a: string, b: string)
    ensures head + a <= head + b <==> a <= b
  {
    assert (head + a)[|head|..] == a && (head + b)[|head|..] == b;
    if head + a <= head + b {
      assert forall i | 0 <= i < |a| :: a[i] == (head + a)[|head| + i] && b[i] == (head + b)[|head| + i];
    }
  }

  lemma LengthOfExtension(rooted: bool, r: seq<string>, a: seq<string>)
    requires Segments(r) && Segments(a) && r < a && (rooted || r != [])
    ensures |Text(rooted, r)| < |Text(rooted, a)|
  {
    if r == [] {
      JoinIsNotEmpty(a);
    } else {
      PrefixTestIsSegmentTest(rooted, r, a);
    }
  }

  // ---- Cleaning a joined path ----

  lemma {:induction false} PushAllConcat(rooted: bool, kept: seq<string>, a: seq<string>, b: seq<string>)
    ensures PushAll(rooted, kept, a + b) == PushAll(rooted, PushAll(rooted, kept, a), b)
    decreases |a|
  {
    if a == [] {
      assert a + b == b;
    } else {
      assert (a + b)[1..] == a[1..] + b;
      PushAllConcat(rooted, Push(rooted, kept, a[0]), a[1..], b);
    }
  }

  lemma {:induction false} PushNames(rooted: bool, kept: seq<string>, segs: seq<string>)
    requires Names(segs)
    ensures PushAll(rooted, kept, segs) == kept + segs
    decreases |segs|
  {
    if segs != [] {
      assert segs[0] in segs;
      PushNames(rooted, kept + [segs[0]], segs[1..]);
    }
  }

  /** Cleaning what is clean already changes nothing. */
  lemma {:induction false} PushNormal(rooted: bool, kept: seq<string>, segs: seq<string>)
    requires Normal(rooted, kept + segs)
    ensures PushAll(rooted, kept, segs) == kept + segs
    decreases |segs|
  {
    if segs != [] {
      assert (kept + segs)[|kept|] == segs[0];
      assert segs[0] in kept + segs;
      assert kept != [] ==> (kept + segs)[|kept| - 1] == kept[|kept| - 1];
      assert kept + [segs[0]] + segs[1..] == kept + segs;
      PushNormal(rooted, kept + [segs[0]], segs[1..]);
    } else {
      assert kept + segs == kept;
    }
  }

  lemma PushOneKeepsNormal(rooted: bool, kept: seq<string>, seg: string)
    requires Normal(rooted, kept) && '/' !in seg
    ensures Normal(rooted, Push(rooted, kept, seg))
  {
  }

  lemma {:induction false} PushKeepsNormal(rooted: bool, kept: seq<string>, segs: seq<string>)
    requires Normal(rooted, kept) && forall s | s in segs :: '/' !in s
    ensures Normal(rooted, PushAll(rooted, kept, segs))
    decreases |segs|
  {
    hide Normal, Push;
    if segs != [] {
      PushOneKeepsNormal(rooted, kept, segs[0]);
      PushKeepsNormal(rooted, Push(rooted, kept, segs[0]), segs[1..]);
    }
  }

  /** Where a path leads when it is followed from a directory. */
  function Follow(rooted: bool, root: seq<string>, path: string): seq<string>
  {
    PushAll(rooted, root, Split(path, '/'))
  }

  // ---- What a path means, segment by segment ----

  /** Following one path and then another is following both with a slash between. */
  lemma FollowBoth(rooted: bool, r: seq<string>, p: string, q: string)
    ensures Follow(rooted, r, p + "/" + q) == Follow(rooted, Follow(rooted, r, p), q)
  {
    hide Push, Split;
    assert p + "/" + q == p + ['/'] + q;
    SplitConcat(p, '/', q);
    PushAllConcat(rooted, r, Split(p, '/'), Split(q, '/'));
  }

  /** An empty segment and a dot stay, a name goes down, and two dots leave a directory, stay at the top of an absolute
      path and climb in a relative one. With `FollowBoth` this is all there is to a path. */
  lemma FollowOne(rooted: bool, r: seq<string>, n: string)
    ensures Follow(rooted, r, "") == r && Follow(rooted, r, ".") == r
    ensures Name(n) ==> Follow(rooted, r, n) == r + [n]
    ensures r != [] && r[|r| - 1] != ".." ==> Follow(rooted, r, "..") == r[..|r| - 1]
    ensures r == [] || r[|r| - 1] == ".." ==> Follow(rooted, r, "..") == if rooted then r else r + [".."]
  {
    hide Split;
    SplitNone("", '/');
    SplitNone(".", '/');
    SplitNone("..", '/');
    if Name(n) { SplitNone(n, '/'); }
    OnePush(rooted, r, "");
    OnePush(rooted, r, ".");
    OnePush(rooted, r, "..");
    OnePush(rooted, r, n);
  }

  lemma OnePush(rooted: bool, r: seq<string>, seg: string)
    ensures PushAll(rooted, r, [seg]) == Push(rooted, r, seg)
  {
  }

  /** Going into a directory and out again changes nothing, whatever comes before. */
  lemma FollowBack(rooted: bool, r: seq<string>, p: string, n: string)
    requires Name(n)
    ensures Follow(rooted, r, p + "/" + n + "/..") == Follow(rooted, r, p)
    ensures Follow(rooted, r, p + "/.") == Follow(rooted, r, p + "/") == Follow(rooted, r, p)
  {
    hide Follow;
    var a := Follow(rooted, r, p);
    FollowBoth(rooted, r, p, n);
    FollowBoth(rooted, r, p + "/" + n, "..");
    assert p + "/" + n + "/.." == (p + "/" + n) + "/" + "..";
    FollowOne(rooted, a, n);
    FollowOne(rooted, a + [n], n);
    FollowBoth(rooted, r, p, ".");
    FollowBoth(rooted, r, p, "");
    assert p + "/." == p + "/" + "." && p + "/" == p + "/" + "";
  }

  lemma CleanRooted(r: seq<string>)
    requires Normal(true, r)
    ensures PushAll(true, [], Split(Rooted(r), '/')) == r
  {
    hide Normal;
    assert Rooted(r) == [] + ['/'] + Join(r, '/');
    SplitConcat([], '/', Join(r, '/'));
    SplitNone("", '/');
    assert [] + r == r;
    if r == [] {
      assert Split(Rooted(r), '/') == ["", ""];
      assert PushAll(true, [], ["", ""]) == PushAll(true, [], [""]);
    } else {
      NormalSegments(true, r);
      SplitOfSegments(r);
      PushAllConcat(true, [], [""], r);
      PushNormal(true, [], r);
    }
  }

  lemma CleanRelative(r: seq<string>)
    requires Normal(false, r)
    ensures PushAll(false, [], Split(Relative(r), '/')) == r
  {
    hide Normal;
    assert [] + r == r;
    if r == [] {
      SplitNone(".", '/');
    } else {
      NormalSegments(false, r);
      SplitOfSegments(r);
      PushNormal(false, [], r);
    }
  }

  lemma NormalSegments(rooted: bool, r: seq<string>)
    requires Normal(rooted, r)
    ensures Segments(r)
  {
  }

  /** Splitting a clean path and cleaning the parts gives its segments. */
  lemma CleanSegs(root: string)
    requires IsClean(root)
    ensures PushAll(IsRooted(root), [], Split(root, '/')) == SegsOf(root)
    ensures Clean(root) == root
  {
    hide Normal, Split, SegsOf;
    if IsRooted(root) { CleanRooted(SegsOf(root)); } else { CleanRelative(SegsOf(root)); }
  }

  /** Cleaning is done when there is nothing left to clean: its result is clean, and the clean paths are those that it
      leaves as they are. */
  lemma CleanIffFixed(path: string)
    ensures IsClean(Clean(path)) && Clean(Clean(path)) == Clean(path)
    ensures path != "" ==> (IsClean(path) <==> Clean(path) == path)
  {
    var rooted := IsRooted(path);
    if path != "" {
      var segs := PushAll(rooted, [], Split(path, '/'));
      SplitPartsHoldNone(path, '/');
      PushKeepsNormal(rooted, [], Split(path, '/'));
      SegsOfText(rooted, segs);
      CleanSegs(Clean(path));
      if IsClean(path) { CleanSegs(path); }
    } else {
      SegsOfText(false, []);
      CleanSegs(".");
    }
  }

  /** The segments of a clean path are those it is the text of. */
  lemma SegsOfText(rooted: bool, segs: seq<string>)
    requires Normal(rooted, segs)
    ensures var path := Text(rooted, segs);
            path != "" && IsRooted(path) == rooted && SegsOf(path) == segs && IsClean(path)
  {
    hide Split;
    NormalSegments(rooted, segs);
    if segs != [] {
      JoinIsNotEmpty(segs);
      SplitOfSegments(segs);
      SlashIsEmptyRoot(segs);
      assert Rooted(segs)[1..] == Join(segs, '/');
    }
  }

  /** Names below the top are such a path, with just these segments. */
  lemma NamesAreRoot(names: seq<string>)
    requires Names(names)
    ensures IsRoot("/" + Join(names, '/')) && SegsOf("/" + Join(names, '/')) == names
    ensures names != [] ==> IsRoot(Join(names, '/')) && SegsOf(Join(names, '/')) == names
  {
    assert forall i | 0 <= i < |names| :: names[i] in names;
    SegsOfText(true, names);
    if names != [] {
      assert names[|names| - 1] in names;
      SegsOfText(false, names);
    }
  }

  /** A joined and cleaned path is the path followed from the root. */
  lemma JoinIsFollow(root: string, path: string)
    requires IsClean(root)
    ensures JoinPath(root, path) == Text(IsRooted(root), Follow(IsRooted(root), SegsOf(root), path))
    ensures Normal(IsRooted(root), Follow(IsRooted(root), SegsOf(root), path))
  {
    hide Normal, Split;
    var rooted, r := IsRooted(root), SegsOf(root);
    SplitPartsHoldNone(path, '/');
    PushKeepsNormal(rooted, r, Split(path, '/'));
    CleanSegs(root);
    if path == "" {
      SplitNone(path, '/');
      assert PushAll(rooted, r, [""]) == r;
    } else {
      var s := root + "/" + path;
      SplitConcat(root, '/', path);
      assert s == root + ['/'] + path;
      PushAllConcat(rooted, [], Split(root, '/'), Split(path, '/'));
    }
  }

  lemma DotIsNoDirectory(a: seq<string>)
    requires Segments(a)
    ensures !("." + "/" <= Relative(a)) && (Relative(a) == "." <==> a == [])
    ensures |Relative(a)| >= 1
  {
    if a != [] {
      JoinIsNotEmpty(a);
      FirstOfJoin(a);
      assert a[0] in a;
      if "./" <= Relative(a) {
        var rest := Relative(a)[2..];
        assert Relative(a) == "." + ['/'] + rest;
        SplitHead(".", '/', rest);
        SplitOfSegments(a);
      }
    }
  }

  /** Main result on containment: for a clean root, absolute or relative, a path is accepted exactly when, segment by
      segment, it leads to the root or below. The one exception is the root ".", which accepts nothing but itself. */
  lemma AcceptedMeansBelowRoot(root: string, path: string)
    requires IsClean(root)
    ensures var r, a := SegsOf(root), Follow(IsRooted(root), SegsOf(root), path);
            AbsPathNoEscape(root, path) ==
              if (if root == "." then a == [] else r <= a) then Some(Text(IsRooted(root), a)) else None
  {
    hide Follow;
    var rooted, r, a := IsRooted(root), SegsOf(root), Follow(IsRooted(root), SegsOf(root), path);
    JoinIsFollow(root, path);
    if root == "." {
      DotIsNoDirectory(a);
    } else if r == a {
    } else if r < a {
      LengthOfExtension(rooted, r, a);
      if r != [] {
        PrefixTestIsSegmentTest(rooted, r, a);
        SlashIsEmptyRoot(r);
      }
    } else {
      if root == Text(rooted, a) {
        TextIsInjective(rooted, r, a);
      }
      PrefixTestIsSegmentTest(rooted, r, a);
      SlashIsEmptyRoot(r);
    }
  }

  lemma SlashIsEmptyRoot(r: seq<string>)
    requires Segments(r) && r != []
    ensures Rooted(r) != "/" && Relative(r) != "/"
  {
    JoinIsNotEmpty(r);
  }

  /** Below a root that is absolute or ends in a name, a clean path has no parent steps. */
  lemma {:induction false} NoStepsUp(rooted: bool, r: seq<string>, a: seq<string>, i: nat)
    requires Normal(rooted, a) && r <= a && |r| <= i < |a|
    requires rooted || (r != [] && r[|r| - 1] != "..")
    ensures Name(a[i])
  {
    assert a[i] in a;
    if i > |r| {
      NoStepsUp(rooted, r, a, i - 1);
    }
  }

  /** What every accepted path of a root must be like to lie inside it. */
  ghost predicate Contains(root: string)
    requires root != ""
  {
    forall path | AbsPathNoEscape(root, path).Some? ::
      var r, a := SegsOf(root), Follow(IsRooted(root), SegsOf(root), path);
      r <= a && Names(a[|r|..])
  }

  /** Apart from ".", acceptance contains exactly for the roots that are absolute or end in a name: from a root made of
      parent steps alone, one more parent step is accepted too. */
  lemma ContainsIffRoot(root: string)
    requires IsClean(root) && root != "."
    ensures Contains(root) <==> IsRoot(root)
  {
    hide Follow, AbsPathNoEscape;
    var rooted, r := IsRooted(root), SegsOf(root);
    if IsRoot(root) {
      forall path | AbsPathNoEscape(root, path).Some?
        ensures r <= Follow(rooted, r, path) && Names(Follow(rooted, r, path)[|r|..])
      {
        AcceptedMeansBelowRoot(root, path);
        JoinIsFollow(root, path);
        BelowAreNames(rooted, r, Follow(rooted, r, path));
      }
    } else {
      AcceptedMeansBelowRoot(root, "..");
      OneMoreStepUp(r);
      assert !Names([".."]) by { assert ".." in [".."]; }
    }
  }

  lemma BelowAreNames(rooted: bool, r: seq<string>, a: seq<string>)
    requires Normal(rooted, a) && r <= a
    requires rooted || (r != [] && r[|r| - 1] != "..")
    ensures Names(a[|r|..])
  {
    forall s | s in a[|r|..] ensures Name(s) {
      var i :| 0 <= i < |a[|r|..]| && a[|r|..][i] == s;
      NoStepsUp(rooted, r, a, |r| + i);
    }
  }

  lemma OneMoreStepUp(r: seq<string>)
    requires r == [] || r[|r| - 1] == ".."
    ensures Follow(false, r, "..") == r + [".."] && (r + [".."])[|r|..] == [".."]
  {
    assert Split("..", '/') == [".."];
    assert PushAll(false, r, [".."]) == Push(false, r, "..");
  }

  // ---- The path relative to the root ----

  function CommonPrefix(a: seq<string>, b: seq<string>): nat
  {
    if a == [] || b == [] || a[0] != b[0] then 0 else 1 + CommonPrefix(a[1..], b[1..])
  }

  function Ups(n: nat): seq<string>
  {
    if n == 0 then [] else [".."] + Ups(n - 1)
  }

  /** `filepath.Rel` between clean paths of one kind: up to the common directory, then down. */
  function RelPath(base: seq<string>, target: seq<string>): string
  {
    var common := CommonPrefix(base, target);
    CommonPrefixFits(base, target);
    Relative(Ups(|base| - common) + target[common..])
  }

  lemma {:induction false} CommonPrefixFits(a: seq<string>, b: seq<string>)
    ensures CommonPrefix(a, b) <= |a| && CommonPrefix(a, b) <= |b|
    ensures a <= b ==> CommonPrefix(a, b) == |a|
  {
    if a != [] && b != [] && a[0] == b[0] {
      CommonPrefixFits(a[1..], b[1..]);
    }
  }

  /** A clean relative path that never leaves its base. */
  predicate IsInside(path: string)
  {
    path == "." || Names(Split(path, '/'))
  }

  function InsideSegs(path: string): seq<string>
  {
    if path == "." then [] else Split(path, '/')
  }

  lemma InsideOfNames(segs: seq<string>)
    requires Names(segs)
    ensures IsInside(Relative(segs)) && InsideSegs(Relative(segs)) == segs
  {
    if segs != [] {
      SplitOfSegments(segs);
      JoinIsNotEmpty(segs);
    }
  }

  lemma InsideIsRelative(path: string)
    requires IsInside(path)
    ensures Names(InsideSegs(path)) && path == Relative(InsideSegs(path))
  {
    JoinOfSplit(path, '/');
  }

  lemma DownFollows(rooted: bool, r: seq<string>, down: seq<string>)
    requires Names(down)
    ensures Follow(rooted, r, Relative(down)) == r + down
  {
    if down == [] {
      assert Split(".", '/') == ["."];
      assert PushAll(rooted, r, ["."]) == r;
      assert r + down == r;
    } else {
      SplitOfSegments(down);
      PushNames(rooted, r, down);
    }
  }

  lemma DownFromRoot(r: seq<string>, a: seq<string>)
    requires r <= a
    ensures RelPath(r, a) == Relative(a[|r|..]) && r + a[|r|..] == a
  {
    hide Relative;
    CommonPrefixFits(r, a);
    assert Ups(0) + a[|r|..] == a[|r|..];
  }

  /** The relative path of an accepted one climbs nowhere, and joining it back gives the accepted path. */
  lemma RelativePathRoundTrip(root: string, path: string)
    requires IsRoot(root) && AbsPathNoEscape(root, path).Some?
    ensures var r, a := SegsOf(root), Follow(IsRooted(root), SegsOf(root), path);
            && r <= a && IsInside(RelPath(r, a)) && InsideSegs(RelPath(r, a)) == a[|r|..]
            && JoinPath(root, RelPath(r, a)) == AbsPathNoEscape(root, path).value
  {
    hide Follow, Relative, AbsPathNoEscape, JoinPath, RelPath, IsInside, InsideSegs, Normal, Text;
    var rooted, r, a := IsRooted(root), SegsOf(root), Follow(IsRooted(root), SegsOf(root), path);
    AcceptedMeansBelowRoot(root, path);
    JoinIsFollow(root, path);
    DotIsNoRoot();
    BelowAreNames(rooted, r, a);
    DownFromRoot(r, a);
    InsideOfNames(a[|r|..]);
    JoinIsFollow(root, Relative(a[|r|..]));
    DownFollows(rooted, r, a[|r|..]);
  }

  lemma {:induction false} PushUps(rooted: bool, r: seq<string>, n: nat)
    requires Names(r) && n <= |r|
    ensures PushAll(rooted, r, Ups(n)) == r[..|r| - n]
  {
    if n > 0 {
      assert r[|r| - 1] in r;
      var up := r[..|r| - 1];
      assert Names(up) && up[..|up| - (n - 1)] == r[..|r| - n];
      PushUps(rooted, up, n - 1);
      assert Ups(n)[0] == ".." && Ups(n)[1..] == Ups(n - 1);
    }
  }

  lemma {:induction false} CommonIsCommon(a: seq<string>, b: seq<string>)
    ensures var n := CommonPrefix(a, b); n <= |a| && n <= |b| && a[..n] == b[..n]
  {
    CommonPrefixFits(a, b);
    if a != [] && b != [] && a[0] == b[0] {
      CommonIsCommon(a[1..], b[1..]);
      var n := CommonPrefix(a[1..], b[1..]);
      assert a[..n + 1] == [a[0]] + a[1..][..n] && b[..n + 1] == [b[0]] + b[1..][..n];
    }
  }

  lemma {:induction false} UpsAreSegments(n: nat, down: seq<string>)
    requires Segments(down)
    ensures Segments(Ups(n) + down)
  {
    if n > 0 {
      UpsAreSegments(n - 1, down);
      assert Ups(n) + down == [".."] + (Ups(n - 1) + down);
    } else {
      assert Ups(0) + down == down;
    }
  }

  /** The relative path leads from a base of names to any clean path of its kind, inside the base or not. */
  lemma RelativePathLeadsThere(root: string, a: seq<string>)
    requires IsClean(root) && Names(SegsOf(root)) && Normal(IsRooted(root), a)
    ensures JoinPath(root, RelPath(SegsOf(root), a)) == Text(IsRooted(root), a)
  {
    hide Relative, Normal, JoinPath, Split, SegsOf, IsRooted, Text, Push;
    var rooted, r := IsRooted(root), SegsOf(root);
    CommonIsCommon(r, a);
    var n := CommonPrefix(r, a);
    var ups, down := Ups(|r| - n), a[n..];
    JoinIsFollow(root, RelPath(r, a));
    NormalSegments(rooted, a);
    UpsAreSegments(|r| - n, down);
    FollowSegments(rooted, r, ups + down);
    PushAllConcat(rooted, r, ups, down);
    PushUps(rooted, r, |r| - n);
    assert a[..n] + down == a;
    PushNormal(rooted, a[..n], down);
  }

  lemma FollowSegments(rooted: bool, r: seq<string>, segs: seq<string>)
    requires Segments(segs)
    ensures Follow(rooted, r, Relative(segs)) == PushAll(rooted, r, segs)
  {
    if segs == [] {
      FollowOne(rooted, r, "");
    } else {
      SplitOfSegments(segs);
    }
  }

  lemma DotIsNoRoot()
    ensures !IsRoot(".")
  {
  }

  /** A parent step out of the root is refused, and so is one that does not come back to the root by its own name. */
  lemma EscapeIsRefused(root: string, n: string)
    requires IsRoot(root) && root != "/" && Name(n)
    ensures AbsPathNoEscape(root, "..") == None
    ensures SegsOf(root) != []
    ensures AbsPathNoEscape(root, "../" + n).Some? <==> n == SegsOf(root)[|SegsOf(root)| - 1]
  {
    hide Follow, AbsPathNoEscape;
    var rooted, r := IsRooted(root), SegsOf(root);
    DotIsNoRoot();
    AcceptedMeansBelowRoot(root, "..");
    AcceptedMeansBelowRoot(root, "../" + n);
    RootEndsInName(root);
    FollowOne(rooted, r, n);
    FollowBoth(rooted, r, "..", n);
    assert ".." + "/" + n == "../" + n;
    var up := r[..|r| - 1];
    FollowOne(rooted, up, n);
    assert !(r <= up);
    assert r == up + [r[|r| - 1]];
    if r <= up + [n] {
      assert (up + [n])[|r| - 1] == r[|r| - 1];
    }
  }

  lemma RootEndsInName(root: string)
    requires IsRoot(root) && root != "/"
    ensures SegsOf(root) != [] && SegsOf(root)[|SegsOf(root)| - 1] != ".."
  {
    if IsRooted(root) && SegsOf(root) != [] {
      assert SegsOf(root)[|SegsOf(root)| - 1] in SegsOf(root);
    }
  }

  // ---- Parents ----

  /** Position just behind the last slash, or 0. */
  function BaseStart(path: string): (i: nat)
    ensures i <= |path|
    ensures '/' !in path[i..]
    ensures i > 0 ==> path[i - 1] == '/'
  {
    if path == "" then 0
    else if path[|path| - 1] == '/' then |path|
    else
      var i := BaseStart(path[..|path| - 1]);
      assert path[i..] == path[..|path| - 1][i..] + [path[|path| - 1]];
      i
  }

  /** `filepath.Dir`. */
  function Parent(path: string): string
  {
    Clean(path[..BaseStart(path)])
  }

  lemma {:induction false} BaseStartOf(dir: string, name: string)
    requires '/' !in name
    ensures BaseStart(dir + "/" + name) == |dir| + 1
    decreases |name|
  {
    var p := dir + "/" + name;
    if name != "" {
      assert p[..|p| - 1] == dir + "/" + name[..|name| - 1];
      BaseStartOf(dir, name[..|name| - 1]);
    }
  }

  /** The parent of a path inside the base is the path without its last segment. */
  lemma ParentOfInside(segs: seq<string>)
    requires Names(segs) && segs != []
    ensures Parent(Relative(segs)) == Relative(segs[..|segs| - 1])
  {
    var last := segs[|segs| - 1];
    assert last in segs;
    if |segs| == 1 {
      assert Relative(segs) == last;
      assert BaseStart(last) == 0;
    } else {
      var up := segs[..|segs| - 1];
      assert segs == up + [last];
      JoinConcat(up, [last]);
      var dir := Join(up, '/');
      BaseStartOf(dir, last);
      assert Relative(segs)[..|dir| + 1] == dir + ['/'] + [];
      CleanOfDir(up);
    }
  }

  lemma CleanOfDir(segs: seq<string>)
    requires Names(segs) && segs != []
    ensures Clean(Join(segs, '/') + "/") == Relative(segs)
  {
    var dir := Join(segs, '/');
    assert dir + "/" == dir + ['/'] + [];
    SplitConcat(dir, '/', []);
    SplitOfSegments(segs);
    JoinIsNotEmpty(segs);
    assert Split("", '/') == [""];
    PushAllConcat(false, [], segs, [""]);
    PushNames(false, [], segs);
    assert [] + segs == segs;
    assert segs[0] in segs;
    FirstOfJoin(segs);
  }
}
