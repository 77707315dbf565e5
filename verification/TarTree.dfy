/** The directory tree that unpacking builds: directories made on the way, and files written without truncation. Paths
    are relative to the destination, which is `.` itself. */
module TarTree {
  import opened TextLines
  import opened Paths
  import opened TarLimiter

  datatype Tree = Tree(dirs: set<string>, files: map<string, string>)

  datatype Entry = DirEntry(path: string) | FileEntry(path: string, data: string)

  /** The destination, the path and all directories between them. */
  function Above(path: string): set<string>
  {
    {"."} + Prefixes(path)
  }

  /** The directories an entry needs: for a file, those above it. */
  function Needs(e: Entry): set<string>
  {
    if e.DirEntry? then Above(e.path) else Above(e.path) - {e.path}
  }

  /** Writing from the start of a file that is opened without truncation keeps what was longer. */
  function Overlay(before: string, data: string): (after: string)
    ensures data <= after && |after| == if |before| > |data| then |before| else |data|
    ensures forall k | |data| <= k < |after| :: after[k] == before[k]
  {
    data + if |before| > |data| then before[|data|..] else ""
  }

  /** `os.MkdirAll` meets no file on its way, and a file is not opened where a directory is. */
  predicate Placeable(t: Tree, e: Entry)
  {
    Needs(e) !! t.files.Keys && (e.FileEntry? ==> e.path !in t.dirs)
  }

  function Place(t: Tree, e: Entry): Tree
  {
    Tree(t.dirs + Needs(e),
         if e.DirEntry? then t.files
         else t.files[e.path := Overlay(if e.path in t.files then t.files[e.path] else "", e.data)])
  }

  function PlaceAll(t: Tree, es: seq<Entry>): Tree
  {
    if es == [] then t else Place(PlaceAll(t, es[..|es| - 1]), es[|es| - 1])
  }

  function AllNeeds(es: seq<Entry>): set<string>
  {
    if es == [] then {} else AllNeeds(es[..|es| - 1]) + Needs(es[|es| - 1])
  }

  function FilePaths(es: seq<Entry>): set<string>
  {
    set e | e in es && e.FileEntry? :: e.path
  }

  /** No path is a file and also a directory, whether it is there from the start or asked for by an entry: no file
      stands above another entry, and none has the path of a directory. */
  predicate Compatible(start: Tree, es: seq<Entry>)
  {
    (start.dirs + AllNeeds(es)) !! (start.files.Keys + FilePaths(es))
  }

  lemma {:induction false} NeededBySome(es: seq<Entry>, path: string)
    ensures path in AllNeeds(es) <==> exists e :: e in es && path in Needs(e)
  {
    hide Needs;
    if es != [] {
      NeededBySome(es[..|es| - 1], path);
      assert es == es[..|es| - 1] + [es[|es| - 1]];
    }
  }

  predicate Apart(e: Entry, f: Entry)
  {
    e.FileEntry? ==> e.path !in Needs(f)
  }

  /** The same, entry by entry: no file of the tarball is above another entry or at the path of a directory, and none
      collides with what was there. */
  lemma CompatiblePairwise(start: Tree, es: seq<Entry>)
    ensures Compatible(start, es) <==>
              && start.dirs !! start.files.Keys
              && (forall e | e in es :: Placeable(start, e))
              && (forall e, f | e in es && f in es :: Apart(e, f))
  {
    hide Needs, AllNeeds;
    forall path ensures path in AllNeeds(es) <==> exists e :: e in es && path in Needs(e) {
      NeededBySome(es, path);
    }
    if Compatible(start, es) {
      forall e | e in es ensures Placeable(start, e) {
        assert e.FileEntry? ==> e.path in FilePaths(es);
        assert Needs(e) <= AllNeeds(es);
      }
      forall e, f | e in es && f in es ensures Apart(e, f) {
        assert e.FileEntry? ==> e.path in FilePaths(es);
      }
    }
    if start.dirs !! start.files.Keys && (forall e | e in es :: Placeable(start, e))
       && (forall e, f | e in es && f in es :: Apart(e, f)) {
      forall path | path in start.dirs + AllNeeds(es) ensures path !in start.files.Keys + FilePaths(es) {
        if path in AllNeeds(es) {
          var f :| f in es && path in Needs(f);
          assert Placeable(start, f);
          forall e | e in es && e.FileEntry? ensures e.path != path { assert Apart(e, f); }
        } else {
          forall e | e in es && e.FileEntry? ensures e.path != path { assert Placeable(start, e); }
        }
      }
    }
  }

  lemma OneMoreEntry(es: seq<Entry>, e: Entry)
    ensures AllNeeds(es + [e]) == AllNeeds(es) + Needs(e)
    ensures FilePaths(es + [e]) == FilePaths(es) + if e.FileEntry? then {e.path} else {}
  {
    hide Needs;
    assert (es + [e])[..|es|] == es;
    forall x ensures x in es + [e] <==> x in es || x == e {}
  }

  lemma {:induction false} PlacedTree(start: Tree, es: seq<Entry>)
    ensures PlaceAll(start, es).dirs == start.dirs + AllNeeds(es)
    ensures PlaceAll(start, es).files.Keys == start.files.Keys + FilePaths(es)
  {
    hide Needs, Overlay, FilePaths;
    if es == [] {
      NoFilePaths(es);
    } else {
      var front, last := es[..|es| - 1], es[|es| - 1];
      PlacedTree(start, front);
      assert front + [last] == es;
      OneMoreEntry(front, last);
    }
  }

  lemma NoFilePaths(es: seq<Entry>)
    requires es == []
    ensures FilePaths(es) == {}
  {
  }

  /** Entry by entry, what can be placed is exactly what is compatible with all that came before. */
  lemma {:induction false} NextIsPlaceable(start: Tree, es: seq<Entry>, e: Entry)
    requires Compatible(start, es)
    ensures Compatible(start, es + [e]) <==> Placeable(PlaceAll(start, es), e)
  {
    hide PlaceAll, AllNeeds, FilePaths, Above;
    PlacedTree(start, es);
    OneMoreEntry(es, e);
  }

  lemma {:induction false} CompatibleFromTheStart(start: Tree, es: seq<Entry>, more: seq<Entry>)
    requires Compatible(start, es + more)
    ensures Compatible(start, es)
    decreases |more|
  {
    hide AllNeeds, FilePaths, Needs;
    if more == [] {
      assert es + more == es;
    } else {
      var front, last := more[..|more| - 1], more[|more| - 1];
      assert es + more == es + front + [last];
      OneMoreEntry(es + front, last);
      CompatibleFromTheStart(start, es, front);
    }
  }

  /** What a file holds in the end: the entries of its path, each laid over what was there. */
  function Content(before: string, es: seq<Entry>, path: string): string
  {
    if es == [] then before
    else
      var last, rest := es[|es| - 1], Content(before, es[..|es| - 1], path);
      if last.FileEntry? && last.path == path then Overlay(rest, last.data) else rest
  }

  lemma OneMoreLaid(before: string, es: seq<Entry>, e: Entry, path: string)
    ensures Content(before, es + [e], path)
         == if e.FileEntry? && e.path == path then Overlay(Content(before, es, path), e.data)
            else Content(before, es, path)
  {
    var all := es + [e];
    assert all[..|all| - 1] == es && all[|all| - 1] == e;
    hide Overlay;
  }

  lemma {:induction false} FileHolds(start: Tree, es: seq<Entry>, path: string)
    requires path in PlaceAll(start, es).files
    ensures PlaceAll(start, es).files[path] == Content(if path in start.files then start.files[path] else "", es, path)
  {
    hide Needs, Overlay, FilePaths;
    if es != [] {
      var front, last := es[..|es| - 1], es[|es| - 1];
      if path in PlaceAll(start, front).files {
        FileHolds(start, front, path);
      } else {
        NotThereYet(start, front, path);
      }
    }
  }

  lemma {:induction false} NotThereYet(start: Tree, es: seq<Entry>, path: string)
    requires path !in PlaceAll(start, es).files
    ensures path !in start.files && Content("", es, path) == ""
  {
    hide Needs, Overlay;
    if es != [] {
      NotThereYet(start, es[..|es| - 1], path);
    }
  }

  /** A new file that one entry names holds exactly that entry's bytes. */
  lemma {:induction false} SingleFileHoldsItsBytes(es: seq<Entry>, path: string, i: nat)
    requires i < |es| && es[i].FileEntry? && es[i].path == path
    requires forall j | 0 <= j < |es| && j != i :: !(es[j].FileEntry? && es[j].path == path)
    ensures Content("", es, path) == es[i].data
  {
    var n := |es| - 1;
    if i == n {
      NeverNamed(es[..n], path);
    } else {
      assert es[..n][i] == es[i];
      SingleFileHoldsItsBytes(es[..n], path, i);
    }
  }

  lemma {:induction false} NeverNamed(es: seq<Entry>, path: string)
    requires forall e | e in es :: !(e.FileEntry? && e.path == path)
    ensures Content("", es, path) == ""
  {
    if es != [] {
      NeverNamed(es[..|es| - 1], path);
    }
  }

  /** The destination and the first `n` prefixes. */
  function AboveSegs(segs: seq<string>, n: nat): set<string>
    requires n <= |segs|
  {
    {"."} + set i | 1 <= i <= n :: Relative(segs[..i])
  }

  lemma AboveOfPrefix(segs: seq<string>, n: nat)
    requires Names(segs) && n <= |segs|
    ensures Above(Relative(segs[..n])) == AboveSegs(segs, n)
  {
    hide Relative;
    if n == 0 {
      RelativeOfNone(segs[..0]);
      assert Prefixes(".") == {"."};
    } else {
      PrefixesOfPrefix(segs, n);
    }
  }

  lemma LastOfAbove(segs: seq<string>)
    requires Names(segs) && segs != []
    ensures AboveSegs(segs, |segs|) == AboveSegs(segs, |segs| - 1) + {Relative(segs)}
    ensures Relative(segs) !in AboveSegs(segs, |segs| - 1)
  {
    hide Relative;
    assert segs[..|segs|] == segs;
    forall i | 1 <= i < |segs| ensures Relative(segs[..i]) != Relative(segs) {
      PrefixesAreDistinct(segs, i, |segs|);
    }
    DotIsNoPrefix(segs);
  }

  /** The directories above a file are those of its parent path. */
  lemma NeedsOfFile(path: string, data: string)
    requires IsInside(path) && path != "."
    ensures Needs(FileEntry(path, data)) == Above(Parent(path))
  {
    hide Parent, Relative, Above, AboveSegs;
    var segs := InsideSegs(path);
    InsideIsRelative(path);
    ParentOfInside(segs);
    assert segs[..|segs|] == segs;
    AboveOfPrefix(segs, |segs|);
    AboveOfPrefix(segs, |segs| - 1);
    LastOfAbove(segs);
  }

  /** Nothing in the destination is above the destination. */
  lemma NeedsOfDot(data: string)
    ensures Needs(FileEntry(".", data)) == {}
  {
    assert Prefixes(".") == {"."};
  }

  lemma DotIsNoPrefix(segs: seq<string>)
    requires Names(segs)
    ensures forall i | 1 <= i <= |segs| :: Relative(segs[..i]) != "."
  {
    forall i | 1 <= i <= |segs| ensures Relative(segs[..i]) != "." {
      NamesOfPrefix(segs, i);
      RelativeIsNamed(segs[..i]);
    }
  }
}
