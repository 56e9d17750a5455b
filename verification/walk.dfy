/** The producer side of the scanner: a level-synchronous breadth-first walk
    of each root's `src` directory that emits, in discovery order, every
    directory holding at least one Go source file.

    The pure functions below are the reference definition of the walk; the
    methods `ScanEntries`, `ExamineLevel`, `BfsWalkRoot` and `WalkTrees`
    follow the loops of `bfsWalkRoot` and `walk` in the Go code and are
    proved to compute exactly that definition. */
module Walk {
  import opened Tree

  /** A directory waiting in one of the walk's two queues: its full path, the
      entry found at that path, and its depth below the root's `src`
      directory (the depth is not stored by the Go code; it is kept
      here so that the breadth-first order can be stated). */
  datatype Pending = Pending(path: string, node: Entry, depth: nat)

  /** A configured root: its path, and the entry found at `path/src`. A root
      whose `src` is missing or is not a directory is an unreadable entry. */
  datatype Root = Root(path: string, src: Entry)

  /** The first directory examined for a root. */
  function Start(root: Root): Pending {
    Pending(JoinPath(root.path, RootSubdir), root.src, 0)
  }

  /** The queue entry for a subdirectory `e` of `parent`. */
  function Child(parent: Pending, e: Entry): Pending {
    Pending(JoinPath(parent.path, e.name), e, parent.depth + 1)
  }

  predicate HasGoFile(es: seq<Entry>) {
    exists i :: 0 <= i < |es| && IsGoFile(es[i])
  }

  /** A directory is emitted when it could be read and one of its
      non-directory entries has the ".go" suffix. */
  predicate IsCandidate(e: Entry) {
    IsReadableDir(e) && HasGoFile(e.entries)
  }

  /** The subdirectories of `parent` that one pass over `es` appends to the
      next-level queue, in the order of `es`. */
  function Subdirs(parent: Pending, es: seq<Entry>): seq<Pending> {
    if es == [] then []
    else
      var last := es[|es| - 1];
      Subdirs(parent, es[..|es| - 1]) + (if IsSubdir(last) then [Child(parent, last)] else [])
  }

  /** What examining `q` contributes to the next-level queue: nothing when
      it cannot be read. */
  function Children(q: Pending): seq<Pending> {
    if IsReadableDir(q.node) then Subdirs(q, q.node.entries) else []
  }

  /** The directories emitted while examining one level, in queue order. */
  function LevelOutput(qs: seq<Pending>): seq<Pending> {
    if qs == [] then []
    else
      var last := qs[|qs| - 1];
      LevelOutput(qs[..|qs| - 1]) + (if IsCandidate(last.node) then [last] else [])
  }

  /** The queue for the following level, built while examining one level. */
  function LevelNext(qs: seq<Pending>): seq<Pending> {
    if qs == [] then []
    else LevelNext(qs[..|qs| - 1]) + Children(qs[|qs| - 1])
  }

  /** Total number of entries in the trees still to be examined. */
  function SizeQ(qs: seq<Pending>): nat {
    if qs == [] then 0 else SizeQ(qs[..|qs| - 1]) + Size(qs[|qs| - 1].node)
  }

  /** The walk from a queue: emit the current level, then walk the next
      level, until a level is empty. */
  function Levels(qs: seq<Pending>): seq<Pending>
    decreases SizeQ(qs)
  {
    if qs == [] then []
    else
      LevelNextSize(qs);
      LevelOutput(qs) + Levels(LevelNext(qs))
  }

  function Paths(items: seq<Pending>): (r: seq<string>)
    ensures |r| == |items|
    ensures forall i :: 0 <= i < |items| ==> r[i] == items[i].path
  {
    seq(|items|, i requires 0 <= i < |items| => items[i].path)
  }

  /** The directories emitted for one root, with their depths. */
  function WalkRootItems(root: Root): seq<Pending> {
    Levels([Start(root)])
  }

  /** The paths emitted for one root. */
  function WalkRoot(root: Root): seq<string> {
    Paths(WalkRootItems(root))
  }

  /** The paths emitted for a list of roots, one root after the other. */
  function WalkAll(roots: seq<Root>): seq<string> {
    if roots == [] then [] else WalkRoot(roots[0]) + WalkAll(roots[1..])
  }

  /** The whole stream the producer delivers before closing the channel:
      GOROOT first, then each GOPATH root in list order. */
  function Produced(goroot: Root, gopath: seq<Root>): seq<string> {
    WalkAll([goroot] + gopath)
  }

  /** `x` is `from` itself, or lies below it along a chain of readable
      directories none of whose names starts with a dot. */
  ghost predicate Reaches(from: Pending, x: Pending)
    decreases from.node
  {
    x == from
    || (IsReadableDir(from.node)
        && exists e :: e in from.node.entries && IsSubdir(e) && Reaches(Child(from, e), x))
  }

  ghost predicate AllAtDepth(qs: seq<Pending>, d: nat) {
    forall q :: q in qs ==> q.depth == d
  }

  /** Shallower directories come first. */
  ghost predicate DepthOrdered(s: seq<Pending>) {
    forall i, j :: 0 <= i < j < |s| ==> s[i].depth <= s[j].depth
  }

  // ---------------------------------------------------------------------
  // Structural lemmas
  // ---------------------------------------------------------------------

  lemma {:induction false} SizeQAppend(a: seq<Pending>, b: seq<Pending>)
    ensures SizeQ(a + b) == SizeQ(a) + SizeQ(b)
    decreases |b|
  {
    if b != [] {
      assert (a + b)[..|a + b| - 1] == a + b[..|b| - 1];
      SizeQAppend(a, b[..|b| - 1]);
    } else {
      assert a + b == a;
    }
  }

  lemma {:induction false} SubdirsSize(parent: Pending, es: seq<Entry>)
    ensures SizeQ(Subdirs(parent, es)) <= SizeAll(es)
    decreases |es|
  {
    if es != [] {
      var last := es[|es| - 1];
      var tail := if IsSubdir(last) then [Child(parent, last)] else [];
      SubdirsSize(parent, es[..|es| - 1]);
      SizeQAppend(Subdirs(parent, es[..|es| - 1]), tail);
      if IsSubdir(last) {
        assert tail[..0] == [];
      }
    }
  }

  /** Each examined directory takes at least one entry out of the queue's
      trees, so the walk terminates. */
  lemma {:induction false} LevelNextSize(qs: seq<Pending>)
    ensures SizeQ(LevelNext(qs)) + |qs| <= SizeQ(qs)
    decreases |qs|
  {
    if qs != [] {
      var last := qs[|qs| - 1];
      LevelNextSize(qs[..|qs| - 1]);
      SizeQAppend(LevelNext(qs[..|qs| - 1]), Children(last));
      if IsReadableDir(last.node) {
        SubdirsSize(last, last.node.entries);
      }
    }
  }

  lemma PathsAppend(a: seq<Pending>, b: seq<Pending>)
    ensures Paths(a + b) == Paths(a) + Paths(b)
  {
  }

  lemma {:induction false} LevelOutputAppend(a: seq<Pending>, b: seq<Pending>)
    ensures LevelOutput(a + b) == LevelOutput(a) + LevelOutput(b)
    decreases |b|
  {
    if b == [] {
      assert a + b == a;
    } else {
      var init := b[..|b| - 1];
      var last := b[|b| - 1];
      assert (a + b)[..|a + b| - 1] == a + init;
      assert (a + b)[|a + b| - 1] == last;
      LevelOutputAppend(a, init);
      calc {
        LevelOutput(a + b);
        LevelOutput(a + init) + (if IsCandidate(last.node) then [last] else []);
        (LevelOutput(a) + LevelOutput(init)) + (if IsCandidate(last.node) then [last] else []);
        LevelOutput(a) + (LevelOutput(init) + (if IsCandidate(last.node) then [last] else []));
        LevelOutput(a) + LevelOutput(b);
      }
    }
  }

  lemma {:induction false} LevelNextAppend(a: seq<Pending>, b: seq<Pending>)
    ensures LevelNext(a + b) == LevelNext(a) + LevelNext(b)
    decreases |b|
  {
    if b == [] {
      assert a + b == a;
    } else {
      var init := b[..|b| - 1];
      var last := b[|b| - 1];
      assert (a + b)[..|a + b| - 1] == a + init;
      assert (a + b)[|a + b| - 1] == last;
      LevelNextAppend(a, init);
      calc {
        LevelNext(a + b);
        LevelNext(a + init) + Children(last);
        (LevelNext(a) + LevelNext(init)) + Children(last);
        LevelNext(a) + (LevelNext(init) + Children(last));
        LevelNext(a) + LevelNext(b);
      }
    }
  }

  /** A level of one directory emits it iff it is a candidate and enqueues
      its children. */
  lemma LevelOfOne(q: Pending)
    ensures LevelOutput([q]) == (if IsCandidate(q.node) then [q] else [])
    ensures LevelNext([q]) == Children(q)
  {
    assert [q][..0] == [];
  }

  lemma LevelsStep(qs: seq<Pending>)
    requires qs != []
    ensures Levels(qs) == LevelOutput(qs) + Levels(LevelNext(qs))
  {
  }

  /** The next-level queue receives exactly the non-dot subdirectories. */
  lemma {:induction false} SubdirsMembers(parent: Pending, es: seq<Entry>, c: Pending)
    ensures c in Subdirs(parent, es) <==> exists e :: e in es && IsSubdir(e) && c == Child(parent, e)
    decreases |es|
  {
    if es != [] {
      var init := es[..|es| - 1];
      var last := es[|es| - 1];
      SubdirsMembers(parent, init, c);
      assert es == init + [last];
      if exists e :: e in es && IsSubdir(e) && c == Child(parent, e) {
        var e :| e in es && IsSubdir(e) && c == Child(parent, e);
        if e != last {
          assert e in init;
        }
      }
    }
  }

  /** A level emits exactly its candidate directories. */
  lemma {:induction false} LevelOutputMembers(qs: seq<Pending>, x: Pending)
    ensures x in LevelOutput(qs) <==> x in qs && IsCandidate(x.node)
    decreases |qs|
  {
    if qs != [] {
      var init := qs[..|qs| - 1];
      LevelOutputMembers(init, x);
      assert qs == init + [qs[|qs| - 1]];
    }
  }

  /** The next level holds exactly the children of the current level. */
  lemma {:induction false} LevelNextMembers(qs: seq<Pending>, c: Pending)
    ensures c in LevelNext(qs) <==> exists q :: q in qs && c in Children(q)
    decreases |qs|
  {
    if qs != [] {
      var init := qs[..|qs| - 1];
      var last := qs[|qs| - 1];
      LevelNextMembers(init, c);
      assert qs == init + [last];
      if exists q :: q in qs && c in Children(q) {
        var q :| q in qs && c in Children(q);
        if q != last {
          assert q in init;
        }
      }
    }
  }

  // ---------------------------------------------------------------------
  // Properties of the walk
  // ---------------------------------------------------------------------

  /** Siblings keep the order of their parent's entries: the subdirectories
      found in a prefix of the entries come before those of the rest. */
  lemma {:induction false} SubdirsKeepEntryOrder(parent: Pending, es1: seq<Entry>, es2: seq<Entry>)
    ensures Subdirs(parent, es1 + es2) == Subdirs(parent, es1) + Subdirs(parent, es2)
    decreases |es2|
  {
    if es2 == [] {
      assert es1 + es2 == es1;
    } else {
      assert (es1 + es2)[..|es1 + es2| - 1] == es1 + es2[..|es2| - 1];
      SubdirsKeepEntryOrder(parent, es1, es2[..|es2| - 1]);
    }
  }

  /** Exactly the candidates reachable from the queue without passing through
      a dot-prefixed or unreadable directory are emitted. */
  lemma {:induction false} LevelsMembers(qs: seq<Pending>, x: Pending)
    ensures x in Levels(qs) <==> IsCandidate(x.node) && exists q :: q in qs && Reaches(q, x)
    decreases SizeQ(qs)
  {
    if qs != [] {
      var next := LevelNext(qs);
      LevelNextSize(qs);
      LevelsMembers(next, x);
      LevelOutputMembers(qs, x);
      assert Levels(qs) == LevelOutput(qs) + Levels(next);
      if IsCandidate(x.node) && exists q :: q in qs && Reaches(q, x) {
        var q :| q in qs && Reaches(q, x);
        if x != q {
          var e :| e in q.node.entries && IsSubdir(e) && Reaches(Child(q, e), x);
          SubdirsMembers(q, q.node.entries, Child(q, e));
          LevelNextMembers(qs, Child(q, e));
        }
      }
      if x in Levels(next) {
        var c :| c in next && Reaches(c, x);
        LevelNextMembers(qs, c);
        var q :| q in qs && c in Children(q);
        assert IsReadableDir(q.node);
        SubdirsMembers(q, q.node.entries, c);
        var e :| e in q.node.entries && IsSubdir(e) && c == Child(q, e);
        assert Reaches(q, x);
      }
    }
  }

  /** Level-synchronous order: a walk started from a queue of depth `d`
      emits nothing shallower than `d` and never a deeper directory before
      a shallower one. */
  lemma {:induction false} LevelsDepthOrdered(qs: seq<Pending>, d: nat)
    requires AllAtDepth(qs, d)
    ensures DepthOrdered(Levels(qs))
    ensures forall x :: x in Levels(qs) ==> d <= x.depth
    decreases SizeQ(qs)
  {
    if qs != [] {
      var next := LevelNext(qs);
      LevelNextSize(qs);
      forall c | c in next
        ensures c.depth == d + 1
      {
        LevelNextMembers(qs, c);
        var q :| q in qs && c in Children(q);
        assert IsReadableDir(q.node);
        SubdirsMembers(q, q.node.entries, c);
      }
      LevelsDepthOrdered(next, d + 1);
      var out: seq<Pending> := LevelOutput(qs);
      var rest: seq<Pending> := Levels(next);
      assert Levels(qs) == out + rest;
      forall i, j | 0 <= i < j < |out + rest|
        ensures (out + rest)[i].depth <= (out + rest)[j].depth
      {
        if j < |out| {
          LevelOutputMembers(qs, out[i]);
          LevelOutputMembers(qs, out[j]);
        } else if i < |out| {
          LevelOutputMembers(qs, out[i]);
          assert rest[j - |out|] in rest;
        } else {
          assert (out + rest)[i] == rest[i - |out|];
        }
      }
      forall x | x in out + rest
        ensures d <= x.depth
      {
        LevelOutputMembers(qs, x);
      }
    }
  }

  /** Examining an unreadable directory emits nothing ... */
  lemma {:induction false} UnreadableEmitsNothing(qs1: seq<Pending>, q: Pending, qs2: seq<Pending>)
    requires !IsReadableDir(q.node)
    ensures LevelOutput(qs1 + [q] + qs2) == LevelOutput(qs1 + qs2)
  {
    LevelOfOne(q);
    assert LevelOutput([q]) == [];
    LevelOutputAppend(qs1 + [q], qs2);
    LevelOutputAppend(qs1, [q]);
    LevelOutputAppend(qs1, qs2);
  }

  /** ... and enqueues nothing. */
  lemma {:induction false} UnreadableEnqueuesNothing(qs1: seq<Pending>, q: Pending, qs2: seq<Pending>)
    requires !IsReadableDir(q.node)
    ensures LevelNext(qs1 + [q] + qs2) == LevelNext(qs1 + qs2)
  {
    LevelOfOne(q);
    assert Children(q) == [];
    LevelNextAppend(qs1 + [q], qs2);
    LevelNextAppend(qs1, [q]);
    LevelNextAppend(qs1, qs2);
  }

  /** An unreadable directory contributes nothing, and the walk goes on with
      the rest of the queue as if it had not been there. */
  lemma {:induction false} UnreadableSkipped(qs1: seq<Pending>, q: Pending, qs2: seq<Pending>)
    requires !IsReadableDir(q.node)
    ensures Levels(qs1 + [q] + qs2) == Levels(qs1 + qs2)
  {
    var withQ := qs1 + [q] + qs2;
    var without := qs1 + qs2;
    UnreadableEmitsNothing(qs1, q, qs2);
    UnreadableEnqueuesNothing(qs1, q, qs2);
    assert Levels(withQ) == LevelOutput(withQ) + Levels(LevelNext(withQ));
    if without == [] {
      assert LevelOutput(without) == [] && LevelNext(without) == [];
    }
  }

  /** Two directories at the same path and depth whose examination emits
      the same and enqueues the same lead to the same walk. */
  lemma SameExaminationSameWalk(q: Pending, q': Pending)
    requires q.path == q'.path && q.depth == q'.depth
    requires IsCandidate(q.node) == IsCandidate(q'.node)
    requires Children(q) == Children(q')
    ensures Paths(Levels([q])) == Paths(Levels([q']))
  {
  }

  lemma {:induction false} SubdirsSameParent(p: Pending, p': Pending, es: seq<Entry>)
    requires p.path == p'.path && p.depth == p'.depth
    ensures Subdirs(p, es) == Subdirs(p', es)
    decreases |es|
  {
    if es != [] {
      SubdirsSameParent(p, p', es[..|es| - 1]);
    }
  }

  lemma DirEntryNotGoFile(es1: seq<Entry>, h: Entry, es2: seq<Entry>)
    requires h.Dir?
    ensures HasGoFile(es1 + [h] + es2) <==> HasGoFile(es1 + es2)
  {
    var withH := es1 + [h] + es2;
    var without := es1 + es2;
    if HasGoFile(withH) {
      var i :| 0 <= i < |withH| && IsGoFile(withH[i]);
      if i < |es1| {
        assert without[i] == withH[i];
      } else {
        assert without[i - 1] == withH[i];
      }
    }
    if HasGoFile(without) {
      var i :| 0 <= i < |without| && IsGoFile(without[i]);
      if i < |es1| {
        assert withH[i] == without[i];
      } else {
        assert withH[i + 1] == without[i];
      }
    }
  }

  /** A dot-prefixed subdirectory contributes nothing to the walk that starts
      at its parent (as the walk of a root starts at the root's `src`): that
      walk emits the same paths whether or not the entry is there. */
  lemma {:induction false} HiddenDirIgnored(
      path: string, name: string, readable: bool, depth: nat,
      es1: seq<Entry>, h: Entry, es2: seq<Entry>)
    requires h.Dir? && HasPrefix(h.name, ".")
    ensures Paths(Levels([Pending(path, Dir(name, readable, es1 + [h] + es2), depth)]))
         == Paths(Levels([Pending(path, Dir(name, readable, es1 + es2), depth)]))
  {
    var q := Pending(path, Dir(name, readable, es1 + [h] + es2), depth);
    var q' := Pending(path, Dir(name, readable, es1 + es2), depth);
    SubdirsKeepEntryOrder(q, es1 + [h], es2);
    SubdirsKeepEntryOrder(q, es1, [h]);
    SubdirsKeepEntryOrder(q, es1, es2);
    assert [h][..0] == [];
    assert Subdirs(q, [h]) == [];
    SubdirsSameParent(q, q', es1 + es2);
    assert Children(q) == Children(q');
    DirEntryNotGoFile(es1, h, es2);
    SameExaminationSameWalk(q, q');
  }

  /** Every directory reached strictly below `from` was entered as a
      subdirectory: it is a directory whose name does not start with a dot. */
  lemma {:induction false} ReachedBelowIsVisible(from: Pending, x: Pending)
    requires Reaches(from, x) && x != from
    ensures IsSubdir(x.node)
    decreases from.node
  {
    var e :| e in from.node.entries && IsSubdir(e) && Reaches(Child(from, e), x);
    if x != Child(from, e) {
      ReachedBelowIsVisible(Child(from, e), x);
    }
  }

  /** At any depth, no directory emitted below a root's `src` has a name
      starting with a dot, and none lies beneath such a directory. */
  lemma EmittedBelowRootIsVisible(root: Root, x: Pending)
    requires x in WalkRootItems(root) && x != Start(root)
    ensures IsSubdir(x.node)
    ensures Reaches(Start(root), x)
  {
    LevelsMembers([Start(root)], x);
    var q :| q in [Start(root)] && Reaches(q, x);
    assert q == Start(root);
    ReachedBelowIsVisible(Start(root), x);
  }

  /** Within one root: a path is emitted iff it belongs to a candidate
      directory reachable from `root/src`. */
  lemma RootEmitsExactlyCandidates(root: Root, p: string)
    ensures p in WalkRoot(root)
        <==> exists x :: Reaches(Start(root), x) && IsCandidate(x.node) && x.path == p
  {
    var items := WalkRootItems(root);
    var paths := WalkRoot(root);
    if p in paths {
      var i :| 0 <= i < |paths| && paths[i] == p;
      var x := items[i];
      LevelsMembers([Start(root)], x);
      var q :| q in [Start(root)] && Reaches(q, x);
      assert q == Start(root);
    }
    if exists x :: Reaches(Start(root), x) && IsCandidate(x.node) && x.path == p {
      var x :| Reaches(Start(root), x) && IsCandidate(x.node) && x.path == p;
      LevelsMembers([Start(root)], x);
      assert Start(root) in [Start(root)];
      assert x in items;
      var i :| 0 <= i < |items| && items[i] == x;
      assert paths[i] == p;
    }
  }

  /** Within one root, every directory of depth k is emitted before every
      directory of depth k + 1. */
  lemma RootDepthOrdered(root: Root)
    ensures DepthOrdered(WalkRootItems(root))
  {
    LevelsDepthOrdered([Start(root)], 0);
  }

  /** Roots are walked strictly one after the other: the output for a list of
      roots is the output of its first part followed by that of the rest. */
  lemma {:induction false} WalkAllAppend(a: seq<Root>, b: seq<Root>)
    ensures WalkAll(a + b) == WalkAll(a) + WalkAll(b)
    decreases |a|
  {
    if a == [] {
      assert a + b == b;
    } else {
      assert (a + b)[1..] == a[1..] + b;
      WalkAllAppend(a[1..], b);
    }
  }

  lemma WalkAllOne(root: Root)
    ensures WalkAll([root]) == WalkRoot(root)
  {
    assert [root][1..] == [];
  }

  // ---------------------------------------------------------------------
  // The loops of the Go code
  // ---------------------------------------------------------------------

  /** One pass over a directory's entries: remembers whether a Go source
      file was seen and collects the subdirectories for the next level. */
  method ScanEntries(dir: Pending, entries: seq<Entry>) returns (hasGoFiles: bool, next: seq<Pending>)
    ensures hasGoFiles <==> HasGoFile(entries)
    ensures next == Subdirs(dir, entries)
  {
    hasGoFiles := false;
    next := [];
    var i := 0;
    while i < |entries|
      invariant 0 <= i <= |entries|
      invariant hasGoFiles <==> HasGoFile(entries[..i])
      invariant next == Subdirs(dir, entries[..i])
    {
      var entry := entries[i];
      assert entries[..i + 1][..i] == entries[..i];
      if !entry.Dir? {
        if !hasGoFiles && HasSuffix(entry.name, SourceSuffix) {
          hasGoFiles := true;
        }
      } else if !HasPrefix(entry.name, ".") {
        next := next + [Child(dir, entry)];
      }
      i := i + 1;
    }
    assert entries[..|entries|] == entries;
  }

  /** One pass of the walk: examines the directories of the current level in
      order, emitting the candidates and collecting the next level. */
  method ExamineLevel(current: seq<Pending>) returns (emitted: seq<string>, next: seq<Pending>)
    ensures emitted == Paths(LevelOutput(current))
    ensures next == LevelNext(current)
  {
    emitted := [];
    next := [];
    var i := 0;
    while i < |current|
      invariant 0 <= i <= |current|
      invariant emitted == Paths(LevelOutput(current[..i]))
      invariant next == LevelNext(current[..i])
    {
      var dir := current[i];
      assert current[..i + 1][..i] == current[..i];
      PathsAppend(LevelOutput(current[..i]), if IsCandidate(dir.node) then [dir] else []);
      if dir.node.Dir? && dir.node.readable {
        var hasGoFiles, subdirs := ScanEntries(dir, dir.node.entries);
        next := next + subdirs;
        if hasGoFiles {
          emitted := emitted + [dir.path];
        }
      }
      i := i + 1;
    }
    assert current[..|current|] == current;
  }

  /** The breadth-first walk of one root, level by level until the queue
      for the next level comes out empty. */
  method BfsWalkRoot(root: Root) returns (out: seq<string>)
    ensures out == WalkRoot(root)
  {
    var next := [Start(root)];
    out := [];
    while |next| > 0
      invariant out + Paths(Levels(next)) == WalkRoot(root)
      decreases SizeQ(next)
    {
      var current := next;
      var emitted;
      emitted, next := ExamineLevel(current);
      LevelNextSize(current);
      assert Levels(current) == LevelOutput(current) + Levels(next);
      PathsAppend(LevelOutput(current), Levels(next));
      out := out + emitted;
    }
  }

  /** The producer: GOROOT first, then each GOPATH root in order. */
  method WalkTrees(goroot: Root, gopath: seq<Root>) returns (out: seq<string>)
    ensures out == Produced(goroot, gopath)
  {
    out := BfsWalkRoot(goroot);
    WalkAllOne(goroot);
    var i := 0;
    while i < |gopath|
      invariant 0 <= i <= |gopath|
      invariant out == WalkAll([goroot] + gopath[..i])
    {
      var more := BfsWalkRoot(gopath[i]);
      WalkAllAppend([goroot] + gopath[..i], [gopath[i]]);
      WalkAllOne(gopath[i]);
      assert [goroot] + gopath[..i + 1] == ([goroot] + gopath[..i]) + [gopath[i]];
      out := out + more;
      i := i + 1;
    }
    assert gopath[..|gopath|] == gopath;
  }
}
