/** A concrete tree and the exact sequence the walk emits for it: `/r1/src`
    holds `a/x.go`, `a/deep/y.go` and `b/z.go`, and both depth-one
    directories come before the depth-two one. `/r1/src` itself holds no
    Go file and is not emitted. */
module Scenarios {
  import opened Tree
  import opened Walk

  const Deep := Dir("deep", true, [NonDir("y.go")])
  const A := Dir("a", true, [NonDir("x.go"), Deep])
  const B := Dir("b", true, [NonDir("z.go")])
  const R1 := Root("/r1", Dir("src", true, [A, B]))

  const PA := Pending("/r1/src/a", A, 1)
  const PB := Pending("/r1/src/b", B, 1)
  const PD := Pending("/r1/src/a/deep", Deep, 2)

  lemma NamesNotHidden()
    ensures IsSubdir(A) && IsSubdir(B) && IsSubdir(Deep)
  {
    assert "a"[..1][0] == 'a' && "b"[..1][0] == 'b' && "deep"[..1][0] == 'd';
    assert "."[0] == '.';
  }

  lemma WhichAreCandidates()
    ensures !IsCandidate(Start(R1).node)
    ensures IsCandidate(A) && IsCandidate(B) && IsCandidate(Deep)
  {
    assert IsGoFile(NonDir("x.go")) && IsGoFile(NonDir("y.go")) && IsGoFile(NonDir("z.go"));
    assert !IsGoFile(A) && !IsGoFile(B);
    assert HasSuffix("x.go", ".go") by { assert "x.go"[1..] == ".go"; }
    assert HasSuffix("y.go", ".go") by { assert "y.go"[1..] == ".go"; }
    assert HasSuffix("z.go", ".go") by { assert "z.go"[1..] == ".go"; }
    assert IsGoFile(A.entries[0]) && IsGoFile(B.entries[0]) && IsGoFile(Deep.entries[0]);
  }

  lemma SrcChildren()
    ensures Children(Start(R1)) == [PA, PB]
  {
    NamesNotHidden();
    var s := Start(R1);
    assert s.path == "/r1/src";
    assert JoinPath("/r1/src", "a") == "/r1/src/a";
    assert JoinPath("/r1/src", "b") == "/r1/src/b";
    assert [A, B][..1] == [A] && [A][..0] == [];
    assert Subdirs(s, [A]) == [PA];
  }

  lemma DeeperChildren()
    ensures Children(PA) == [PD]
    ensures Children(PB) == [] && Children(PD) == []
  {
    NamesNotHidden();
    assert JoinPath("/r1/src/a", "deep") == "/r1/src/a/deep";
    assert [NonDir("x.go"), Deep][..1] == [NonDir("x.go")] && [NonDir("x.go")][..0] == [];
    assert Subdirs(PA, [NonDir("x.go")]) == [];
    assert [NonDir("z.go")][..0] == [] && [NonDir("y.go")][..0] == [];
  }

  /** Level 0: `/r1/src` itself is not emitted; `a` and `b` are queued. */
  lemma SrcLevel()
    ensures LevelOutput([Start(R1)]) == []
    ensures LevelNext([Start(R1)]) == [PA, PB]
  {
    WhichAreCandidates();
    SrcChildren();
    LevelOfOne(Start(R1));
  }

  /** Level 1: `a` and `b` are emitted in entry order; `a/deep` is queued. */
  lemma DepthOneLevel()
    ensures LevelOutput([PA, PB]) == [PA, PB]
    ensures LevelNext([PA, PB]) == [PD]
  {
    WhichAreCandidates();
    DeeperChildren();
    LevelOfOne(PA);
    LevelOfOne(PB);
    assert [PA, PB] == [PA] + [PB];
    LevelOutputAppend([PA], [PB]);
    LevelNextAppend([PA], [PB]);
  }

  /** Level 2: `a/deep` is emitted and nothing is queued. */
  lemma DepthTwoLevel()
    ensures LevelOutput([PD]) == [PD]
    ensures LevelNext([PD]) == []
  {
    WhichAreCandidates();
    DeeperChildren();
    LevelOfOne(PD);
  }

  /** The levels of the walk, composed: depth one, then depth two. */
  lemma ScenarioItems()
    ensures WalkRootItems(R1) == [PA, PB, PD]
  {
    SrcLevel();
    DepthOneLevel();
    DepthTwoLevel();
    LevelsStep([PD]);
    assert Levels([PD]) == [PD];
    LevelsStep([PA, PB]);
    assert Levels([PA, PB]) == [PA, PB, PD];
    LevelsStep([Start(R1)]);
  }

  lemma BreadthFirstScenario()
    ensures WalkRoot(R1) == ["/r1/src/a", "/r1/src/b", "/r1/src/a/deep"]
  {
    ScenarioItems();
  }
}
