/**
 * The search and printing scenarios of the repository's tests, on the test
 * tree. The printing scenarios hold for any pattern that matches one file
 * name of the tree and no other name: the tests use the patterns `file3`
 * and `file4`.
 */
module Scenarios {
  import opened Options
  import opened Tree
  import opened Print
  import opened Search
  import Fixture

  /** `m` matches `name` and no other name of the test tree. */
  predicate MatchesOnly(m: Pattern, name: string) {
    forall n :: n in Fixture.Names ==> (m(n) <==> n == name)
  }

  /** Inside `dir1`, "file3.txt" matches and `subdir1` has no matching child;
      "file3.txt" still gets `├── ` because `subdir1` holds the last raw index. */
  lemma Dir1WithFile3(m: Pattern)
    requires MatchesOnly(m, "file3.txt")
    ensures Rows(Fixture.Dir1, Bar, Some(m), false) == [Row(Bar, Tee, Fixture.File3)]
  {
    assert !m("subdir1") && !m("file4.go") && m("file3.txt") by {
      assert "subdir1" in Fixture.Names && "file4.go" in Fixture.Names && "file3.txt" in Fixture.Names;
    }
    assert !HasMatchingChild(Fixture.Subdir1, m);
    assert ChildRows(Fixture.Dir1, Bar, Some(m), false, 0) == [Row(Bar, Tee, Fixture.File3)];
    assert ChildRows(Fixture.Dir1, Bar, Some(m), false, 1) == [];
    assert RowsUpTo(Fixture.Dir1, Bar, Some(m), false, 1) == [Row(Bar, Tee, Fixture.File3)];
    assert RowsUpTo(Fixture.Dir1, Bar, Some(m), false, 2) == [Row(Bar, Tee, Fixture.File3)];
  }

  lemma RowsFile3(m: Pattern)
    requires MatchesOnly(m, "file3.txt")
    ensures Rows(Fixture.Root, "", Some(m), false) ==
            [Row("", Tee, Fixture.Dir1), Row(Bar, Tee, Fixture.File3)]
  {
    assert !m("dir1") && !m("dir2") && !m("file1.txt") && !m("file2.go") && !m("file5.txt") && m("file3.txt") by {
      assert "dir1" in Fixture.Names && "dir2" in Fixture.Names && "file1.txt" in Fixture.Names;
      assert "file2.go" in Fixture.Names && "file5.txt" in Fixture.Names && "file3.txt" in Fixture.Names;
    }
    assert HasMatchingChild(Fixture.Dir1, m) by {
      assert Fixture.Dir1.children[0].name == "file3.txt";
    }
    assert !HasMatchingChild(Fixture.Dir2, m);
    Dir1WithFile3(m);
    var rows := [Row("", Tee, Fixture.Dir1), Row(Bar, Tee, Fixture.File3)];
    assert "" + Indent(false) == Bar;
    assert ChildRows(Fixture.Root, "", Some(m), false, 0) == rows;
    assert ChildRows(Fixture.Root, "", Some(m), false, 1) == [];
    assert ChildRows(Fixture.Root, "", Some(m), false, 2) == [];
    assert ChildRows(Fixture.Root, "", Some(m), false, 3) == [];
    assert RowsUpTo(Fixture.Root, "", Some(m), false, 1) == rows;
    assert RowsUpTo(Fixture.Root, "", Some(m), false, 2) == rows;
    assert RowsUpTo(Fixture.Root, "", Some(m), false, 3) == rows;
    assert RowsUpTo(Fixture.Root, "", Some(m), false, 4) == rows;
  }

  /** The pattern `file3` shows `dir1`, because an immediate child matches,
      and "file3.txt" below it; nothing else. */
  lemma PrintFile3(m: Pattern)
    requires MatchesOnly(m, "file3.txt")
    ensures Texts(Rows(Fixture.Root, "", Some(m), false)) == ["├── dir1", "│   ├── file3.txt"]
  {
    RowsFile3(m);
    var rows := [Row("", Tee, Fixture.Dir1), Row(Bar, Tee, Fixture.File3)];
    assert Text(rows[0]) == "├── dir1";
    assert Text(rows[1]) == "│   ├── file3.txt";
  }

  /** The lookahead is one level deep: "file4.go" lies two levels below the
      root's children, so the pattern `file4` prints nothing at all. */
  lemma PrintFile4(m: Pattern)
    requires MatchesOnly(m, "file4.go")
    ensures Rows(Fixture.Root, "", Some(m), false) == []
  {
    assert !m("dir1") && !m("dir2") && !m("file1.txt") && !m("file2.go") && !m("file3.txt") && !m("file5.txt") && !m("subdir1") by {
      assert "dir1" in Fixture.Names && "dir2" in Fixture.Names && "file1.txt" in Fixture.Names;
      assert "file2.go" in Fixture.Names && "file5.txt" in Fixture.Names && "file3.txt" in Fixture.Names;
      assert "subdir1" in Fixture.Names;
    }
    assert !HasMatchingChild(Fixture.Dir1, m);
    assert !HasMatchingChild(Fixture.Dir2, m);
    assert ChildRows(Fixture.Root, "", Some(m), false, 0) == [];
    assert ChildRows(Fixture.Root, "", Some(m), false, 1) == [];
    assert ChildRows(Fixture.Root, "", Some(m), false, 2) == [];
    assert ChildRows(Fixture.Root, "", Some(m), false, 3) == [];
    assert RowsUpTo(Fixture.Root, "", Some(m), false, 1) == [];
    assert RowsUpTo(Fixture.Root, "", Some(m), false, 2) == [];
    assert RowsUpTo(Fixture.Root, "", Some(m), false, 3) == [];
    assert RowsUpTo(Fixture.Root, "", Some(m), false, 4) == [];
  }

  lemma RowsDirsOnly()
    ensures Rows(Fixture.Root, "", None, true) ==
            [Row("", Tee, Fixture.Dir1), Row(Bar, Corner, Fixture.Subdir1), Row("", Tee, Fixture.Dir2)]
  {
    var q := Bar + Blank;
    assert ChildRows(Fixture.Subdir1, q, None, true, 0) == [];
    assert RowsUpTo(Fixture.Subdir1, q, None, true, 1) == [];
    assert ChildRows(Fixture.Dir1, Bar, None, true, 0) == [];
    assert ChildRows(Fixture.Dir1, Bar, None, true, 1) == [Row(Bar, Corner, Fixture.Subdir1)];
    assert RowsUpTo(Fixture.Dir1, Bar, None, true, 1) == [];
    assert RowsUpTo(Fixture.Dir1, Bar, None, true, 2) == [Row(Bar, Corner, Fixture.Subdir1)];
    assert ChildRows(Fixture.Dir2, Bar, None, true, 0) == [];
    assert RowsUpTo(Fixture.Dir2, Bar, None, true, 1) == [];
    assert "" + Indent(false) == Bar;
    var top := [Row("", Tee, Fixture.Dir1), Row(Bar, Corner, Fixture.Subdir1)];
    assert ChildRows(Fixture.Root, "", None, true, 0) == top;
    assert ChildRows(Fixture.Root, "", None, true, 1) == [Row("", Tee, Fixture.Dir2)];
    assert ChildRows(Fixture.Root, "", None, true, 2) == [];
    assert ChildRows(Fixture.Root, "", None, true, 3) == [];
    assert RowsUpTo(Fixture.Root, "", None, true, 1) == top;
    assert RowsUpTo(Fixture.Root, "", None, true, 2) == top + [Row("", Tee, Fixture.Dir2)];
    assert RowsUpTo(Fixture.Root, "", None, true, 4) == top + [Row("", Tee, Fixture.Dir2)];
  }

  /** With only directories wanted, the files disappear; and since the last
      raw child of the root, "file2.go", is a file, no line at the top level
      gets `└── `, while `subdir1`, the last raw child of `dir1`, does. */
  lemma PrintDirsOnly()
    ensures Texts(Rows(Fixture.Root, "", None, true)) == ["├── dir1", "│   └── subdir1", "├── dir2"]
  {
    RowsDirsOnly();
    var rows := [Row("", Tee, Fixture.Dir1), Row(Bar, Corner, Fixture.Subdir1), Row("", Tee, Fixture.Dir2)];
    assert Text(rows[0]) == "├── dir1";
    assert Text(rows[1]) == "│   └── subdir1";
    assert Text(rows[2]) == "├── dir2";
  }

  // ---------------------------------------------------------------------
  // Search

  /** The test's query "FILE1" matches "file1.txt". */
  lemma File1Matches()
    ensures Matches(Fixture.File1, "FILE1")
  {
    assert ToLower("FILE1") == "file1";
    ToLowerOfLower("file1.txt");
    assert "file1.txt"[..5] == "file1";
  }

  /** Searching "FILE1" prints the path of "file1.txt". */
  lemma SearchUpperCase()
    ensures "/t/file1.txt" in Hits(PreOrder(Fixture.Root), "FILE1")
  {
    Fixture.RootPreOrder();
    File1Matches();
    var ns := PreOrder(Fixture.Root);
    assert ns[7] == Fixture.File1;
    HitsMembership(ns, "FILE1", "/t/file1.txt");
  }

  /** No name of the test tree holds an "n", in either case, so the query
      "nonexistent" matches no node. */
  lemma NoNameMatchesNonexistent(n: Node)
    requires 'n' !in n.name && 'N' !in n.name
    ensures !Matches(n, "nonexistent")
  {
    LowerMissing(n.name, 'n');
    assert ToLower("nonexistent")[0] == 'n';
    MissingCharNotContained(ToLower(n.name), ToLower("nonexistent"), 'n');
  }

  lemma NamesLackN()
    ensures forall s :: s in Fixture.Names ==> 'n' !in s && 'N' !in s
  {
  }

  /** Searching the test tree for "nonexistent" prints nothing. */
  lemma SearchNonexistent()
    ensures Hits(PreOrder(Fixture.Root), "nonexistent") == []
  {
    Fixture.RootPreOrder();
    var ns := PreOrder(Fixture.Root);
    NamesLackN();
    forall i | 0 <= i < |ns| ensures !Matches(ns[i], "nonexistent") {
      assert ns[i].name in Fixture.Names;
      NoNameMatchesNonexistent(ns[i]);
    }
    NoMatchNoOutput(ns, "nonexistent");
  }
}
