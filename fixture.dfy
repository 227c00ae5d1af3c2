/**
 * The tree the repository's tests build from a temporary directory "/t":
 * two files and two directories at the top, `dir1` holding a file and a
 * subdirectory with one more file, `dir2` holding one file. Children are in
 * the order a directory listing returns them, sorted by name.
 */
module Fixture {
  import opened Tree

  const File4: Node := Node("file4.go", [], false, "/t/dir1/subdir1/file4.go")
  const Subdir1: Node := Node("subdir1", [File4], true, "/t/dir1/subdir1")
  const File3: Node := Node("file3.txt", [], false, "/t/dir1/file3.txt")
  const Dir1: Node := Node("dir1", [File3, Subdir1], true, "/t/dir1")
  const File5: Node := Node("file5.txt", [], false, "/t/dir2/file5.txt")
  const Dir2: Node := Node("dir2", [File5], true, "/t/dir2")
  const File1: Node := Node("file1.txt", [], false, "/t/file1.txt")
  const File2: Node := Node("file2.go", [], false, "/t/file2.go")
  const Root: Node := Node("t", [Dir1, Dir2, File1, File2], true, "/t")

  /** The names in the tree. */
  const Names: set<string> :=
    {"t", "dir1", "dir2", "file1.txt", "file2.go", "file3.txt", "subdir1", "file4.go", "file5.txt"}

  lemma Dir1PreOrder()
    ensures PreOrder(Dir1) == [Dir1, File3, Subdir1, File4]
  {
    assert PreOrder(File4) == [File4];
    assert Forest(Subdir1, 1) == [File4];
    assert PreOrder(Subdir1) == [Subdir1, File4];
    assert PreOrder(File3) == [File3];
    assert Forest(Dir1, 1) == [File3];
    assert Forest(Dir1, 2) == [File3] + [Subdir1, File4];
  }

  lemma Dir2PreOrder()
    ensures PreOrder(Dir2) == [Dir2, File5]
  {
    assert PreOrder(File5) == [File5];
    assert Forest(Dir2, 1) == [File5];
  }

  /** The nodes of the test tree in pre-order. */
  lemma RootPreOrder()
    ensures PreOrder(Root) == [Root, Dir1, File3, Subdir1, File4, Dir2, File5, File1, File2]
  {
    Dir1PreOrder();
    Dir2PreOrder();
    assert PreOrder(File1) == [File1];
    assert PreOrder(File2) == [File2];
    assert Forest(Root, 1) == [Dir1, File3, Subdir1, File4];
    assert Forest(Root, 2) == [Dir1, File3, Subdir1, File4] + [Dir2, File5];
    assert Forest(Root, 3) == [Dir1, File3, Subdir1, File4, Dir2, File5] + [File1];
    assert Forest(Root, 4) == [Dir1, File3, Subdir1, File4, Dir2, File5, File1] + [File2];
  }
}
