/**
 * What the two consumers print for a tree the builder returns.
 */
module Walk {
  import opened Options
  import opened Fs
  import opened Tree
  import opened Build
  import opened Print

  /** With neither filter, printing a built tree names every node below its
      root, in pre-order. */
  lemma BuiltTreePrintsEveryNode(disk: Disk, t: bool, p: Path, name: string, prefix: string)
    ensures var r := BuildSpec(disk, t, p, name);
            r.node.Some? ==> RowNodes(Rows(r.node.value, prefix, None, false)) == PreOrder(r.node.value)[1..]
  {
    var r := BuildSpec(disk, t, p, name);
    if r.node.Some? {
      BuildSound(disk, t, p, name);
      SoundWellFormed(disk, r.node.value);
      UnfilteredIsPreOrder(r.node.value, prefix);
    }
  }
}
