/**
 * `printTreeDFS` (`PrintTreeDFS`): prints the children of a node, one line
 * each, as `prefix + branch + name`, and recurses into the directories among
 * them with a longer prefix. A child is skipped when only directories are
 * wanted and it is a file, or when a pattern is given that its name does not
 * match and it is not a directory with an immediate child that matches.
 * The corner branch goes to the child at the last raw index, whether or not
 * that child is printed. The pattern is an abstract predicate on names; the
 * printed lines are returned in order instead of written to standard output.
 */
module Print {
  import opened Options
  import opened Tree

  /** What a compiled regular expression's `MatchString` answers for a name. */
  type Pattern = string -> bool

  const Tee := "├── "
  const Corner := "└── "
  const Bar := "│   "
  const Blank := "    "

  function Branch(last: bool): string {
    if last then Corner else Tee
  }

  function Indent(last: bool): string {
    if last then Blank else Bar
  }

  /** One printed line, kept apart into the prefix it was printed under, its
      branch, and the node it names. */
  datatype Row = Row(prefix: string, branch: string, node: Node)

  function Text(r: Row): string {
    r.prefix + r.branch + r.node.name
  }

  function Texts(rs: seq<Row>): (r: seq<string>)
    ensures |r| == |rs|
  {
    seq(|rs|, i requires 0 <= i < |rs| => Text(rs[i]))
  }

  /** Some immediate child of `n` has a matching name. */
  predicate HasMatchingChild(n: Node, m: Pattern) {
    exists j :: 0 <= j < |n.children| && m(n.children[j].name)
  }

  /** `c` survives both filters. */
  predicate Kept(c: Node, regex: Option<Pattern>, dirsOnly: bool) {
    && !(dirsOnly && !c.isDir)
    && (regex.None? || regex.value(c.name) || (c.isDir && HasMatchingChild(c, regex.value)))
  }

  /** The rows printed for the children of `n`. */
  function Rows(n: Node, prefix: string, regex: Option<Pattern>, dirsOnly: bool): seq<Row>
    decreases n, 1
  {
    RowsUpTo(n, prefix, regex, dirsOnly, |n.children|)
  }

  /** The rows printed for the first k children of `n`. */
  function RowsUpTo(n: Node, prefix: string, regex: Option<Pattern>, dirsOnly: bool, k: nat): seq<Row>
    requires k <= |n.children|
    decreases n, 0, k
  {
    if k == 0 then []
    else RowsUpTo(n, prefix, regex, dirsOnly, k - 1) + ChildRows(n, prefix, regex, dirsOnly, k - 1)
  }

  /** The rows printed for child i of `n`: none if it is skipped, otherwise
      its own line followed, for a directory, by its children's rows. */
  function ChildRows(n: Node, prefix: string, regex: Option<Pattern>, dirsOnly: bool, i: nat): seq<Row>
    requires i < |n.children|
    decreases n, 0, i
  {
    var c := n.children[i];
    var last := i == |n.children| - 1;
    if !Kept(c, regex, dirsOnly) then []
    else [Row(prefix, Branch(last), c)] +
         (if c.isDir then Rows(c, prefix + Indent(last), regex, dirsOnly) else [])
  }

  /** The inner loop that looks for a matching immediate child, stopping at
      the first. */
  method ScanForMatch(child: Node, m: Pattern) returns (hasMatch: bool)
    ensures hasMatch <==> HasMatchingChild(child, m)
  {
    hasMatch := false;
    var j := 0;
    while j < |child.children|
      invariant 0 <= j <= |child.children|
      invariant !hasMatch ==> forall k :: 0 <= k < j ==> !m(child.children[k].name)
      invariant hasMatch ==> HasMatchingChild(child, m)
      decreases |child.children| - j
    {
      if m(child.children[j].name) {
        hasMatch := true;
        break;
      }
      j := j + 1;
    }
  }

  method PrintTreeDFS(node: Node, prefix: string, regex: Option<Pattern>, dirsOnly: bool)
    returns (out: seq<string>)
    ensures out == Texts(Rows(node, prefix, regex, dirsOnly))
    decreases node
  {
    out := [];
    for i := 0 to |node.children|
      invariant out == Texts(RowsUpTo(node, prefix, regex, dirsOnly, i))
    {
      var child := node.children[i];
      RowsStep(node, prefix, regex, dirsOnly, i);
      if dirsOnly && !child.isDir {
        continue;
      }
      if regex.Some? && !regex.value(child.name) {
        if child.isDir {
          var hasMatch := ScanForMatch(child, regex.value);
          if !hasMatch {
            continue;
          }
        } else {
          continue;
        }
      }
      var last := i == |node.children| - 1;
      var branch := Tee;
      var nextPrefix := prefix + Bar;
      if last {
        branch := Corner;
        nextPrefix := prefix + Blank;
      }
      out := out + [prefix + branch + child.name];
      if child.isDir {
        var lines := PrintTreeDFS(child, nextPrefix, regex, dirsOnly);
        out := out + lines;
      }
    }
  }

  /** The text of one more child's rows, as the loop body produces it. */
  lemma RowsStep(n: Node, prefix: string, regex: Option<Pattern>, dirsOnly: bool, i: nat)
    requires i < |n.children|
    ensures var c := n.children[i];
            var last := i == |n.children| - 1;
            var before := Texts(RowsUpTo(n, prefix, regex, dirsOnly, i));
            Texts(RowsUpTo(n, prefix, regex, dirsOnly, i + 1)) ==
              if !Kept(c, regex, dirsOnly) then before
              else if c.isDir then before + [prefix + Branch(last) + c.name] + Texts(Rows(c, prefix + Indent(last), regex, dirsOnly))
              else before + [prefix + Branch(last) + c.name]
  {
    var c := n.children[i];
    var last := i == |n.children| - 1;
    var done := RowsUpTo(n, prefix, regex, dirsOnly, i);
    var rows := ChildRows(n, prefix, regex, dirsOnly, i);
    TextsAppend(done, rows);
    if Kept(c, regex, dirsOnly) {
      var head := [Row(prefix, Branch(last), c)];
      var sub := if c.isDir then Rows(c, prefix + Indent(last), regex, dirsOnly) else [];
      TextsAppend(head, sub);
      assert Texts(head) == [prefix + Branch(last) + c.name];
    }
  }

  // ---------------------------------------------------------------------
  // Properties

  lemma TextsAppend(a: seq<Row>, b: seq<Row>)
    ensures Texts(a + b) == Texts(a) + Texts(b)
  {
    assert forall i :: 0 <= i < |a| ==> (a + b)[i] == a[i];
    assert forall i :: 0 <= i < |b| ==> (a + b)[|a| + i] == b[i];
  }

  /** The nodes the rows name, in order. */
  function RowNodes(rs: seq<Row>): (r: seq<Node>)
    ensures |r| == |rs|
  {
    seq(|rs|, i requires 0 <= i < |rs| => rs[i].node)
  }

  lemma RowNodesAppend(a: seq<Row>, b: seq<Row>)
    ensures RowNodes(a + b) == RowNodes(a) + RowNodes(b)
  {
    assert forall i :: 0 <= i < |a| ==> (a + b)[i] == a[i];
    assert forall i :: 0 <= i < |b| ==> (a + b)[|a| + i] == b[i];
  }

  /** A row printed under `prefix`: its node passed the filters, its branch
      is one of the two connectors, and its prefix is `prefix` itself or
      `prefix` extended by one indent unit and possibly more. */
  predicate RowOk(r: Row, prefix: string, regex: Option<Pattern>, dirsOnly: bool) {
    && Kept(r.node, regex, dirsOnly)
    && (r.branch == Tee || r.branch == Corner)
    && (r.prefix == prefix || prefix + Bar <= r.prefix || prefix + Blank <= r.prefix)
  }

  lemma RowOkWeaken(r: Row, prefix: string, last: bool, regex: Option<Pattern>, dirsOnly: bool)
    requires RowOk(r, prefix + Indent(last), regex, dirsOnly)
    ensures RowOk(r, prefix, regex, dirsOnly) && |r.prefix| >= |prefix| + 4
  {
    var q := prefix + Indent(last);
    assert q <= r.prefix;
    assert q == prefix + Bar || q == prefix + Blank;
  }

  /** Every printed row passed the filters, uses one of the two connectors,
      and sits under the given prefix. */
  lemma {:induction false} RowsSound(n: Node, prefix: string, regex: Option<Pattern>, dirsOnly: bool)
    ensures forall r :: r in Rows(n, prefix, regex, dirsOnly) ==> RowOk(r, prefix, regex, dirsOnly)
    decreases n, 1
  {
    RowsUpToSound(n, prefix, regex, dirsOnly, |n.children|);
  }

  lemma {:induction false} RowsUpToSound(n: Node, prefix: string, regex: Option<Pattern>, dirsOnly: bool, k: nat)
    requires k <= |n.children|
    ensures forall r :: r in RowsUpTo(n, prefix, regex, dirsOnly, k) ==> RowOk(r, prefix, regex, dirsOnly)
    decreases n, 0, k
  {
    if k > 0 {
      RowsUpToSound(n, prefix, regex, dirsOnly, k - 1);
      ChildRowsSound(n, prefix, regex, dirsOnly, k - 1);
    }
  }

  /** The rows of child i other than its own line lie one indent unit
      deeper. */
  lemma {:induction false} ChildRowsSound(n: Node, prefix: string, regex: Option<Pattern>, dirsOnly: bool, i: nat)
    requires i < |n.children|
    ensures forall r :: r in ChildRows(n, prefix, regex, dirsOnly, i) ==> RowOk(r, prefix, regex, dirsOnly)
    ensures forall j :: 0 < j < |ChildRows(n, prefix, regex, dirsOnly, i)| ==>
              |ChildRows(n, prefix, regex, dirsOnly, i)[j].prefix| >= |prefix| + 4
    decreases n, 0, i
  {
    var c := n.children[i];
    var last := i == |n.children| - 1;
    if Kept(c, regex, dirsOnly) && c.isDir {
      var q := prefix + Indent(last);
      var sub := Rows(c, q, regex, dirsOnly);
      RowsSound(c, q, regex, dirsOnly);
      forall r | r in sub ensures RowOk(r, prefix, regex, dirsOnly) && |r.prefix| >= |prefix| + 4 {
        RowOkWeaken(r, prefix, last, regex, dirsOnly);
      }
      var rs := ChildRows(n, prefix, regex, dirsOnly, i);
      assert rs == [Row(prefix, Branch(last), c)] + sub;
      forall j | 0 < j < |rs| ensures |rs[j].prefix| >= |prefix| + 4 {
        assert rs[j] == sub[j - 1];
      }
    }
  }

  /** Every printed line starts with the prefix; with `dirsOnly` every line
      names a directory; with a pattern every line names a matching entry or
      a directory with a matching immediate child. */
  lemma PrintedLines(n: Node, prefix: string, regex: Option<Pattern>, dirsOnly: bool)
    ensures forall l :: l in Texts(Rows(n, prefix, regex, dirsOnly)) ==> prefix <= l
    ensures dirsOnly ==> forall r :: r in Rows(n, prefix, regex, dirsOnly) ==> r.node.isDir
    ensures regex.Some? ==> forall r :: r in Rows(n, prefix, regex, dirsOnly) ==>
              regex.value(r.node.name) || (r.node.isDir && HasMatchingChild(r.node, regex.value))
  {
    var rs := Rows(n, prefix, regex, dirsOnly);
    RowsSound(n, prefix, regex, dirsOnly);
    forall l | l in Texts(rs) ensures prefix <= l {
      var i :| 0 <= i < |rs| && Texts(rs)[i] == l;
      assert rs[i] in rs;
      assert l == rs[i].prefix + rs[i].branch + rs[i].node.name;
    }
  }

  /** A row at the first level of child i exists exactly when child i is
      kept, and it is a corner exactly when i is the last raw index. */
  lemma ChildCorner(n: Node, prefix: string, regex: Option<Pattern>, dirsOnly: bool, i: nat)
    requires i < |n.children|
    ensures (exists r :: r in ChildRows(n, prefix, regex, dirsOnly, i) && r.prefix == prefix && r.branch == Corner)
            <==> i == |n.children| - 1 && Kept(n.children[i], regex, dirsOnly)
  {
    var rs := ChildRows(n, prefix, regex, dirsOnly, i);
    ChildRowsSound(n, prefix, regex, dirsOnly, i);
    if r :| r in rs && r.prefix == prefix && r.branch == Corner {
      var j :| 0 <= j < |rs| && rs[j] == r;
      assert j == 0;
    }
    if i == |n.children| - 1 && Kept(n.children[i], regex, dirsOnly) {
      assert rs[0] in rs;
    }
  }

  /** Only the child at the last raw index can get the corner: the first
      level of the output has a corner exactly when that child is kept, so
      when it is filtered out, no line at that level uses `└── `. */
  lemma {:induction false} CornerIffLastKept(n: Node, prefix: string, regex: Option<Pattern>, dirsOnly: bool)
    ensures (exists r :: r in Rows(n, prefix, regex, dirsOnly) && r.prefix == prefix && r.branch == Corner)
            <==> |n.children| > 0 && Kept(n.children[|n.children| - 1], regex, dirsOnly)
  {
    CornerUpTo(n, prefix, regex, dirsOnly, |n.children|);
  }

  lemma {:induction false} CornerUpTo(n: Node, prefix: string, regex: Option<Pattern>, dirsOnly: bool, k: nat)
    requires k <= |n.children|
    ensures (exists r :: r in RowsUpTo(n, prefix, regex, dirsOnly, k) && r.prefix == prefix && r.branch == Corner)
            <==> k == |n.children| && k > 0 && Kept(n.children[k - 1], regex, dirsOnly)
    decreases k
  {
    if k > 0 {
      CornerUpTo(n, prefix, regex, dirsOnly, k - 1);
      ChildCorner(n, prefix, regex, dirsOnly, k - 1);
      var a := RowsUpTo(n, prefix, regex, dirsOnly, k - 1);
      var b := ChildRows(n, prefix, regex, dirsOnly, k - 1);
      assert RowsUpTo(n, prefix, regex, dirsOnly, k) == a + b;
      assert forall r :: r in a + b <==> r in a || r in b;
    }
  }

  /** The rows printed directly under `prefix`: the lines of one level. */
  function TopRows(rs: seq<Row>, prefix: string): seq<Row> {
    if rs == [] then []
    else TopRows(rs[..|rs| - 1], prefix) + (if rs[|rs| - 1].prefix == prefix then [rs[|rs| - 1]] else [])
  }

  /** For each kept child among the first k, in index order, the line the
      loop prints for it: the corner for the last raw index, a tee otherwise. */
  function KeptRows(n: Node, prefix: string, regex: Option<Pattern>, dirsOnly: bool, k: nat): seq<Row>
    requires k <= |n.children|
  {
    if k == 0 then []
    else
      var c := n.children[k - 1];
      KeptRows(n, prefix, regex, dirsOnly, k - 1) +
      (if Kept(c, regex, dirsOnly) then [Row(prefix, Branch(k - 1 == |n.children| - 1), c)] else [])
  }

  lemma {:induction false} TopRowsAppend(a: seq<Row>, b: seq<Row>, prefix: string)
    ensures TopRows(a + b, prefix) == TopRows(a, prefix) + TopRows(b, prefix)
    decreases |b|
  {
    if b == [] {
      assert a + b == a;
    } else {
      var m := |b| - 1;
      assert (a + b)[..|a + b| - 1] == a + b[..m];
      TopRowsAppend(a, b[..m], prefix);
    }
  }

  lemma {:induction false} TopRowsNone(rs: seq<Row>, prefix: string)
    requires forall j :: 0 <= j < |rs| ==> rs[j].prefix != prefix
    ensures TopRows(rs, prefix) == []
    decreases |rs|
  {
    if rs != [] {
      TopRowsNone(rs[..|rs| - 1], prefix);
    }
  }

  /** The level-`prefix` lines among child i's rows: its own line if it is
      kept, and nothing from below it. */
  lemma ChildTopRows(n: Node, prefix: string, regex: Option<Pattern>, dirsOnly: bool, i: nat)
    requires i < |n.children|
    ensures var c := n.children[i];
            TopRows(ChildRows(n, prefix, regex, dirsOnly, i), prefix) ==
            if Kept(c, regex, dirsOnly) then [Row(prefix, Branch(i == |n.children| - 1), c)] else []
  {
    var c := n.children[i];
    var rs := ChildRows(n, prefix, regex, dirsOnly, i);
    if Kept(c, regex, dirsOnly) {
      var head := [rs[0]];
      var sub := rs[1..];
      assert rs == head + sub;
      ChildRowsSound(n, prefix, regex, dirsOnly, i);
      forall j | 0 <= j < |sub| ensures sub[j].prefix != prefix {
        assert sub[j] == rs[j + 1];
      }
      TopRowsNone(sub, prefix);
      TopRowsAppend(head, sub, prefix);
      assert head[..0] == [];
    }
  }

  lemma {:induction false} LevelUpTo(n: Node, prefix: string, regex: Option<Pattern>, dirsOnly: bool, k: nat)
    requires k <= |n.children|
    ensures TopRows(RowsUpTo(n, prefix, regex, dirsOnly, k), prefix) == KeptRows(n, prefix, regex, dirsOnly, k)
    decreases k
  {
    if k > 0 {
      LevelUpTo(n, prefix, regex, dirsOnly, k - 1);
      ChildTopRows(n, prefix, regex, dirsOnly, k - 1);
      TopRowsAppend(RowsUpTo(n, prefix, regex, dirsOnly, k - 1), ChildRows(n, prefix, regex, dirsOnly, k - 1), prefix);
    }
  }

  /** The lines printed directly under `prefix` are exactly one per kept
      child, in index order, each `prefix + branch + name` with the corner
      for the last raw index and the tee otherwise. */
  lemma LevelLines(n: Node, prefix: string, regex: Option<Pattern>, dirsOnly: bool)
    ensures TopRows(Rows(n, prefix, regex, dirsOnly), prefix) == KeptRows(n, prefix, regex, dirsOnly, |n.children|)
  {
    LevelUpTo(n, prefix, regex, dirsOnly, |n.children|);
  }

  lemma {:induction false} RowsUpToGrows(n: Node, prefix: string, regex: Option<Pattern>, dirsOnly: bool, j: nat, k: nat)
    requires j <= k <= |n.children|
    ensures RowsUpTo(n, prefix, regex, dirsOnly, j) <= RowsUpTo(n, prefix, regex, dirsOnly, k)
    decreases k
  {
    if j < k {
      RowsUpToGrows(n, prefix, regex, dirsOnly, j, k - 1);
    }
  }

  /** A kept child's block: after the lines of the children before it comes
      its own line, then, for a directory, the lines of the recursive call,
      whose prefix is longer by exactly one unit (`Indent`): four spaces
      below the last raw child, `│   ` below the others. */
  lemma KeptChildBlock(n: Node, prefix: string, regex: Option<Pattern>, dirsOnly: bool, i: nat)
    requires i < |n.children| && Kept(n.children[i], regex, dirsOnly)
    ensures var c := n.children[i];
            var last := i == |n.children| - 1;
            RowsUpTo(n, prefix, regex, dirsOnly, i) + [Row(prefix, Branch(last), c)] +
            (if c.isDir then Rows(c, prefix + Indent(last), regex, dirsOnly) else [])
            <= Rows(n, prefix, regex, dirsOnly)
  {
    var c := n.children[i];
    var last := i == |n.children| - 1;
    RowsUpToGrows(n, prefix, regex, dirsOnly, i + 1, |n.children|);
    var done := RowsUpTo(n, prefix, regex, dirsOnly, i);
    var head := [Row(prefix, Branch(last), c)];
    var sub := if c.isDir then Rows(c, prefix + Indent(last), regex, dirsOnly) else [];
    assert ChildRows(n, prefix, regex, dirsOnly, i) == head + sub;
    assert done + head + sub == done + (head + sub);
  }

  /** Every kept child gets its line. */
  lemma KeptChildPrinted(n: Node, prefix: string, regex: Option<Pattern>, dirsOnly: bool, i: nat)
    requires i < |n.children| && Kept(n.children[i], regex, dirsOnly)
    ensures Row(prefix, Branch(i == |n.children| - 1), n.children[i]) in Rows(n, prefix, regex, dirsOnly)
  {
    KeptChildBlock(n, prefix, regex, dirsOnly, i);
    var done := RowsUpTo(n, prefix, regex, dirsOnly, i);
    var rs := Rows(n, prefix, regex, dirsOnly);
    assert rs[|done|] == Row(prefix, Branch(i == |n.children| - 1), n.children[i]);
  }

  /** At most one line per node below the root; a node without children
      prints nothing. */
  lemma {:induction false} RowCount(n: Node, prefix: string, regex: Option<Pattern>, dirsOnly: bool)
    ensures |Rows(n, prefix, regex, dirsOnly)| <= |PreOrder(n)| - 1
    ensures n.children == [] ==> Rows(n, prefix, regex, dirsOnly) == []
    decreases n, 1
  {
    RowCountUpTo(n, prefix, regex, dirsOnly, |n.children|);
  }

  lemma {:induction false} RowCountUpTo(n: Node, prefix: string, regex: Option<Pattern>, dirsOnly: bool, k: nat)
    requires k <= |n.children|
    ensures |RowsUpTo(n, prefix, regex, dirsOnly, k)| <= |Forest(n, k)|
    decreases n, 0, k
  {
    if k > 0 {
      RowCountUpTo(n, prefix, regex, dirsOnly, k - 1);
      var c := n.children[k - 1];
      var last := k - 1 == |n.children| - 1;
      if Kept(c, regex, dirsOnly) && c.isDir {
        RowCount(c, prefix + Indent(last), regex, dirsOnly);
      }
    }
  }

  /** With neither filter, the output names every node below the root, in
      pre-order, for a tree in which only directories have children. */
  lemma {:induction false} UnfilteredIsPreOrder(n: Node, prefix: string)
    requires WellFormed(n)
    ensures RowNodes(Rows(n, prefix, None, false)) == PreOrder(n)[1..]
    decreases n, 1
  {
    UnfilteredUpTo(n, prefix, |n.children|);
    assert PreOrder(n)[1..] == Forest(n, |n.children|);
  }

  lemma {:induction false} UnfilteredUpTo(n: Node, prefix: string, k: nat)
    requires WellFormed(n) && k <= |n.children|
    ensures RowNodes(RowsUpTo(n, prefix, None, false, k)) == Forest(n, k)
    decreases n, 0, k
  {
    if k > 0 {
      UnfilteredUpTo(n, prefix, k - 1);
      var c := n.children[k - 1];
      var last := k - 1 == |n.children| - 1;
      var head := [Row(prefix, Branch(last), c)];
      var sub := if c.isDir then Rows(c, prefix + Indent(last), None, false) else [];
      assert ChildRows(n, prefix, None, false, k - 1) == head + sub;
      RowNodesAppend(RowsUpTo(n, prefix, None, false, k - 1), head + sub);
      RowNodesAppend(head, sub);
      if c.isDir {
        UnfilteredIsPreOrder(c, prefix + Indent(last));
      } else {
        assert c.children == [];
      }
      assert RowNodes(sub) == PreOrder(c)[1..];
      assert RowNodes(head) == [c];
      assert PreOrder(c) == [c] + PreOrder(c)[1..];
    }
  }
}
