/**
 * `searchDFS` (`SearchDFS`): a pre-order walk that prints the path of every
 * node whose lower-cased name contains the lower-cased query. The printed
 * lines are returned in order instead of written to standard output.
 */
module Search {
  import opened Fs
  import opened Tree

  /** Lower-casing of one character; only ASCII letters change. */
  function LowerChar(c: char): char {
    if 'A' <= c <= 'Z' then (c as int + 32) as char else c
  }

  function ToLower(s: string): string {
    seq(|s|, i requires 0 <= i < |s| => LowerChar(s[i]))
  }

  /** `t` occurs in `s` starting at index i. */
  predicate OccursAt(s: string, t: string, i: int) {
    0 <= i && i + |t| <= |s| && s[i..i + |t|] == t
  }

  /** `strings.Contains`: `t` is a prefix of `s` or of one of its suffixes. */
  predicate Contains(s: string, t: string)
    decreases |s|
  {
    (|t| <= |s| && s[..|t|] == t) || (s != [] && Contains(s[1..], t))
  }

  /** The node's line is printed. */
  predicate Matches(n: Node, query: string) {
    Contains(ToLower(n.name), ToLower(query))
  }

  /** The paths of the nodes of `ns` that match, in the order of `ns`. */
  function Hits(ns: seq<Node>, query: string): seq<Path>
    decreases |ns|
  {
    if ns == [] then []
    else (if Matches(ns[0], query) then [ns[0].path] else []) + Hits(ns[1..], query)
  }

  /** One call prints its own line, if any, then those of each child's call
      in turn. */
  method SearchDFS(node: Node, query: string) returns (out: seq<Path>)
    ensures out == Hits(PreOrder(node), query)
    decreases node
  {
    out := [];
    if Contains(ToLower(node.name), ToLower(query)) {
      out := [node.path];
    }
    assert Hits([node], query) == out;
    for i := 0 to |node.children|
      invariant out == Hits([node] + Forest(node, i), query)
    {
      var lines := SearchDFS(node.children[i], query);
      HitsAppend([node] + Forest(node, i), PreOrder(node.children[i]), query);
      assert [node] + Forest(node, i + 1) == [node] + Forest(node, i) + PreOrder(node.children[i]);
      out := out + lines;
    }
  }

  // ---------------------------------------------------------------------
  // Properties

  /** An occurrence in the tail is an occurrence one place later. */
  lemma OccursShiftUp(s: string, t: string, i: int)
    requires s != [] && OccursAt(s[1..], t, i)
    ensures OccursAt(s, t, i + 1)
  {
    assert s[1..][i..i + |t|] == s[i + 1..i + 1 + |t|];
  }

  /** An occurrence past the head is an occurrence in the tail. */
  lemma OccursShiftDown(s: string, t: string, i: int)
    requires OccursAt(s, t, i) && i != 0
    ensures OccursAt(s[1..], t, i - 1)
  {
    assert s[1..][i - 1..i - 1 + |t|] == s[i..i + |t|];
  }

  /** `Contains` agrees with the positional definition of a substring. */
  lemma {:induction false} ContainsIff(s: string, t: string)
    ensures Contains(s, t) <==> exists i :: OccursAt(s, t, i)
    decreases |s|
  {
    if |t| <= |s| && s[..|t|] == t {
      assert OccursAt(s, t, 0);
    } else if s != [] {
      ContainsIff(s[1..], t);
      if i :| OccursAt(s[1..], t, i) {
        OccursShiftUp(s, t, i);
      }
      if i :| OccursAt(s, t, i) {
        OccursShiftDown(s, t, i);
      }
    } else {
      assert !Contains(s, t);
    }
  }

  /** The empty query is contained in every name. */
  lemma ContainsEmpty(s: string)
    ensures Contains(s, "")
  {
    assert OccursAt(s, "", 0);
    ContainsIff(s, "");
  }

  lemma LowerCharIdempotent(c: char)
    ensures LowerChar(LowerChar(c)) == LowerChar(c)
  {
  }

  /** Lower-casing twice is lower-casing once. */
  lemma ToLowerIdempotent(s: string)
    ensures ToLower(ToLower(s)) == ToLower(s)
  {
    var once := ToLower(s);
    forall i | 0 <= i < |s| ensures ToLower(once)[i] == once[i] {
      LowerCharIdempotent(s[i]);
    }
  }

  /** The output of a concatenation is the outputs of the parts, in order:
      pre-order over a forest is pre-order over each tree in turn. */
  lemma {:induction false} HitsAppend(a: seq<Node>, b: seq<Node>, query: string)
    ensures Hits(a + b, query) == Hits(a, query) + Hits(b, query)
    decreases |a|
  {
    if a != [] {
      assert (a + b)[1..] == a[1..] + b;
      HitsAppend(a[1..], b, query);
    } else {
      assert a + b == b;
    }
  }

  /** A path is printed exactly when some node carrying it matches. */
  lemma {:induction false} HitsMembership(ns: seq<Node>, query: string, p: Path)
    ensures p in Hits(ns, query) <==> exists i :: 0 <= i < |ns| && ns[i].path == p && Matches(ns[i], query)
    decreases |ns|
  {
    if ns != [] {
      HitsMembership(ns[1..], query, p);
      if i :| 0 <= i < |ns[1..]| && ns[1..][i].path == p && Matches(ns[1..][i], query) {
        assert ns[i + 1] == ns[1..][i];
      }
      if i :| 0 <= i < |ns| && ns[i].path == p && Matches(ns[i], query) {
        if i > 0 {
          assert ns[1..][i - 1] == ns[i];
        }
      }
    }
  }

  /** At most one line per node. */
  lemma {:induction false} HitsBound(ns: seq<Node>, query: string)
    ensures |Hits(ns, query)| <= |ns|
    decreases |ns|
  {
    if ns != [] {
      HitsBound(ns[1..], query);
    }
  }

  /** The empty query prints every node's path, in pre-order. */
  lemma {:induction false} EmptyQueryHitsAll(ns: seq<Node>)
    ensures Hits(ns, "") == PathsOf(ns)
    decreases |ns|
  {
    if ns != [] {
      ContainsEmpty(ToLower(ns[0].name));
      assert ToLower("") == "";
      EmptyQueryHitsAll(ns[1..]);
      assert PathsOf(ns) == [ns[0].path] + PathsOf(ns[1..]);
    }
  }

  /** A query no node matches prints nothing. */
  lemma {:induction false} NoMatchNoOutput(ns: seq<Node>, query: string)
    requires forall i :: 0 <= i < |ns| ==> !Matches(ns[i], query)
    ensures Hits(ns, query) == []
    decreases |ns|
  {
    if ns != [] {
      NoMatchNoOutput(ns[1..], query);
    }
  }

  /** A matching root is printed first. */
  lemma RootFirst(n: Node, query: string)
    requires Matches(n, query)
    ensures var out := Hits(PreOrder(n), query); |out| >= 1 && out[0] == n.path
  {
    var ns := PreOrder(n);
    assert ns[0] == n;
  }

  /** The query's case does not matter. */
  lemma {:induction false} CaseInsensitive(ns: seq<Node>, query: string)
    ensures Hits(ns, query) == Hits(ns, ToLower(query))
    decreases |ns|
  {
    ToLowerIdempotent(query);
    if ns != [] {
      CaseInsensitive(ns[1..], query);
    }
  }

  /** A whole search prints at most one line per node, and with the empty
      query exactly one. */
  lemma SearchLineCount(n: Node, query: string)
    ensures |Hits(PreOrder(n), query)| <= |PreOrder(n)|
    ensures |Hits(PreOrder(n), "")| == |PreOrder(n)|
  {
    HitsBound(PreOrder(n), query);
    EmptyQueryHitsAll(PreOrder(n));
  }

  // ---------------------------------------------------------------------
  // Helpers for concrete names and queries

  /** Lower-casing leaves a name without capitals unchanged. */
  lemma ToLowerOfLower(s: string)
    requires forall i :: 0 <= i < |s| ==> !('A' <= s[i] <= 'Z')
    ensures ToLower(s) == s
  {
  }

  /** Lower-casing does not bring in a lower-case letter that the name holds
      in neither case. */
  lemma LowerMissing(s: string, c: char)
    requires 'a' <= c <= 'z' && c !in s && (c as int - 32) as char !in s
    ensures c !in ToLower(s)
  {
    forall i | 0 <= i < |s| ensures ToLower(s)[i] != c {
      assert s[i] != c && s[i] != (c as int - 32) as char;
    }
  }

  /** A query holding a character the name lacks is not contained in it. */
  lemma MissingCharNotContained(s: string, t: string, c: char)
    requires c in t && c !in s
    ensures !Contains(s, t)
  {
    ContainsIff(s, t);
  }
}
