/**
 * Searching a syntax tree for every subtree a matcher accepts.
 *
 * `SearchSyntaxTree` is the engine: a depth-first walk that reports a node
 * before anything below it, visits child slots left to right, skips empty
 * slots and keeps descending below a node that matched. It is proved against
 * an independent description of the same list: the positions (`Paths`) of all
 * subtrees, ordered by `PathBefore` (document order), filtered by the matcher.
 */
module TreeSearch {
  import opened Wrappers
  import opened SyntaxTree

  /** A node-kind matcher, `NodekX()`: it accepts the nodes tagged `tag`. */
  datatype Matcher = NodeMatcher(tag: NodeEnum)

  predicate Matches(m: Matcher, t: Tree) {
    HasTag(t, m.tag)
  }

  // ---------------------------------------------------------------------------
  // The search engine

  /** Every subtree of `root` (itself included) that `m` accepts, in pre-order. */
  function SearchSyntaxTree(root: Tree, m: Matcher): seq<Tree>
    decreases root, Arity(root) + 1
  {
    (if Matches(m, root) then [root] else [])
    + (if root.Node? then SearchChildren(root, 0, m) else [])
  }

  /** The matches below the child slots `i..` of `parent`, slot by slot. */
  function SearchChildren(parent: Tree, i: nat, m: Matcher): seq<Tree>
    requires parent.Node? && i <= |parent.children|
    decreases parent, |parent.children| - i
  {
    if i == |parent.children| then []
    else
      (match parent.children[i]
       case None => []
       case Some(c) => SearchSyntaxTree(c, m))
      + SearchChildren(parent, i + 1, m)
  }

  // ---------------------------------------------------------------------------
  // The reference description: positions in document order

  /**
   * Document order on positions: a node comes before everything below it, and
   * a subtree in slot i comes before every subtree in a slot j > i.
   */
  predicate PathBefore(p: seq<nat>, q: seq<nat>)
    decreases |p|
  {
    0 < |q| && (p == [] || p[0] < q[0] || (p[0] == q[0] && PathBefore(p[1..], q[1..])))
  }

  /** Every position in `ps` comes strictly before every later one. */
  predicate StrictlyOrdered(ps: seq<seq<nat>>) {
    forall j, k :: 0 <= j < k < |ps| ==> PathBefore(ps[j], ps[k])
  }

  /**
   * Every subtree of `t`, listed in pre-order. This enumeration follows the
   * search's own recursion, so it is a stepping stone only: the independent
   * description of the search is `LocatesMatchesInPreOrder`, stated with
   * positions, `PathBefore` and a completeness clause.
   */
  function Subtrees(t: Tree): seq<Tree>
    decreases t, Arity(t) + 1
  {
    [t] + (if t.Node? then ChildSubtrees(t, 0) else [])
  }

  function ChildSubtrees(parent: Tree, i: nat): seq<Tree>
    requires parent.Node? && i <= |parent.children|
    decreases parent, |parent.children| - i
  {
    if i == |parent.children| then []
    else
      (match parent.children[i]
       case None => []
       case Some(c) => Subtrees(c))
      + ChildSubtrees(parent, i + 1)
  }

  /** The positions of the subtrees of `t`, in the same order as `Subtrees(t)`. */
  function Paths(t: Tree): seq<seq<nat>>
    decreases t, Arity(t) + 1
  {
    [[]] + (if t.Node? then ChildPaths(t, 0) else [])
  }

  function ChildPaths(parent: Tree, i: nat): seq<seq<nat>>
    requires parent.Node? && i <= |parent.children|
    decreases parent, |parent.children| - i
  {
    if i == |parent.children| then []
    else
      (match parent.children[i]
       case None => []
       case Some(c) => Prefixed(i, Paths(c)))
      + ChildPaths(parent, i + 1)
  }

  /** The positions `ps` of a child, seen from the parent that holds it in slot `i`. */
  function Prefixed(i: nat, ps: seq<seq<nat>>): (r: seq<seq<nat>>)
    ensures |r| == |ps| && forall k :: 0 <= k < |ps| ==> r[k] == [i] + ps[k]
  {
    seq(|ps|, k requires 0 <= k < |ps| => [i] + ps[k])
  }

  /** The trees of `xs` that `m` accepts, in order. */
  function FilterTrees(xs: seq<Tree>, m: Matcher): seq<Tree> {
    if xs == [] then []
    else (if Matches(m, xs[0]) then [xs[0]] else []) + FilterTrees(xs[1..], m)
  }

  /** The positions of `ps` that hold, in `t`, a subtree that `m` accepts. */
  function FilterPaths(t: Tree, ps: seq<seq<nat>>, m: Matcher): seq<seq<nat>> {
    if ps == [] then []
    else
      (if At(t, ps[0]).Some? && Matches(m, At(t, ps[0]).value) then [ps[0]] else [])
      + FilterPaths(t, ps[1..], m)
  }

  /** The positions in `t` of the subtrees `m` accepts, in document order. */
  function MatchPaths(t: Tree, m: Matcher): seq<seq<nat>> {
    FilterPaths(t, Paths(t), m)
  }

  /**
   * `r` holds the subtrees found at the positions `ps`; they are all accepted
   * by `m`, the positions are in strict document order, and no position of `t`
   * holding an accepted subtree is missing.
   */
  ghost predicate LocatesMatchesInPreOrder(t: Tree, m: Matcher, r: seq<Tree>, ps: seq<seq<nat>>) {
    && |ps| == |r|
    && (forall k :: 0 <= k < |ps| ==> At(t, ps[k]) == Some(r[k]))
    && (forall k :: 0 <= k < |r| ==> Matches(m, r[k]))
    && StrictlyOrdered(ps)
    && (forall p :: At(t, p).Some? && Matches(m, At(t, p).value) ==> p in ps)
  }

  /** `r` is the list of all matches of `m` in `t`, in pre-order, left to right. */
  ghost predicate ListsMatchesInPreOrder(t: Tree, m: Matcher, r: seq<Tree>) {
    exists ps :: LocatesMatchesInPreOrder(t, m, r, ps)
  }

  /** `p` is the position of the first subtree of `t`, in document order, that `m` accepts. */
  ghost predicate IsFirstMatch(t: Tree, m: Matcher, p: seq<nat>) {
    && At(t, p).Some?
    && Matches(m, At(t, p).value)
    && forall q :: PathBefore(q, p) && At(t, q).Some? ==> !Matches(m, At(t, q).value)
  }

  // ---------------------------------------------------------------------------
  // Document order

  lemma {:induction false} PathBeforeIrreflexive(p: seq<nat>)
    ensures !PathBefore(p, p)
    decreases |p|
  {
    if p != [] {
      PathBeforeIrreflexive(p[1..]);
    }
  }

  lemma {:induction false} PathBeforeAsymmetric(p: seq<nat>, q: seq<nat>)
    ensures !(PathBefore(p, q) && PathBefore(q, p))
    decreases |p|
  {
    if p != [] && q != [] && p[0] == q[0] {
      PathBeforeAsymmetric(p[1..], q[1..]);
    }
  }

  lemma PrefixedKeepsOrder(i: nat, ps: seq<seq<nat>>)
    requires StrictlyOrdered(ps)
    ensures StrictlyOrdered(Prefixed(i, ps))
  {
  }

  lemma ConcatKeepsOrder(a: seq<seq<nat>>, b: seq<seq<nat>>)
    requires StrictlyOrdered(a) && StrictlyOrdered(b)
    requires forall j, k :: 0 <= j < |a| && 0 <= k < |b| ==> PathBefore(a[j], b[k])
    ensures StrictlyOrdered(a + b)
  {
  }

  /** Every position in `Prefixed(i, ps)` starts with slot `i`. */
  lemma PrefixedStartWith(i: nat, ps: seq<seq<nat>>)
    ensures forall k :: 0 <= k < |Prefixed(i, ps)| ==> 0 < |Prefixed(i, ps)[k]| && Prefixed(i, ps)[k][0] == i
  {
  }

  /** The slots `i..` of `t`, split into the positions below slot `i` and those below slots `i + 1..`. */
  lemma ChildPathsSplit(t: Tree, i: nat)
    requires t.Node? && i < |t.children|
    ensures ChildPaths(t, i) ==
      (if t.children[i].Some? then Prefixed(i, Paths(t.children[i].value)) else []) + ChildPaths(t, i + 1)
  {
  }

  /** Joining the positions below slot `i` to those below slots `i + 1..` keeps document order. */
  lemma JoinSlots(a: seq<seq<nat>>, b: seq<seq<nat>>, i: nat, n: nat)
    requires i < n
    requires StrictlyOrdered(a) && forall k :: 0 <= k < |a| ==> 0 < |a[k]| && a[k][0] == i
    requires StrictlyOrdered(b) && forall k :: 0 <= k < |b| ==> 0 < |b[k]| && i + 1 <= b[k][0] < n
    ensures StrictlyOrdered(a + b)
    ensures forall k :: 0 <= k < |a + b| ==> 0 < |(a + b)[k]| && i <= (a + b)[k][0] < n
  {
  }

  /** The positions below slots `i..` are in document order and all start with a slot `>= i`. */
  lemma {:induction false} ChildPathsOrdered(t: Tree, i: nat)
    requires t.Node? && i <= |t.children|
    ensures StrictlyOrdered(ChildPaths(t, i))
    ensures forall k :: 0 <= k < |ChildPaths(t, i)| ==>
      0 < |ChildPaths(t, i)[k]| && i <= ChildPaths(t, i)[k][0] < |t.children|
    decreases t, |t.children| - i
  {
    if i < |t.children| {
      ChildPathsOrdered(t, i + 1);
      ChildPathsSplit(t, i);
      var a: seq<seq<nat>> := if t.children[i].Some? then Prefixed(i, Paths(t.children[i].value)) else [];
      if t.children[i].Some? {
        PathsOrdered(t.children[i].value);
        PrefixedKeepsOrder(i, Paths(t.children[i].value));
        PrefixedStartWith(i, Paths(t.children[i].value));
      }
      JoinSlots(a, ChildPaths(t, i + 1), i, |t.children|);
    }
  }

  /** The positions of `t` are listed in strict document order. */
  lemma {:induction false} PathsOrdered(t: Tree)
    ensures StrictlyOrdered(Paths(t))
    decreases t, Arity(t) + 1
  {
    if t.Node? {
      ChildPathsOrdered(t, 0);
      ConcatKeepsOrder([[]], ChildPaths(t, 0));
    }
  }

  // ---------------------------------------------------------------------------
  // The positions and the subtrees correspond

  lemma ChildSubtreesSplit(t: Tree, i: nat)
    requires t.Node? && i < |t.children|
    ensures ChildSubtrees(t, i) ==
      (if t.children[i].Some? then Subtrees(t.children[i].value) else []) + ChildSubtrees(t, i + 1)
  {
  }

  /** Positions in a child, seen from its parent, still hold the same subtrees. */
  lemma PrefixedLocate(t: Tree, i: nat, ps: seq<seq<nat>>, xs: seq<Tree>)
    requires t.Node? && i < |t.children| && t.children[i].Some?
    requires |ps| == |xs|
    requires forall k :: 0 <= k < |ps| ==> At(t.children[i].value, ps[k]) == Some(xs[k])
    ensures forall k :: 0 <= k < |ps| ==> At(t, Prefixed(i, ps)[k]) == Some(xs[k])
  {
  }

  lemma ConcatLocate(t: Tree, ps: seq<seq<nat>>, xs: seq<Tree>, qs: seq<seq<nat>>, ys: seq<Tree>)
    requires |ps| == |xs| && |qs| == |ys|
    requires forall k :: 0 <= k < |ps| ==> At(t, ps[k]) == Some(xs[k])
    requires forall k :: 0 <= k < |qs| ==> At(t, qs[k]) == Some(ys[k])
    ensures forall k :: 0 <= k < |ps + qs| ==> At(t, (ps + qs)[k]) == Some((xs + ys)[k])
  {
  }

  lemma {:induction false} ChildPathsLocateSubtrees(t: Tree, i: nat)
    requires t.Node? && i <= |t.children|
    ensures |ChildPaths(t, i)| == |ChildSubtrees(t, i)|
    ensures forall k :: 0 <= k < |ChildPaths(t, i)| ==> At(t, ChildPaths(t, i)[k]) == Some(ChildSubtrees(t, i)[k])
    decreases t, |t.children| - i
  {
    if i < |t.children| {
      ChildPathsLocateSubtrees(t, i + 1);
      ChildPathsSplit(t, i);
      ChildSubtreesSplit(t, i);
      if t.children[i].Some? {
        var c := t.children[i].value;
        PathsLocateSubtrees(c);
        PrefixedLocate(t, i, Paths(c), Subtrees(c));
        ConcatLocate(t, Prefixed(i, Paths(c)), Subtrees(c), ChildPaths(t, i + 1), ChildSubtrees(t, i + 1));
      } else {
        ConcatLocate(t, [], [], ChildPaths(t, i + 1), ChildSubtrees(t, i + 1));
      }
    }
  }

  /** Position k of `Paths(t)` holds subtree k of `Subtrees(t)`. */
  lemma {:induction false} PathsLocateSubtrees(t: Tree)
    ensures |Paths(t)| == |Subtrees(t)|
    ensures forall k :: 0 <= k < |Paths(t)| ==> At(t, Paths(t)[k]) == Some(Subtrees(t)[k])
    decreases t, Arity(t) + 1
  {
    if t.Node? {
      ChildPathsLocateSubtrees(t, 0);
    }
  }

  lemma {:induction false} ChildPathsContain(t: Tree, i: nat, j: nat, rest: seq<nat>)
    requires t.Node? && i <= j < |t.children| && t.children[j].Some?
    requires rest in Paths(t.children[j].value)
    ensures [j] + rest in ChildPaths(t, i)
    decreases j - i
  {
    if i == j {
      var ps := Paths(t.children[j].value);
      var k :| 0 <= k < |ps| && ps[k] == rest;
      assert Prefixed(j, ps)[k] == [j] + rest;
    } else {
      ChildPathsContain(t, i + 1, j, rest);
    }
  }

  /** Every position of `t` that holds a subtree is listed in `Paths(t)`. */
  lemma {:induction false} PathsComplete(t: Tree, p: seq<nat>)
    requires At(t, p).Some?
    ensures p in Paths(t)
    decreases |p|
  {
    if p == [] {
      assert Paths(t)[0] == p;
    } else {
      var c := t.children[p[0]].value;
      PathsComplete(c, p[1..]);
      ChildPathsContain(t, 0, p[0], p[1..]);
      assert [p[0]] + p[1..] == p;
    }
  }

  // ---------------------------------------------------------------------------
  // Filtering

  lemma {:induction false} FilterTreesConcat(a: seq<Tree>, b: seq<Tree>, m: Matcher)
    ensures FilterTrees(a + b, m) == FilterTrees(a, m) + FilterTrees(b, m)
    decreases |a|
  {
    if a == [] {
      assert a + b == b;
    } else {
      assert (a + b)[0] == a[0] && (a + b)[1..] == a[1..] + b;
      FilterTreesConcat(a[1..], b, m);
    }
  }

  lemma {:induction false} FilterPathsKeepsOrder(t: Tree, ps: seq<seq<nat>>, m: Matcher)
    requires StrictlyOrdered(ps)
    ensures StrictlyOrdered(FilterPaths(t, ps, m))
    ensures forall p :: p in FilterPaths(t, ps, m) <==> p in ps && At(t, p).Some? && Matches(m, At(t, p).value)
    decreases |ps|
  {
    if ps != [] {
      var rest := ps[1..];
      assert StrictlyOrdered(rest) by {
        forall j, k | 0 <= j < k < |rest| ensures PathBefore(rest[j], rest[k]) {
          assert rest[j] == ps[j + 1] && rest[k] == ps[k + 1];
        }
      }
      FilterPathsKeepsOrder(t, rest, m);
      var head := if At(t, ps[0]).Some? && Matches(m, At(t, ps[0]).value) then [ps[0]] else [];
      var tail := FilterPaths(t, rest, m);
      forall j, k | 0 <= j < |head| && 0 <= k < |tail| ensures PathBefore(head[j], tail[k]) {
        assert tail[k] in tail;
        var n :| 0 <= n < |rest| && rest[n] == tail[k];
        assert ps[n + 1] == tail[k];
      }
      ConcatKeepsOrder(head, tail);
      forall p ensures p in ps <==> p == ps[0] || p in rest {
        if p in ps {
          var n :| 0 <= n < |ps| && ps[n] == p;
          if n > 0 { assert rest[n - 1] == p; }
        }
      }
    }
  }

  /** Filtering positions and filtering the subtrees they hold keep them aligned. */
  lemma {:induction false} FilterKeepsCorrespondence(t: Tree, xs: seq<Tree>, ps: seq<seq<nat>>, m: Matcher)
    requires |xs| == |ps|
    requires forall k :: 0 <= k < |ps| ==> At(t, ps[k]) == Some(xs[k])
    ensures |FilterTrees(xs, m)| == |FilterPaths(t, ps, m)|
    ensures forall k :: 0 <= k < |FilterPaths(t, ps, m)| ==> At(t, FilterPaths(t, ps, m)[k]) == Some(FilterTrees(xs, m)[k])
    decreases |ps|
  {
    if ps != [] {
      assert At(t, ps[0]) == Some(xs[0]);
      forall k | 0 <= k < |ps[1..]| ensures At(t, ps[1..][k]) == Some(xs[1..][k]) {
        assert ps[1..][k] == ps[k + 1] && xs[1..][k] == xs[k + 1];
      }
      FilterKeepsCorrespondence(t, xs[1..], ps[1..], m);
    }
  }

  lemma {:induction false} FilterTreesAllMatch(xs: seq<Tree>, m: Matcher)
    ensures forall k :: 0 <= k < |FilterTrees(xs, m)| ==> Matches(m, FilterTrees(xs, m)[k])
    decreases |xs|
  {
    if xs != [] {
      FilterTreesAllMatch(xs[1..], m);
      var head := if Matches(m, xs[0]) then [xs[0]] else [];
      var tail := FilterTrees(xs[1..], m);
      forall k | 0 <= k < |head + tail| ensures Matches(m, (head + tail)[k]) {
        if k >= |head| { assert (head + tail)[k] == tail[k - |head|]; }
      }
    }
  }

  // ---------------------------------------------------------------------------
  // The engine meets its description

  lemma SearchChildrenSplit(t: Tree, i: nat, m: Matcher)
    requires t.Node? && i < |t.children|
    ensures SearchChildren(t, i, m) ==
      (if t.children[i].Some? then SearchSyntaxTree(t.children[i].value, m) else []) + SearchChildren(t, i + 1, m)
  {
  }

  lemma {:induction false} SearchChildrenIsFiltered(t: Tree, i: nat, m: Matcher)
    requires t.Node? && i <= |t.children|
    ensures SearchChildren(t, i, m) == FilterTrees(ChildSubtrees(t, i), m)
    decreases t, |t.children| - i
  {
    if i < |t.children| {
      var slot := t.children[i];
      var here: seq<Tree> := if slot.Some? then Subtrees(slot.value) else [];
      var found: seq<Tree> := if slot.Some? then SearchSyntaxTree(slot.value, m) else [];
      SearchChildrenSplit(t, i, m);
      ChildSubtreesSplit(t, i);
      assert found == FilterTrees(here, m) by {
        if slot.Some? {
          SearchIsFilteredSubtrees(slot.value, m);
        }
      }
      SearchChildrenIsFiltered(t, i + 1, m);
      FilterTreesConcat(here, ChildSubtrees(t, i + 1), m);
    }
  }

  /** The engine reports exactly the subtrees of the pre-order enumeration that `m` accepts. */
  lemma {:induction false} SearchIsFilteredSubtrees(t: Tree, m: Matcher)
    ensures SearchSyntaxTree(t, m) == FilterTrees(Subtrees(t), m)
    decreases t, Arity(t) + 1
  {
    var below := if t.Node? then ChildSubtrees(t, 0) else [];
    if t.Node? {
      SearchChildrenIsFiltered(t, 0, m);
    }
    FilterTreesConcat([t], below, m);
    assert FilterTrees([t], m) == if Matches(m, t) then [t] else [];
  }

  /**
   * Search completeness and order: the engine returns the subtrees at exactly
   * the positions holding a match, and those positions are in document order.
   */
  lemma SearchLocatesMatches(t: Tree, m: Matcher)
    ensures LocatesMatchesInPreOrder(t, m, SearchSyntaxTree(t, m), MatchPaths(t, m))
  {
    SearchIsFilteredSubtrees(t, m);
    PathsLocateSubtrees(t);
    PathsOrdered(t);
    FilterKeepsCorrespondence(t, Subtrees(t), Paths(t), m);
    FilterPathsKeepsOrder(t, Paths(t), m);
    FilterTreesAllMatch(Subtrees(t), m);
    forall p | At(t, p).Some? && Matches(m, At(t, p).value) ensures p in MatchPaths(t, m) {
      PathsComplete(t, p);
    }
  }

  lemma SearchListsMatchesInPreOrder(t: Tree, m: Matcher)
    ensures ListsMatchesInPreOrder(t, m, SearchSyntaxTree(t, m))
  {
    SearchLocatesMatches(t, m);
  }

  /** Two strictly ordered lists of positions with the same members are the same list. */
  lemma {:induction false} OrderedListsWithSameMembersAreEqual(a: seq<seq<nat>>, b: seq<seq<nat>>)
    requires StrictlyOrdered(a) && StrictlyOrdered(b)
    requires forall p :: p in a <==> p in b
    ensures a == b
    decreases |a|
  {
    if a != [] { assert a[0] in a; }
    if b != [] { assert b[0] in b; }
    if a != [] && b != [] {
      assert a[0] == b[0] by {
        if a[0] != b[0] {
          assert a[0] in b;
          var j :| 0 <= j < |b| && b[j] == a[0];
          assert b[0] in a;
          var i :| 0 <= i < |a| && a[i] == b[0];
          PathBeforeAsymmetric(a[0], b[0]);
        }
      }
      var a', b' := a[1..], b[1..];
      assert StrictlyOrdered(a') by {
        forall j, k | 0 <= j < k < |a'| ensures PathBefore(a'[j], a'[k]) {
          assert a'[j] == a[j + 1] && a'[k] == a[k + 1];
        }
      }
      assert StrictlyOrdered(b') by {
        forall j, k | 0 <= j < k < |b'| ensures PathBefore(b'[j], b'[k]) {
          assert b'[j] == b[j + 1] && b'[k] == b[k + 1];
        }
      }
      forall p ensures p in a' <==> p in b' {
        TailMembership(a, p);
        TailMembership(b, p);
      }
      OrderedListsWithSameMembersAreEqual(a', b');
      assert a == [a[0]] + a' && b == [b[0]] + b';
    }
  }

  lemma TailMembership(a: seq<seq<nat>>, p: seq<nat>)
    requires StrictlyOrdered(a) && a != []
    ensures p in a[1..] <==> p in a && p != a[0]
  {
    if p in a[1..] {
      var n :| 0 <= n < |a[1..]| && a[1..][n] == p;
      assert a[n + 1] == p;
      PathBeforeIrreflexive(a[0]);
    }
    if p in a && p != a[0] {
      var n :| 0 <= n < |a| && a[n] == p;
      assert a[1..][n - 1] == p;
    }
  }

  /** The description determines the list: at most one list of matches is in pre-order. */
  lemma MatchListIsUnique(t: Tree, m: Matcher, r1: seq<Tree>, r2: seq<Tree>)
    requires ListsMatchesInPreOrder(t, m, r1) && ListsMatchesInPreOrder(t, m, r2)
    ensures r1 == r2
  {
    var ps1 :| LocatesMatchesInPreOrder(t, m, r1, ps1);
    var ps2 :| LocatesMatchesInPreOrder(t, m, r2, ps2);
    forall p ensures p in ps1 <==> p in ps2 {
      if p in ps1 {
        var k :| 0 <= k < |ps1| && ps1[k] == p;
        assert At(t, p) == Some(r1[k]);
      }
      if p in ps2 {
        var k :| 0 <= k < |ps2| && ps2[k] == p;
        assert At(t, p) == Some(r2[k]);
      }
    }
    OrderedListsWithSameMembersAreEqual(ps1, ps2);
    forall k | 0 <= k < |r1| ensures r1[k] == r2[k] {
      assert At(t, ps1[k]) == Some(r1[k]) && At(t, ps2[k]) == Some(r2[k]);
    }
  }

  /** A subtree is reported exactly when it is accepted and occurs in the tree. */
  lemma SearchMembership(t: Tree, m: Matcher, x: Tree)
    ensures x in SearchSyntaxTree(t, m) <==> Matches(m, x) && Reachable(t, x)
  {
    var r, ps := SearchSyntaxTree(t, m), MatchPaths(t, m);
    SearchLocatesMatches(t, m);
    if x in r {
      var k :| 0 <= k < |r| && r[k] == x;
      assert At(t, ps[k]) == Some(x);
    }
    if Matches(m, x) && Reachable(t, x) {
      var p :| At(t, p) == Some(x);
      assert p in ps;
      var k :| 0 <= k < |ps| && ps[k] == p;
      assert At(t, ps[k]) == Some(r[k]);
    }
  }

  /** The search is empty exactly when no subtree of the tree is accepted. */
  lemma SearchEmptyIff(t: Tree, m: Matcher)
    ensures SearchSyntaxTree(t, m) == [] <==> forall x :: Reachable(t, x) ==> !Matches(m, x)
  {
    var r := SearchSyntaxTree(t, m);
    if r != [] {
      SearchMembership(t, m, r[0]);
    }
    forall x | Reachable(t, x) && Matches(m, x) ensures r != [] {
      SearchMembership(t, m, x);
    }
  }

  /** The first reported subtree is the one at the first matching position. */
  lemma SearchHeadIsFirstMatch(t: Tree, m: Matcher)
    ensures |MatchPaths(t, m)| == |SearchSyntaxTree(t, m)|
    ensures SearchSyntaxTree(t, m) != [] ==> IsFirstMatch(t, m, MatchPaths(t, m)[0])
    ensures forall p :: IsFirstMatch(t, m, p) ==>
      SearchSyntaxTree(t, m) != [] && p == MatchPaths(t, m)[0] && At(t, p) == Some(SearchSyntaxTree(t, m)[0])
  {
    var r, ps := SearchSyntaxTree(t, m), MatchPaths(t, m);
    SearchLocatesMatches(t, m);
    if r != [] {
      forall q | PathBefore(q, ps[0]) && At(t, q).Some? ensures !Matches(m, At(t, q).value) {
        if Matches(m, At(t, q).value) {
          var k :| 0 <= k < |ps| && ps[k] == q;
          if k == 0 {
            PathBeforeIrreflexive(q);
          } else {
            PathBeforeAsymmetric(ps[0], q);
          }
        }
      }
    }
    forall p | IsFirstMatch(t, m, p)
      ensures r != [] && p == ps[0] && At(t, p) == Some(r[0])
    {
      assert p in ps;
      var k :| 0 <= k < |ps| && ps[k] == p;
      var first := ps[0];
      assert At(t, first) == Some(r[0]);
      assert k > 0 ==> PathBefore(first, p);
    }
  }
}
