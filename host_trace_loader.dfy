/**
 * Flattening of a Chakra host execution trace: every operator reachable
 * from the root is collected by a recursive pre-order walk and the
 * collection is then ordered by operator id, stably.
 */
module HostTraceLoader {

  /** A host operator: its id and its child operators, in trace order. */
  datatype Node = Node(id: int, children: seq<Node>)

  /** Pre-order listing of the tree below `n`: the node, then each child's listing in turn. */
  function PreOrder(n: Node): (r: seq<Node>)
    decreases n
    ensures |r| > 0 && r[0] == n
  {
    [n] + PreOrderList(n.children)
  }

  /** The pre-order listings of a sequence of sibling trees, concatenated left to right. */
  function PreOrderList(cs: seq<Node>): (r: seq<Node>)
    decreases cs
    ensures r == [] <==> cs == []
  {
    if cs == [] then []
    else PreOrderList(cs[..|cs| - 1]) + PreOrder(cs[|cs| - 1])
  }

  /** Number of operators in the tree below `n`, `n` included. */
  function Size(n: Node): nat
    decreases n
  {
    1 + SizeList(n.children)
  }

  /** Number of operators in a sequence of sibling trees. */
  function SizeList(cs: seq<Node>): nat
    decreases cs
  {
    if cs == [] then 0
    else SizeList(cs[..|cs| - 1]) + Size(cs[|cs| - 1])
  }

  lemma ConcatAssociative(a: seq<Node>, b: seq<Node>, c: seq<Node>)
    ensures a + (b + c) == (a + b) + c
  {
  }

  lemma {:induction false} PreOrderListAppend(a: seq<Node>, b: seq<Node>)
    ensures PreOrderList(a + b) == PreOrderList(a) + PreOrderList(b)
    decreases |b|
  {
    if b == [] {
      assert a + b == a;
    } else {
      var n := |b| - 1;
      var ab := a + b;
      assert ab[..|ab| - 1] == a + b[..n] && ab[|ab| - 1] == b[n];
      PreOrderListAppend(a, b[..n]);
      calc {
        PreOrderList(ab);
        PreOrderList(a + b[..n]) + PreOrder(b[n]);
        (PreOrderList(a) + PreOrderList(b[..n])) + PreOrder(b[n]);
        { ConcatAssociative(PreOrderList(a), PreOrderList(b[..n]), PreOrder(b[n])); }
        PreOrderList(a) + (PreOrderList(b[..n]) + PreOrder(b[n]));
        PreOrderList(a) + PreOrderList(b);
      }
    }
  }

  /** The walk lists every operator of the tree exactly as often as the tree holds it. */
  lemma {:induction false} PreOrderLength(n: Node)
    ensures |PreOrder(n)| == Size(n)
    decreases n
  {
    PreOrderListLength(n.children);
  }

  lemma {:induction false} PreOrderListLength(cs: seq<Node>)
    ensures |PreOrderList(cs)| == SizeList(cs)
    decreases cs
  {
    if cs != [] {
      PreOrderListLength(cs[..|cs| - 1]);
      PreOrderLength(cs[|cs| - 1]);
    }
  }

  /**
   * Pre-order layout: a node comes first, and the listing of its `j`-th
   * child occupies the consecutive positions right after the node and the
   * listings of the earlier children.
   */
  lemma PreOrderLayout(n: Node, j: nat)
    requires j < |n.children|
    ensures PreOrder(n)[0] == n
    ensures var start := 1 + SizeList(n.children[..j]);
      && start + Size(n.children[j]) <= |PreOrder(n)|
      && PreOrder(n)[start..start + Size(n.children[j])] == PreOrder(n.children[j])
  {
    var cs := n.children;
    var before, after := cs[..j], cs[j + 1..];
    assert cs == before + [cs[j]] + after;
    PreOrderListAppend(before + [cs[j]], after);
    PreOrderListAppend(before, [cs[j]]);
    assert PreOrderList([cs[j]]) == PreOrder(cs[j]) by {
      assert [cs[j]][..0] == [];
    }
    PreOrderListLength(before);
    PreOrderLength(cs[j]);
    PreOrderLength(n);
    var start := 1 + SizeList(before);
    var listing := PreOrder(n);
    assert listing == [n] + PreOrderList(before) + PreOrder(cs[j]) + PreOrderList(after);
    assert listing[start..start + Size(cs[j])] == PreOrder(cs[j]);
  }

  lemma SliceMember(s: seq<Node>, i: nat, j: nat, x: Node)
    requires i <= j <= |s| && x in s[i..j]
    ensures x in s
  {
    var k :| 0 <= k < j - i && s[i..j][k] == x;
    assert s[i + k] == x;
  }

  /** Every child's whole subtree is part of its parent's listing, and so is the root itself. */
  lemma ChildListingIncluded(n: Node, j: nat, x: Node)
    requires j < |n.children| && x in PreOrder(n.children[j])
    ensures x in PreOrder(n)
    ensures n in PreOrder(n)
  {
    PreOrderLayout(n, j);
    var start := 1 + SizeList(n.children[..j]);
    SliceMember(PreOrder(n), start, start + Size(n.children[j]), x);
  }

  /**
   * The nested `traverse`: appends `node` to the collected list and then
   * walks its children in order. The list the closure mutates is threaded
   * through as a value.
   */
  method Traverse(node: Node, nodes: seq<Node>) returns (collected: seq<Node>)
    ensures collected == nodes + PreOrder(node)
    decreases node
  {
    collected := nodes + [node];
    for i := 0 to |node.children|
      invariant collected == nodes + [node] + PreOrderList(node.children[..i])
    {
      var child := node.children[i];
      collected := Traverse(child, collected);
      assert node.children[..i + 1][..i] == node.children[..i];
    }
    assert node.children[..|node.children|] == node.children;
  }

  /** Non-decreasing by id. */
  predicate SortedById(s: seq<Node>)
  {
    forall i, j :: 0 <= i < j < |s| ==> s[i].id <= s[j].id
  }

  /** Strictly increasing by id. */
  predicate StrictlySortedById(s: seq<Node>)
  {
    forall i, j :: 0 <= i < j < |s| ==> s[i].id < s[j].id
  }

  /** No two positions hold operators with the same id. */
  predicate DistinctIds(s: seq<Node>)
  {
    forall i, j :: 0 <= i < j < |s| ==> s[i].id != s[j].id
  }

  /** The operators of `s` with id `k`, in their order in `s`. */
  function WithId(s: seq<Node>, k: int): (r: seq<Node>)
    ensures |r| <= |s|
  {
    if s == [] then []
    else (if s[0].id == k then [s[0]] else []) + WithId(s[1..], k)
  }

  /** `WithId` keeps exactly the operators of `s` whose id is `k`. */
  lemma {:induction false} WithIdMembers(s: seq<Node>, k: int, x: Node)
    ensures x in WithId(s, k) <==> x in s && x.id == k
  {
    if s != [] {
      WithIdMembers(s[1..], k, x);
      assert s == [s[0]] + s[1..];
    }
  }

  /**
   * Inserts `e` after every operator whose id is not greater than its own:
   * the stable insertion sort of `Listing.InsertByName`, keyed on ids.
   */
  function InsertById(e: Node, s: seq<Node>): (r: seq<Node>)
    ensures multiset(r) == multiset(s) + multiset{e}
  {
    if s == [] then [e]
    else if e.id < s[0].id then [e] + s
    else
      assert s == [s[0]] + s[1..];
      [s[0]] + InsertById(e, s[1..])
  }

  /** `sorted(nodes, key=lambda x: x.id)`: a stable sort by id. */
  function SortById(s: seq<Node>): (r: seq<Node>)
    ensures multiset(r) == multiset(s)
  {
    if s == [] then []
    else
      var n := |s| - 1;
      assert s == s[..n] + [s[n]];
      InsertById(s[n], SortById(s[..n]))
  }

  lemma SortedTail(s: seq<Node>)
    requires SortedById(s) && s != []
    ensures SortedById(s[1..])
    ensures forall y :: y in s[1..] ==> s[0].id <= y.id
  {
    forall y | y in s[1..]
      ensures s[0].id <= y.id
    {
      var i :| 0 <= i < |s[1..]| && s[1..][i] == y;
      assert s[i + 1] == y;
    }
  }

  lemma ConsSorted(x: Node, t: seq<Node>)
    requires SortedById(t)
    requires forall y :: y in t ==> x.id <= y.id
    ensures SortedById([x] + t)
  {
    var r := [x] + t;
    forall i, j | 0 <= i < j < |r|
      ensures r[i].id <= r[j].id
    {
      assert r[j] == t[j - 1];
      if i > 0 {
        assert r[i] == t[i - 1];
      } else {
        assert t[j - 1] in t;
      }
    }
  }

  lemma InsertByIdMembers(e: Node, s: seq<Node>)
    ensures forall y :: y in InsertById(e, s) ==> y == e || y in s
  {
    forall y | y in InsertById(e, s)
      ensures y == e || y in s
    {
      assert y in multiset(InsertById(e, s));
    }
  }

  lemma {:induction false} InsertByIdSorted(e: Node, s: seq<Node>)
    requires SortedById(s)
    ensures SortedById(InsertById(e, s))
    decreases |s|
  {
    if s == [] {
    } else if e.id < s[0].id {
      forall y | y in s
        ensures e.id <= y.id
      {
        var i :| 0 <= i < |s| && s[i] == y;
        if i > 0 {
          assert s[0].id <= s[i].id;
        }
      }
      ConsSorted(e, s);
    } else {
      SortedTail(s);
      var rest := InsertById(e, s[1..]);
      InsertByIdSorted(e, s[1..]);
      InsertByIdMembers(e, s[1..]);
      ConsSorted(s[0], rest);
    }
  }

  /** The result of the sort is ordered by id and holds exactly the operators it was given. */
  lemma {:induction false} SortByIdSorted(s: seq<Node>)
    ensures SortedById(SortById(s))
    ensures multiset(SortById(s)) == multiset(s)
    decreases |s|
  {
    if s != [] {
      var n := |s| - 1;
      SortByIdSorted(s[..n]);
      InsertByIdSorted(s[n], SortById(s[..n]));
    }
  }

  lemma {:induction false} WithIdAppend(a: seq<Node>, b: seq<Node>, k: int)
    ensures WithId(a + b, k) == WithId(a, k) + WithId(b, k)
    decreases |a|
  {
    if a == [] {
      assert a + b == b;
    } else {
      var ab := a + b;
      assert ab[0] == a[0] && ab[1..] == a[1..] + b;
      WithIdAppend(a[1..], b, k);
      var h := if a[0].id == k then [a[0]] else [];
      calc {
        WithId(ab, k);
        h + WithId(a[1..] + b, k);
        h + (WithId(a[1..], k) + WithId(b, k));
        (h + WithId(a[1..], k)) + WithId(b, k);
      }
    }
  }

  lemma {:induction false} WithIdAbove(s: seq<Node>, k: int)
    requires SortedById(s) && s != [] && k < s[0].id
    ensures WithId(s, k) == []
    decreases |s|
  {
    if |s| > 1 {
      WithIdAbove(s[1..], k);
    }
  }

  lemma WithIdCons(x: Node, s: seq<Node>, k: int)
    ensures WithId([x] + s, k) == (if x.id == k then [x] else []) + WithId(s, k)
  {
    assert ([x] + s)[1..] == s;
  }

  /** Inserting before a larger first operator: `e` lands in front of the operators of `s`. */
  lemma InsertByIdStableFront(e: Node, s: seq<Node>, k: int)
    requires SortedById(s) && s != [] && e.id < s[0].id
    ensures WithId(InsertById(e, s), k) == WithId(s, k) + (if e.id == k then [e] else [])
  {
    assert InsertById(e, s) == [e] + s;
    if e.id == k {
      WithIdAbove(s, k);
    }
    WithIdCons(e, s, k);
  }

  lemma InsertByIdPast(e: Node, s: seq<Node>)
    requires s != [] && s[0].id <= e.id
    ensures InsertById(e, s) == [s[0]] + InsertById(e, s[1..])
  {
  }

  /** Putting the same operator in front of two sequences keeps an equation between their filters. */
  lemma WithIdConsBoth(x: Node, a: seq<Node>, b: seq<Node>, tail: seq<Node>, k: int)
    requires WithId(a, k) == WithId(b, k) + tail
    ensures WithId([x] + a, k) == WithId([x] + b, k) + tail
  {
    var head := if x.id == k then [x] else [];
    WithIdCons(x, a, k);
    WithIdCons(x, b, k);
    ConcatAssociative(head, WithId(b, k), tail);
  }

  /** Inserting past the first operator of `s`: the first operator stays in front. */
  lemma InsertByIdStableSkip(e: Node, s: seq<Node>, k: int)
    requires s != [] && s[0].id <= e.id
    requires WithId(InsertById(e, s[1..]), k) == WithId(s[1..], k) + (if e.id == k then [e] else [])
    ensures WithId(InsertById(e, s), k) == WithId(s, k) + (if e.id == k then [e] else [])
  {
    InsertByIdPast(e, s);
    WithIdConsBoth(s[0], InsertById(e, s[1..]), s[1..], if e.id == k then [e] else [], k);
    assert [s[0]] + s[1..] == s;
  }

  /** Inserting `e` into an ordered sequence puts it after every operator with its id. */
  lemma {:induction false} InsertByIdStable(e: Node, s: seq<Node>, k: int)
    requires SortedById(s)
    ensures WithId(InsertById(e, s), k) == WithId(s, k) + (if e.id == k then [e] else [])
    decreases |s|
  {
    if s == [] {
      WithIdCons(e, [], k);
    } else if e.id < s[0].id {
      InsertByIdStableFront(e, s, k);
    } else {
      SortedTail(s);
      InsertByIdStable(e, s[1..], k);
      InsertByIdStableSkip(e, s, k);
    }
  }

  /** Sorting one more operator: it is inserted into the sorted earlier ones. */
  lemma SortByIdSnoc(init: seq<Node>, last: Node)
    ensures SortById(init + [last]) == InsertById(last, SortById(init))
  {
    var s := init + [last];
    assert s[..|s| - 1] == init;
  }

  lemma WithIdSnoc(init: seq<Node>, last: Node, k: int)
    ensures WithId(init + [last], k) == WithId(init, k) + (if last.id == k then [last] else [])
  {
    WithIdAppend(init, [last], k);
    assert [last][1..] == [];
  }

  /** Stability: operators with equal ids keep the relative order they had before sorting. */
  lemma {:induction false} SortByIdStable(s: seq<Node>, k: int)
    ensures WithId(SortById(s), k) == WithId(s, k)
    decreases |s|
  {
    if s != [] {
      var n := |s| - 1;
      var init, last := s[..n], s[n];
      assert s == init + [last];
      SortByIdStable(init, k);
      SortByIdSorted(init);
      SortByIdSnoc(init, last);
      InsertByIdStable(last, SortById(init), k);
      WithIdSnoc(init, last, k);
    }
  }

  lemma StrictTail(s: seq<Node>)
    requires StrictlySortedById(s) && s != []
    ensures StrictlySortedById(s[1..])
    ensures forall y :: y in s[1..] ==> s[0].id < y.id
  {
    forall y | y in s[1..]
      ensures s[0].id < y.id
    {
      var i :| 0 <= i < |s[1..]| && s[1..][i] == y;
      assert s[i + 1] == y;
    }
  }

  lemma ConsStrict(x: Node, t: seq<Node>)
    requires StrictlySortedById(t)
    requires forall y :: y in t ==> x.id < y.id
    ensures StrictlySortedById([x] + t)
  {
    var r := [x] + t;
    forall i, j | 0 <= i < j < |r|
      ensures r[i].id < r[j].id
    {
      assert r[j] == t[j - 1];
      if i > 0 {
        assert r[i] == t[i - 1];
      } else {
        assert t[j - 1] in t;
      }
    }
  }

  lemma {:induction false} InsertByIdStrict(e: Node, s: seq<Node>)
    requires StrictlySortedById(s)
    requires forall x :: x in s ==> x.id != e.id
    ensures StrictlySortedById(InsertById(e, s))
    decreases |s|
  {
    if s == [] {
    } else if e.id < s[0].id {
      forall y | y in s
        ensures e.id < y.id
      {
        var i :| 0 <= i < |s| && s[i] == y;
        if i > 0 {
          assert s[0].id < s[i].id;
        }
      }
      ConsStrict(e, s);
    } else {
      assert s[0] in s;
      StrictTail(s);
      var rest := InsertById(e, s[1..]);
      assert forall x :: x in s[1..] ==> x in s;
      InsertByIdStrict(e, s[1..]);
      InsertByIdMembers(e, s[1..]);
      ConsStrict(s[0], rest);
    }
  }

  /** With distinct ids the sorted result is strictly increasing by id. */
  lemma {:induction false} SortByIdStrict(s: seq<Node>)
    requires DistinctIds(s)
    ensures StrictlySortedById(SortById(s))
    decreases |s|
  {
    if s != [] {
      var n := |s| - 1;
      var init, last := s[..n], s[n];
      assert s == init + [last];
      assert DistinctIds(init);
      SortByIdStrict(init);
      var sortedInit := SortById(init);
      forall x | x in sortedInit
        ensures x.id != last.id
      {
        assert x in multiset(init);
        var i :| 0 <= i < n && init[i] == x;
        assert s[i] == x;
      }
      SortByIdSnoc(init, last);
      InsertByIdStrict(last, sortedInit);
    }
  }

  /** `extract_chakra_host_ops`: walk the tree from `node`, then sort the collected operators by id. */
  method ExtractChakraHostOps(node: Node) returns (ops: seq<Node>)
    ensures ops == SortById(PreOrder(node))
    ensures |ops| == Size(node) && node in ops
    ensures SortedById(ops) && multiset(ops) == multiset(PreOrder(node))
    ensures forall k :: WithId(ops, k) == WithId(PreOrder(node), k)
    ensures DistinctIds(PreOrder(node)) ==> StrictlySortedById(ops)
  {
    var nodes := Traverse(node, []);
    assert nodes == PreOrder(node);
    ops := SortById(nodes);
    PreOrderLength(node);
    SortByIdSorted(nodes);
    assert |ops| == |nodes| by {
      assert |multiset(ops)| == |multiset(nodes)|;
    }
    assert node in multiset(nodes);
    forall k
      ensures WithId(ops, k) == WithId(nodes, k)
    {
      SortByIdStable(nodes, k);
    }
    if DistinctIds(nodes) {
      SortByIdStrict(nodes);
    }
  }
}
