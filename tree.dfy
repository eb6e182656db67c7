/**
 * The Java preprocessor's `Tree`: a binary search tree of stars keyed by
 * attribute, where a key equal to a node's goes immediately to that
 * node's left. The linked `TreeNode`s are modelled as an inductive value
 * `Node`; the `Tree` object owns the `root` and the `count` that
 * `insert` updates.
 */
module Trees {
  import opened CatalogueStars
  import Words

  /** The nodes hanging from a `TreeNode` reference; `Nil` is `null`. */
  datatype Node = Nil | Node(left: Node, value: Star, right: Node)

  /** `inOrderTraversalRec`: left subtree, node, right subtree. */
  function InOrder(n: Node): (s: seq<Star>)
    ensures |s| == 0 <==> n.Nil?
  {
    match n
    case Nil => []
    case Node(l, v, r) => InOrder(l) + [v] + InOrder(r)
  }

  /** `preOrderTraversalRec`: the node before its left and then its right subtree. */
  function PreOrder(n: Node): (s: seq<Star>)
    ensures n.Node? ==> |s| > 0 && s[0] == n.value
  {
    match n
    case Nil => []
    case Node(l, v, r) => [v] + PreOrder(l) + PreOrder(r)
  }

  /** Both traversals visit the same stars. */
  lemma {:induction false} PreOrderSameStars(n: Node)
    ensures multiset(PreOrder(n)) == multiset(InOrder(n))
  {
    match n
    case Nil =>
    case Node(l, v, r) =>
      PreOrderSameStars(l);
      PreOrderSameStars(r);
  }

  /** Every key in the subtree is at most `k`. */
  predicate AllAtMost(n: Node, k: real)
  {
    match n
    case Nil => true
    case Node(l, v, r) => v.attribute <= k && AllAtMost(l, k) && AllAtMost(r, k)
  }

  /** Every key in the subtree is below `k`. */
  predicate AllBelow(n: Node, k: real)
  {
    match n
    case Nil => true
    case Node(l, v, r) => v.attribute < k && AllBelow(l, k) && AllBelow(r, k)
  }

  /** Every key in the subtree is above `k`. */
  predicate AllAbove(n: Node, k: real)
  {
    match n
    case Nil => true
    case Node(l, v, r) => k < v.attribute && AllAbove(l, k) && AllAbove(r, k)
  }

  /** Search-tree order: keys up to the node's on the left, keys above it on the right. */
  predicate Ordered(n: Node)
  {
    match n
    case Nil => true
    case Node(l, v, r) => Ordered(l) && Ordered(r) && AllAtMost(l, v.attribute) && AllAbove(r, v.attribute)
  }

  /** Search-tree order without repeated keys. */
  predicate StrictlyOrdered(n: Node)
  {
    match n
    case Nil => true
    case Node(l, v, r) =>
      StrictlyOrdered(l) && StrictlyOrdered(r) && AllBelow(l, v.attribute) && AllAbove(r, v.attribute)
  }

  /** What the key bounds say about the stars of the traversals. */
  lemma {:induction false} BoundsMembers(n: Node, k: real)
    ensures AllAtMost(n, k) ==> forall s :: s in InOrder(n) ==> s.attribute <= k
    ensures AllAbove(n, k) ==> forall s :: s in InOrder(n) ==> k < s.attribute
    ensures AllBelow(n, k) ==> forall s :: s in PreOrder(n) ==> s.attribute < k
    ensures AllAbove(n, k) ==> forall s :: s in PreOrder(n) ==> k < s.attribute
  {
    match n
    case Nil =>
    case Node(l, v, r) =>
      BoundsMembers(l, k);
      BoundsMembers(r, k);
  }

  function Max(a: nat, b: nat): nat
  {
    if a < b then b else a
  }

  /** `height`: zero for `null`, otherwise one more than the taller subtree. */
  function Height(n: Node): (h: nat)
    ensures h == 0 <==> n.Nil?
    ensures n.Node? && n.left.Nil? && n.right.Nil? ==> h == 1
  {
    match n
    case Nil => 0
    case Node(l, _, r) => 1 + Max(Height(l), Height(r))
  }

  /**
   * The walk of `insert`: down the left for a smaller key, down the right
   * for a larger one, linking a new node at the first free link; an equal
   * key becomes the node's new left child, with the old left subtree
   * below it.
   */
  function InsertNode(n: Node, val: Star): (r: Node)
    ensures r.Node?
    ensures n.Node? ==> r.value == n.value
    ensures n.Nil? ==> r == Node(Nil, val, Nil)
  {
    match n
    case Nil => Node(Nil, val, Nil)
    case Node(l, v, r) =>
      if val.attribute < v.attribute then Node(InsertNode(l, val), v, r)
      else if val.attribute > v.attribute then Node(l, v, InsertNode(r, val))
      else Node(Node(l, val, Nil), v, r)
  }

  /** The stars held in a subtree, counted with repetition. */
  function Stars(n: Node): multiset<Star>
  {
    match n
    case Nil => multiset{}
    case Node(l, v, r) => Stars(l) + multiset{v} + Stars(r)
  }

  /** The in-order traversal lists exactly the stars of the subtree. */
  lemma {:induction false} InOrderStars(n: Node)
    ensures multiset(InOrder(n)) == Stars(n)
  {
    match n
    case Nil =>
    case Node(l, v, r) =>
      InOrderStars(l);
      InOrderStars(r);
      assert InOrder(n) == InOrder(l) + [v] + InOrder(r);
  }

  /** `insert` adds exactly `val`. */
  lemma {:induction false} InsertNodeStars(n: Node, val: Star)
    ensures Stars(InsertNode(n, val)) == Stars(n) + multiset{val}
  {
    match n
    case Nil =>
    case Node(l, v, r) =>
      if val.attribute < v.attribute {
        var l' := InsertNode(l, val);
        assert InsertNode(n, val) == Node(l', v, r);
        InsertNodeStars(l, val);
        assert Stars(Node(l', v, r)) == Stars(l') + multiset{v} + Stars(r);
      } else if val.attribute > v.attribute {
        var r' := InsertNode(r, val);
        assert InsertNode(n, val) == Node(l, v, r');
        InsertNodeStars(r, val);
        assert Stars(Node(l, v, r')) == Stars(l) + multiset{v} + Stars(r');
      } else {
        assert InsertNode(n, val) == Node(Node(l, val, Nil), v, r);
        assert Stars(Node(l, val, Nil)) == Stars(l) + multiset{val};
        assert Stars(Node(Node(l, val, Nil), v, r)) == Stars(Node(l, val, Nil)) + multiset{v} + Stars(r);
      }
  }

  /** `insert` grows the height by at most one. */
  lemma {:induction false} InsertNodeHeight(n: Node, val: Star)
    ensures Height(InsertNode(n, val)) <= Height(n) + 1
  {
    match n
    case Nil =>
    case Node(l, v, r) =>
      if val.attribute < v.attribute {
        InsertNodeHeight(l, val);
      } else if val.attribute > v.attribute {
        InsertNodeHeight(r, val);
      } else {
        assert InsertNode(n, val) == Node(Node(l, val, Nil), v, r);
        assert Height(Node(l, val, Nil)) == 1 + Height(l);
      }
  }

  /** A key within a bound keeps the subtree within it. */
  lemma {:induction false} InsertNodeBounds(n: Node, val: Star, k: real)
    ensures AllAtMost(n, k) && val.attribute <= k ==> AllAtMost(InsertNode(n, val), k)
    ensures AllAbove(n, k) && k < val.attribute ==> AllAbove(InsertNode(n, val), k)
  {
    match n
    case Nil =>
    case Node(l, v, r) =>
      if val.attribute < v.attribute {
        InsertNodeBounds(l, val, k);
      } else if val.attribute > v.attribute {
        InsertNodeBounds(r, val, k);
      }
  }

  /** `insert` keeps the search-tree order. */
  lemma {:induction false} InsertNodeOrdered(n: Node, val: Star)
    requires Ordered(n)
    ensures Ordered(InsertNode(n, val))
  {
    match n
    case Nil =>
    case Node(l, v, r) =>
      if val.attribute < v.attribute {
        InsertNodeOrdered(l, val);
        InsertNodeBounds(l, val, v.attribute);
      } else if val.attribute > v.attribute {
        InsertNodeOrdered(r, val);
        InsertNodeBounds(r, val, v.attribute);
      }
  }

  /** An equal key lands in the traversal immediately before the first equal node on its path. */
  lemma {:induction false} InsertEqualKey(l: Node, v: Star, r: Node, val: Star)
    requires val.attribute == v.attribute
    ensures InOrder(InsertNode(Node(l, v, r), val)) == InOrder(l) + [val, v] + InOrder(r)
  {
    assert InOrder(Node(l, val, Nil)) == InOrder(l) + [val];
  }

  /** The stars of `s` inserted one after another, as the list constructor does. */
  function InsertAll(n: Node, s: seq<Star>): (r: Node)
    ensures |s| == 0 ==> r == n
    ensures 0 < |s| ==> r.Node?
    ensures n.Node? ==> r.value == n.value
    ensures n.Nil? && 0 < |s| ==> r.value == s[0]
  {
    if |s| == 0 then n else InsertNode(InsertAll(n, s[..|s| - 1]), s[|s| - 1])
  }

  /** The in-order traversal of a search tree is in ascending order of attribute. */
  lemma {:induction false} OrderedAscending(n: Node)
    requires Ordered(n)
    ensures Ascending(InOrder(n))
  {
    match n
    case Nil =>
    case Node(l, v, r) =>
      OrderedAscending(l);
      OrderedAscending(r);
      BoundsMembers(l, v.attribute);
      BoundsMembers(r, v.attribute);
      var s := InOrder(n);
      forall i, j | 0 <= i < j < |s|
        ensures s[i].attribute <= s[j].attribute
      {
        var k := |InOrder(l)|;
        if j < k {
        } else if i < k {
          assert s[i] in InOrder(l);
          if j > k {
            assert s[j] in InOrder(r) by { assert s[j] == InOrder(r)[j - k - 1]; }
          }
        } else if i > k {
          assert s[i] == InOrder(r)[i - k - 1] && s[j] == InOrder(r)[j - k - 1];
        } else {
          assert s[j] in InOrder(r) by { assert s[j] == InOrder(r)[j - k - 1]; }
        }
      }
  }

  /** Inserting in two batches is inserting everything in order. */
  lemma {:induction false} InsertAllAppend(n: Node, a: seq<Star>, b: seq<Star>)
    ensures InsertAll(n, a + b) == InsertAll(InsertAll(n, a), b)
  {
    if |b| > 0 {
      assert (a + b)[..|a + b| - 1] == a + b[..|b| - 1];
      InsertAllAppend(n, a, b[..|b| - 1]);
    } else {
      assert a + b == a;
    }
  }

  /** Keys below the root's all go into the left subtree. */
  lemma {:induction false} InsertAllLeft(a: Node, v: Star, b: Node, s: seq<Star>)
    requires forall x :: x in s ==> x.attribute < v.attribute
    ensures InsertAll(Node(a, v, b), s) == Node(InsertAll(a, s), v, b)
  {
    if |s| > 0 {
      InsertAllLeft(a, v, b, s[..|s| - 1]);
    }
  }

  /** Keys above the root's all go into the right subtree. */
  lemma {:induction false} InsertAllRight(a: Node, v: Star, b: Node, s: seq<Star>)
    requires forall x :: x in s ==> v.attribute < x.attribute
    ensures InsertAll(Node(a, v, b), s) == Node(a, v, InsertAll(b, s))
  {
    if |s| > 0 {
      InsertAllRight(a, v, b, s[..|s| - 1]);
    }
  }

  /**
   * The pre-order traversal reconstructs the tree: inserting it into an
   * empty tree gives back the same tree, when no key is repeated.
   */
  lemma {:induction false} PreOrderRebuilds(n: Node)
    requires StrictlyOrdered(n)
    ensures InsertAll(Nil, PreOrder(n)) == n
  {
    match n
    case Nil =>
    case Node(l, v, r) =>
      var pl, pr := PreOrder(l), PreOrder(r);
      assert PreOrder(n) == [v] + pl + pr;
      InsertAllAppend(Nil, [v] + pl, pr);
      InsertAllAppend(Nil, [v], pl);
      assert InsertAll(Nil, [v]) == Node(Nil, v, Nil);
      BoundsMembers(l, v.attribute);
      BoundsMembers(r, v.attribute);
      InsertAllLeft(Nil, v, Nil, pl);
      PreOrderRebuilds(l);
      InsertAllRight(l, v, Nil, pr);
      PreOrderRebuilds(r);
  }

  /** A tree is at most as tall as it has nodes, and holds fewer than 2^height nodes. */
  lemma {:induction false} HeightBounds(n: Node)
    ensures Height(n) <= |InOrder(n)| < Words.Pow2(Height(n))
  {
    match n
    case Nil =>
    case Node(l, _, r) =>
      HeightBounds(l);
      HeightBounds(r);
      PowMonotone(Height(l), Height(n) - 1);
      PowMonotone(Height(r), Height(n) - 1);
  }

  lemma {:induction false} PowMonotone(a: nat, b: nat)
    requires a <= b
    ensures Words.Pow2(a) <= Words.Pow2(b)
  {
    if a < b {
      PowMonotone(a, b - 1);
    }
  }

  /** Every node has either two children or none. */
  predicate Full(n: Node)
  {
    match n
    case Nil => true
    case Node(l, _, r) => (l == Nil <==> r == Nil) && Full(l) && Full(r)
  }

  /**
   * `balanceRec`: 0 for `null`, 100 for a leaf, otherwise the integer
   * average of the two subtrees' scores.
   */
  function BalanceRec(n: Node): (b: int)
    ensures 0 <= b <= 100
  {
    match n
    case Nil => 0
    case Node(l, _, r) =>
      if l == Nil && r == Nil then 100 else (BalanceRec(l) + BalanceRec(r)) / 2
  }

  /** The score is 100 exactly for a non-empty tree in which every node has two children or none. */
  lemma {:induction false} BalanceHundred(n: Node)
    ensures BalanceRec(n) == 100 <==> n.Node? && Full(n)
  {
    match n
    case Nil =>
    case Node(l, _, r) =>
      BalanceHundred(l);
      BalanceHundred(r);
  }

  /** Java's `/ 2` on `int`, which rounds toward zero. */
  function JavaHalf(x: int): (r: int)
    ensures 0 <= x ==> 0 <= 2 * r <= x && x - 2 * r <= 1
    ensures x < 0 ==> x <= 2 * r <= 0 && 2 * r - x <= 1
  {
    if x < 0 then -((-x) / 2) else x / 2
  }

  /** The stars strictly between positions `min` and `max`. */
  function Between(traversal: seq<Star>, min: int, max: int): seq<Star>
    requires 0 <= min && max < |traversal|
  {
    if min + 1 <= max then traversal[min + 1..max] else []
  }

  /** One more star of the list inserted. */
  lemma InsertAllStep(stars: seq<Star>, i: nat)
    requires i < |stars|
    ensures InsertAll(Nil, stars[..i + 1]) == InsertNode(InsertAll(Nil, stars[..i]), stars[i])
    ensures multiset(stars[..i + 1]) == multiset(stars[..i]) + multiset{stars[i]}
  {
    assert stars[..i + 1][..i] == stars[..i];
    assert stars[..i + 1] == stars[..i] + [stars[i]];
  }

  /** A slice is its part before `m`, the element at `m` and its part after. */
  lemma SliceAround(t: seq<Star>, a: nat, m: nat, b: nat)
    requires a <= m < b <= |t|
    ensures t[a..b] == t[a..m] + [t[m]] + t[m + 1..b]
  {
  }

  class Tree {
    var root: Node
    var count: int

    ghost predicate Valid()
      reads this
    {
      Ordered(root) && count == |Stars(root)|
    }

    /** The default constructor: an empty tree. */
    constructor ()
      ensures Valid() && root == Nil && count == 0
    {
      root := Nil;
      count := 0;
    }

    /** The list constructor: every star inserted in list order. */
    constructor FromList(stars: seq<Star>)
      ensures Valid()
      ensures root == InsertAll(Nil, stars)
      ensures Stars(root) == multiset(stars)
    {
      root := Nil;
      count := 0;
      new;
      for i := 0 to |stars|
        invariant Valid()
        invariant root == InsertAll(Nil, stars[..i])
        invariant Stars(root) == multiset(stars[..i])
      {
        InsertAllStep(stars, i);
        Insert(stars[i]);
      }
      assert stars[..|stars|] == stars;
    }

    /** `insert`: link `val` where the search walk ends and count it. */
    method Insert(val: Star)
      modifies this
      ensures root == InsertNode(old(root), val)
      ensures Stars(root) == old(Stars(root)) + multiset{val}
      ensures count == old(count) + 1
      ensures old(Valid()) ==> Valid()
    {
      InsertNodeStars(root, val);
      if Ordered(root) {
        InsertNodeOrdered(root, val);
      }
      root := InsertNode(root, val);
      count := count + 1;
    }

    /** `inOrderTraversal`: every star of the tree, in ascending order of attribute. */
    function InOrderTraversal(): (s: seq<Star>)
      reads this
      ensures multiset(s) == Stars(root)
      ensures Valid() ==> Ascending(s) && |s| == count
    {
      InOrderStars(root);
      if Ordered(root) then OrderedAscending(root); InOrder(root) else InOrder(root)
    }

    /** `preOrderTraversal`: the root first, and the same stars as the in-order traversal. */
    function PreOrderTraversal(): (s: seq<Star>)
      reads this
      ensures root.Node? ==> |s| > 0 && s[0] == root.value
      ensures multiset(s) == multiset(InOrderTraversal())
    {
      PreOrderSameStars(root);
      PreOrder(root)
    }

    /** `balance`: the score of the root, 100 exactly when every node has two children or none. */
    function Balance(): (b: int)
      reads this
      ensures 0 <= b <= 100
      ensures b == 100 <==> root.Node? && Full(root)
    {
      BalanceHundred(root);
      BalanceRec(root)
    }
  }

  /**
   * `createBalancedTreeRec` as written: insert the midpoint of
   * `min..max` unless it equals either end, then recurse on both halves,
   * each of which shares its end points with the midpoint.
   */
  method CreateBalancedTreeRec(tree: Tree, traversal: seq<Star>, min: int, max: int)
    requires tree.Valid() && 0 <= min && max < |traversal| && min <= max + 1
    modifies tree
    decreases max - min
    ensures tree.Valid()
    ensures Stars(tree.root) == old(Stars(tree.root)) + multiset(Between(traversal, min, max))
  {
    var mid := JavaHalf(max - min) + min;
    if mid != max && mid != min {
      assert min < mid < max;
      tree.Insert(traversal[mid]);
      CreateBalancedTreeRec(tree, traversal, min, mid);
      CreateBalancedTreeRec(tree, traversal, mid, max);
      SliceAround(traversal, min + 1, mid, max);
      assert Between(traversal, min, mid) == traversal[min + 1..mid];
    }
  }

  /**
   * `createBalancedTree` as written: rebuilds the tree from its in-order
   * traversal, but the first and the last star of the traversal are never
   * inserted.
   */
  method CreateBalancedTree(tree: Tree) returns (newTree: Tree)
    requires tree.Valid()
    ensures fresh(newTree) && newTree.Valid()
    ensures tree.count < 3 ==> newTree.root == Nil
    ensures 2 <= tree.count ==>
      Stars(newTree.root) == multiset(tree.InOrderTraversal()[1..tree.count - 1])
  {
    var sorted := tree.InOrderTraversal();
    newTree := new Tree();
    CreateBalancedTreeRec(newTree, sorted, 0, |sorted| - 1);
    if |sorted| < 3 {
      assert Stars(newTree.root) == multiset{};
    }
  }

  /** Three stars give a "balanced" tree holding only the middle one. */
  lemma BalancedDropsEnds(a: Star, b: Star, c: Star)
    ensures Between([a, b, c], 0, 2) == [b]
  {
  }

  /**
   * The evidently intended rebuild: insert the midpoint of the half-open
   * range `lo..hi`, then recurse on the ranges on either side of it, so
   * every position is inserted exactly once.
   */
  method BuildBalanced(tree: Tree, traversal: seq<Star>, lo: nat, hi: nat)
    requires tree.Valid() && lo <= hi <= |traversal|
    modifies tree
    decreases hi - lo
    ensures tree.Valid()
    ensures Stars(tree.root) == old(Stars(tree.root)) + multiset(traversal[lo..hi])
  {
    if lo < hi {
      var mid := (hi - lo) / 2 + lo;
      tree.Insert(traversal[mid]);
      BuildBalanced(tree, traversal, lo, mid);
      BuildBalanced(tree, traversal, mid + 1, hi);
      SliceAround(traversal, lo, mid, hi);
    }
  }

  /** The corrected `createBalancedTree`: the new tree holds exactly the stars of the old one. */
  method CreateBalancedTreeFixed(tree: Tree) returns (newTree: Tree)
    requires tree.Valid()
    ensures fresh(newTree) && newTree.Valid()
    ensures Stars(newTree.root) == Stars(tree.root)
    ensures newTree.count == tree.count
  {
    var sorted := tree.InOrderTraversal();
    newTree := new Tree();
    BuildBalanced(newTree, sorted, 0, |sorted|);
    assert sorted[0..|sorted|] == sorted;
  }

  function Key(x: real): Star
  {
    Star(x, 0.0, 0.0)
  }

  /**
   * The height test: 0, 1, 2 make a chain of height 3; -1 and -2 fill in
   * the left without making it taller; -3 adds a fourth level.
   */
  lemma HeightExample()
    ensures var t3 := InsertNode(InsertNode(InsertNode(Nil, Key(0.0)), Key(1.0)), Key(2.0));
      var t5 := InsertNode(InsertNode(t3, Key(-1.0)), Key(-2.0));
      Height(t3) == 3 && Height(t5) == 3 && Height(InsertNode(t5, Key(-3.0))) == 4
  {
    var right := Node(Nil, Key(1.0), Node(Nil, Key(2.0), Nil));
    var t3 := InsertNode(InsertNode(InsertNode(Nil, Key(0.0)), Key(1.0)), Key(2.0));
    assert InsertNode(Nil, Key(0.0)) == Node(Nil, Key(0.0), Nil);
    assert t3 == Node(Nil, Key(0.0), right);
    var t4 := InsertNode(t3, Key(-1.0));
    assert t4 == Node(Node(Nil, Key(-1.0), Nil), Key(0.0), right);
    var left5 := Node(Node(Nil, Key(-2.0), Nil), Key(-1.0), Nil);
    assert InsertNode(t4, Key(-2.0)) == Node(left5, Key(0.0), right);
    var left6 := Node(Node(Node(Nil, Key(-3.0), Nil), Key(-2.0), Nil), Key(-1.0), Nil);
    assert InsertNode(Node(left5, Key(0.0), right), Key(-3.0)) == Node(left6, Key(0.0), right);
    assert Height(right) == 2 && Height(left5) == 2 && Height(left6) == 3;
  }
}
