/** `flatTree`: a forest of nodes, each carrying its own fields and an
    ordered list of children under the key `children_list`, becomes one flat
    list in which every node follows its children and has its children key
    removed. The tree is a finite datatype, so a cycle or a node without a
    children list cannot be written down. */
module Trees {

  /** The default `keyChildren`. */
  const ChildrenKey: string := "children_list"

  /** One emitted entry: a node's fields. */
  type Record<V> = map<string, V>

  /** A tree node: its fields, and its children in order. The children
      list is a field of its own, so `attrs` need not mention it; should
      `attrs` hold the children key anyway, `Omit` drops it like lodash
      `omit` would. */
  datatype Node<V> = Node(attrs: Record<V>, children: seq<Node<V>>)

  /** lodash `omit(item, [keyChildren])`: the node's fields without the
      children key; nothing else is dropped or altered. */
  function Omit<V>(n: Node<V>): (r: Record<V>)
    ensures ChildrenKey !in r
    ensures forall k :: k in n.attrs && k != ChildrenKey ==> k in r && r[k] == n.attrs[k]
    ensures forall k :: k in r ==> k in n.attrs
  {
    n.attrs - {ChildrenKey}
  }

  /** The number of nodes in a forest. */
  function Size<V>(ts: seq<Node<V>>): nat
    decreases ts
  {
    if |ts| == 0 then 0 else 1 + Size(ts[0].children) + Size(ts[1..])
  }

  /** The recursion of `push`: for each node in order, its children's
      entries when it has children, then the node itself without its
      children key. */
  function Flatten<V>(ts: seq<Node<V>>): seq<Record<V>>
    decreases ts
  {
    if |ts| == 0 then []
    else
      var n := ts[0];
      (if |n.children| > 0 then Flatten(n.children) else []) + [Omit(n)] + Flatten(ts[1..])
  }

  /** The nodes of a forest, each one after all of its descendants and
      siblings left to right. */
  function PostOrder<V>(ts: seq<Node<V>>): seq<Node<V>>
    decreases ts
  {
    if |ts| == 0 then [] else PostOrder(ts[0].children) + [ts[0]] + PostOrder(ts[1..])
  }

  /** `flatTree({ data })`: an accumulator `flat` that `push` appends to. */
  method FlatTree<V>(data: seq<Node<V>>) returns (flat: seq<Record<V>>)
    ensures |flat| == |PostOrder(data)| == Size(data)
    ensures forall i :: 0 <= i < |flat| ==> flat[i] == Omit(PostOrder(data)[i])
  {
    flat := Push(data, []);
    FlattenIsOmitOfPostOrder(data);
  }

  /** `push(tempArray)`: the entries of `ts` appended to `acc`, node by
      node. */
  method Push<V>(ts: seq<Node<V>>, acc: seq<Record<V>>) returns (acc': seq<Record<V>>)
    ensures acc' == acc + Flatten(ts)
    decreases ts
  {
    acc' := acc;
    for i := 0 to |ts|
      invariant acc' == acc + Flatten(ts[..i])
    {
      var item := ts[i];
      ghost var kids := if |item.children| > 0 then Flatten(item.children) else [];
      if |item.children| > 0 {
        acc' := Push(item.children, acc');
      }
      assert acc' == acc + Flatten(ts[..i]) + kids;
      acc' := acc' + [Omit(item)];
      FlattenStep(ts, i, acc);
    }
    assert ts[..|ts|] == ts;
  }

  /** Flattening one more node of `ts` appends that node's entries: its
      children's when it has any, then its own. */
  lemma FlattenStep<V>(ts: seq<Node<V>>, i: int, acc: seq<Record<V>>)
    requires 0 <= i < |ts|
    ensures acc + Flatten(ts[..i]) + (if |ts[i].children| > 0 then Flatten(ts[i].children) else []) + [Omit(ts[i])]
            == acc + Flatten(ts[..i + 1])
  {
    var pre, n := ts[..i], ts[i];
    var kids := if |n.children| > 0 then Flatten(n.children) else [];
    assert ts[..i + 1] == pre + [n];
    FlattenAppend(pre, [n]);
    FlattenOne(n);
    var f := Flatten(pre);
    assert Flatten(ts[..i + 1]) == f + (kids + [Omit(n)]);
    assert acc + (f + (kids + [Omit(n)])) == acc + f + kids + [Omit(n)];
  }

  /** A single node's entries: its children's, then its own. */
  lemma FlattenOne<V>(n: Node<V>)
    ensures Flatten([n]) == (if |n.children| > 0 then Flatten(n.children) else []) + [Omit(n)]
  {
    assert [n][1..] == [];
  }

  /** Siblings keep their order: flattening two forests one after the
      other is flattening their concatenation. */
  lemma {:induction false} FlattenAppend<V>(a: seq<Node<V>>, b: seq<Node<V>>)
    ensures Flatten(a + b) == Flatten(a) + Flatten(b)
    decreases a
  {
    if |a| > 0 {
      FlattenAppend(a[1..], b);
      assert (a + b)[0] == a[0];
      assert (a + b)[1..] == a[1..] + b;
    } else {
      assert a + b == b;
    }
  }

  /** The same holds of the node order. */
  lemma {:induction false} PostOrderAppend<V>(a: seq<Node<V>>, b: seq<Node<V>>)
    ensures PostOrder(a + b) == PostOrder(a) + PostOrder(b)
    decreases a
  {
    if |a| > 0 {
      PostOrderAppend(a[1..], b);
      assert (a + b)[0] == a[0];
      assert (a + b)[1..] == a[1..] + b;
    } else {
      assert a + b == b;
    }
  }

  /** Every node of the forest is visited once. */
  lemma {:induction false} PostOrderSize<V>(ts: seq<Node<V>>)
    ensures |PostOrder(ts)| == Size(ts)
    decreases ts
  {
    if |ts| > 0 {
      PostOrderSize(ts[0].children);
      PostOrderSize(ts[1..]);
    }
  }

  /** The emitted entries are the visited nodes without their children
      key, one for one. The `length > 0` guard only skips a call that would
      add nothing. */
  lemma {:induction false} FlattenIsOmitOfPostOrder<V>(ts: seq<Node<V>>)
    ensures |Flatten(ts)| == |PostOrder(ts)| == Size(ts)
    ensures forall i :: 0 <= i < |Flatten(ts)| ==> Flatten(ts)[i] == Omit(PostOrder(ts)[i])
    decreases ts
  {
    PostOrderSize(ts);
    if |ts| > 0 {
      var n := ts[0];
      FlattenIsOmitOfPostOrder(n.children);
      FlattenIsOmitOfPostOrder(ts[1..]);
      var kids := if |n.children| > 0 then Flatten(n.children) else [];
      assert |kids| == |PostOrder(n.children)|;
      var f, p := Flatten(ts), PostOrder(ts);
      assert f == kids + [Omit(n)] + Flatten(ts[1..]);
      assert p == PostOrder(n.children) + [n] + PostOrder(ts[1..]);
      forall i | 0 <= i < |f|
        ensures f[i] == Omit(p[i])
      {
        var m := |kids|;
        if i < m {
          assert f[i] == kids[i] && p[i] == PostOrder(n.children)[i];
        } else if i == m {
          assert f[i] == Omit(n) && p[i] == n;
        } else {
          assert f[i] == Flatten(ts[1..])[i - m - 1];
          assert p[i] == PostOrder(ts[1..])[i - m - 1];
        }
      }
    }
  }

  /** In the node sequence `p`, the `Size` entries right before position
      `i` are exactly the subtree below `p[i]`, in order. */
  ghost predicate SubtreeBefore<V>(p: seq<Node<V>>, i: int) {
    0 <= i < |p| && Size(p[i].children) <= i && p[i - Size(p[i].children)..i] == PostOrder(p[i].children)
  }

  lemma SubtreeBeforeExtendRight<V>(x: seq<Node<V>>, y: seq<Node<V>>, i: int)
    requires SubtreeBefore(x, i)
    ensures SubtreeBefore(x + y, i)
  {
    var q := x + y;
    assert q[i] == x[i];
    assert q[i - Size(x[i].children)..i] == x[i - Size(x[i].children)..i];
  }

  lemma SubtreeBeforeExtendLeft<V>(x: seq<Node<V>>, y: seq<Node<V>>, j: int)
    requires SubtreeBefore(y, j)
    ensures SubtreeBefore(x + y, |x| + j)
  {
    var q, i := x + y, |x| + j;
    assert q[i] == y[j];
    assert q[i - Size(y[j].children)..i] == y[j - Size(y[j].children)..j];
  }

  /** Children come immediately before their parent: the `Size` entries
      right before any node are exactly its own subtree's, in order. In
      particular every node follows all of its descendants. */
  lemma {:induction false} SubtreePrecedesNode<V>(ts: seq<Node<V>>)
    ensures forall i :: 0 <= i < |PostOrder(ts)| ==> SubtreeBefore(PostOrder(ts), i)
    decreases ts
  {
    if |ts| > 0 {
      var n := ts[0];
      SubtreePrecedesNode(n.children);
      SubtreePrecedesNode(ts[1..]);
      PostOrderSize(n.children);
      var kids, rest := PostOrder(n.children), PostOrder(ts[1..]);
      var p := PostOrder(ts);
      var front := kids + [n];
      assert p == front + rest;
      var m := |kids|;
      forall i | 0 <= i < |p|
        ensures SubtreeBefore(p, i)
      {
        if i < m {
          SubtreeBeforeExtendRight(kids, [n], i);
          SubtreeBeforeExtendRight(front, rest, i);
        } else if i == m {
          assert p[i] == n;
          assert p[..m] == kids;
        } else {
          SubtreeBeforeExtendLeft(front, rest, i - m - 1);
        }
      }
    }
  }

  /** No emitted entry keeps the children key. */
  lemma FlattenDropsChildrenKey<V>(ts: seq<Node<V>>)
    ensures forall i :: 0 <= i < |Flatten(ts)| ==> ChildrenKey !in Flatten(ts)[i]
  {
    FlattenIsOmitOfPostOrder(ts);
  }

  /** `flatTree({ data: [{id:1, children_list:[{id:2, children_list:[]}]}] })`
      is `[{id:2}, {id:1}]`. */
  lemma ChildBeforeParentExample()
    ensures Flatten([Node(map["id" := 1], [Node(map["id" := 2], [])])])
            == [map["id" := 2], map["id" := 1]]
  {
    var child := Node(map["id" := 2], []);
    var parent := Node(map["id" := 1], [child]);
    assert Omit(child) == map["id" := 2];
    assert Omit(parent) == map["id" := 1];
    assert Flatten([child]) == [Omit(child)];
    assert Flatten([parent]) == Flatten([child]) + [Omit(parent)];
  }
}
