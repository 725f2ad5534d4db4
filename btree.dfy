/** `RedBlackBST`: despite its name an unbalanced binary search tree keyed by `u32`. The
    colour and the parent link of a node are never read and are not modelled. A node is
    owned by its parent alone, so the tree is a value; inserting rebuilds the search path. */
module BinaryTree {
  import opened Common

  datatype Tree<V> = Nil | Node(key: u32, val: V, left: Tree<V>, right: Tree<V>)

  /** The key-value pairs stored in the tree. Where a key occurs twice (it cannot in an
      ordered tree) the value nearest the root wins. */
  function Contents<V>(t: Tree<V>): map<u32, V>
  {
    match t
    case Nil => map[]
    case Node(k, v, l, r) => (Contents(l) + Contents(r))[k := v]
  }

  function Keys<V>(t: Tree<V>): set<u32>
  {
    Contents(t).Keys
  }

  /** The search-tree order: smaller keys on the left, larger keys on the right. */
  predicate Ordered<V>(t: Tree<V>)
  {
    match t
    case Nil => true
    case Node(k, _, l, r) =>
      Ordered(l) && Ordered(r)
      && (forall x :: x in Keys(l) ==> x < k)
      && (forall x :: x in Keys(r) ==> k < x)
  }

  /** `Node::new`: a leaf. */
  function NewNode<V>(key: u32, val: V): (t: Tree<V>)
    ensures Ordered(t) && Contents(t) == map[key := val]
  {
    Node(key, val, Nil, Nil)
  }

  /** `Node::get`: walk left on a smaller key and right on a larger one. */
  function NodeGet<V>(t: Tree<V>, key: u32): Result<V>
    requires t.Node?
  {
    if t.key == key then Ok(t.val)
    else
      var target := if key < t.key then t.left else t.right;
      if target.Node? then NodeGet(target, key) else Err("Key: not found")
  }

  /** `Node::insert`. A key already on the search path is refused and nothing changes;
      otherwise the key is hung as a new leaf where the search ends. */
  function NodeInsert<V>(t: Tree<V>, key: u32, val: V): (r: Result<Tree<V>>)
    requires t.Node?
    ensures r.Err? ==> r.error == "Key already present"
    ensures r.Ok? ==> r.value.Node? && r.value.key == t.key && Keys(r.value) == Keys(t) + {key}
  {
    if t.key != key then
      var target := if key < t.key then t.left else t.right;
      if target.Node? then
        match NodeInsert(target, key, val)
        case Err(e) => Err(e)
        case Ok(sub) => Ok(if key < t.key then t.(left := sub) else t.(right := sub))
      else
        Ok(if key < t.key then t.(left := NewNode(key, val)) else t.(right := NewNode(key, val)))
    else
      Err("Key already present")
  }

  /** In an ordered tree the contents of the two subtrees do not share a key, so the map of a
      node is the disjoint union of its parts. */
  lemma OrderedContentsAt<V>(t: Tree<V>, x: u32)
    requires t.Node? && Ordered(t)
    ensures x in Contents(t) <==> x == t.key || (x < t.key && x in Contents(t.left)) || (t.key < x && x in Contents(t.right))
    ensures x in Contents(t) && x != t.key ==>
              Contents(t)[x] == if x < t.key then Contents(t.left)[x] else Contents(t.right)[x]
  {
    if x in Contents(t.left) {
      assert x in Keys(t.left);
    }
    if x in Contents(t.right) {
      assert x in Keys(t.right);
    }
  }

  /** `get` on an ordered tree finds exactly the value stored under the key, and reports
      "Key: not found" exactly for a key that is not stored. */
  lemma {:induction false} NodeGetFinds<V>(t: Tree<V>, key: u32)
    requires t.Node? && Ordered(t)
    ensures NodeGet(t, key) == if key in Contents(t) then Ok(Contents(t)[key]) else Err("Key: not found")
  {
    OrderedContentsAt(t, key);
    if t.key != key {
      var target := if key < t.key then t.left else t.right;
      if target.Node? {
        NodeGetFinds(target, key);
      }
    }
  }

  /** `insert` on an ordered tree refuses exactly the keys already stored. Otherwise the tree
      stays ordered and maps the new key to its value, every other key as before. */
  lemma {:induction false} NodeInsertSpec<V>(t: Tree<V>, key: u32, val: V)
    requires t.Node? && Ordered(t)
    ensures NodeInsert(t, key, val).Err? <==> key in Contents(t)
    ensures NodeInsert(t, key, val).Ok? ==>
              Ordered(NodeInsert(t, key, val).value)
              && Contents(NodeInsert(t, key, val).value) == Contents(t)[key := val]
  {
    OrderedContentsAt(t, key);
    var r := NodeInsert(t, key, val);
    if t.key != key {
      var target := if key < t.key then t.left else t.right;
      if target.Node? {
        NodeInsertSpec(target, key, val);
      }
      if r.Ok? {
        var t' := r.value;
        var sub := if key < t.key then t'.left else t'.right;
        assert sub == if target.Node? then NodeInsert(target, key, val).value else NewNode(key, val);
        assert Ordered(sub) && Contents(sub) == Contents(target)[key := val];
        assert Ordered(t');
        forall x
          ensures x in Contents(t') <==> x in Contents(t)[key := val]
          ensures x in Contents(t') ==> Contents(t')[x] == Contents(t)[key := val][x]
        {
          OrderedContentsAt(t', x);
          OrderedContentsAt(t, x);
        }
      }
    }
  }

  class RedBlackBst<V> {
    var head: Tree<V>
    var size: nat

    /** The tree is ordered and `size` counts its keys. */
    ghost predicate Valid()
      reads this
    {
      Ordered(head) && size == |Keys(head)|
    }

    /** `RedBlackBST::new`: no head, size 0. */
    constructor ()
      ensures Valid() && head == Nil && size == 0
    {
      head := Nil;
      size := 0;
    }

    /** `RedBlackBST::size`: the number of keys stored. */
    function Size(): (n: nat)
      reads this
      requires Valid()
      ensures n == |Keys(head)|
    {
      size
    }

    /** `RedBlackBST::get`. An empty tree says so; otherwise the value under the key, or
        "Key: not found". */
    function Get(key: u32): (r: Result<V>)
      reads this
      requires Valid()
      ensures head.Nil? ==> r == Err("Tree is empty")
      ensures head.Node? ==> r == if key in Contents(head) then Ok(Contents(head)[key]) else Err("Key: not found")
    {
      if head.Nil? then Err("Tree is empty")
      else
        NodeGetFinds(head, key);
        NodeGet(head, key)
    }

    /** `RedBlackBST::insert`: the first key becomes the head; later keys go to the head's
        insert. `size` grows by one exactly when the insert succeeds. */
    method Insert(key: u32, val: V) returns (out: Result<()>)
      requires Valid()
      modifies this
      ensures Valid()
      ensures out.Ok? <==> key !in old(Contents(head))
      ensures out.Err? ==> out.error == "Key already present" && head == old(head) && size == old(size)
      ensures out.Ok? ==> Contents(head) == old(Contents(head))[key := val] && size == old(size) + 1
    {
      out := Ok(());
      match head {
        case Nil =>
          head := NewNode(key, val);
        case Node(_, _, _, _) =>
          NodeInsertSpec(head, key, val);
          var res := NodeInsert(head, key, val);
          match res {
            case Ok(t) => head := t;
            case Err(e) => out := Err(e);
          }
      }
      match out {
        case Ok(_) => size := size + 1;
        case Err(_) =>
      }
    }
  }

  /** A successful insert does not change what `get` says about any other key of a non-empty
      tree. */
  lemma GetOtherKeyAfterInsert<V>(t: Tree<V>, key: u32, val: V, other: u32)
    requires t.Node? && Ordered(t) && NodeInsert(t, key, val).Ok? && other != key
    ensures NodeGet(NodeInsert(t, key, val).value, other) == NodeGet(t, other)
  {
    NodeInsertSpec(t, key, val);
    NodeGetFinds(t, other);
    NodeGetFinds(NodeInsert(t, key, val).value, other);
  }

  /** After a successful insert, `get` of that key gives the inserted value. */
  lemma GetAfterInsert<V>(t: Tree<V>, key: u32, val: V)
    requires t.Node? && Ordered(t) && NodeInsert(t, key, val).Ok?
    ensures NodeGet(NodeInsert(t, key, val).value, key) == Ok(val)
  {
    NodeInsertSpec(t, key, val);
    NodeGetFinds(NodeInsert(t, key, val).value, key);
  }
}
