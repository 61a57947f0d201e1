// The intrusive, parent-linked binary search tree of src/data/src/map.c.
module Tree {

  // A node.  `key` is what the comparator looks at: comp(a, b) has the sign of
  // a.key - b.key.  `data` is the structure that the node is part of.
  class Item<T> {
    const key: int
    const data: T
    var l: Item?<T>
    var r: Item?<T>
    var p: Item?<T>

    constructor (key: int, data: T)
      ensures this.key == key && this.data == data && l == r == p == null
    {
      this.key, this.data := key, data;
      l, r, p := null, null, null;
    }
  }

  // The shape of a tree
  datatype Shape<T> = Leaf | Node(l: Shape<T>, item: Item<T>, r: Shape<T>)

  ghost function Items<T>(t: Shape<T>): seq<Item<T>> {
    match t
    case Leaf => []
    case Node(l, x, r) => Items(l) + [x] + Items(r)
  }

  ghost function Nodes<T>(t: Shape<T>): set<Item<T>> {
    set y | y in Items(t)
  }

  ghost function Root<T>(t: Shape<T>): Item?<T> {
    if t.Leaf? then null else t.item
  }

  ghost predicate Sorted<T>(s: seq<Item<T>>) {
    forall i, j :: 0 <= i < j < |s| ==> s[i].key < s[j].key
  }

  // The child links are those of the shape
  ghost predicate Linked<T>(t: Shape<T>)
    reads Nodes(t)`l, Nodes(t)`r
  {
    match t
    case Leaf => true
    case Node(l, x, r) =>
      x.l == Root(l) && x.r == Root(r) && Linked(l) && Linked(r)
  }

  // The parent links are, too
  ghost predicate Parented<T>(t: Shape<T>, p: Item?<T>)
    reads Nodes(t)`p
  {
    match t
    case Leaf => true
    case Node(l, x, r) =>
      x.p == p && Parented(l, x) && Parented(r, x)
  }

  // ---------------------------------------------------------------------
  // Places in a tree

  // The way down to a subtree, innermost step first
  datatype Path<T> =
    | Top
    | Left(up: Path<T>, item: Item<T>, r: Shape<T>)
    | Right(up: Path<T>, l: Shape<T>, item: Item<T>)

  // The tree with `t` put at the end of the way
  ghost function Plug<T>(c: Path<T>, t: Shape<T>): Shape<T>
    decreases c
  {
    match c
    case Top => t
    case Left(up, x, r) => Plug(up, Node(t, x, r))
    case Right(up, l, x) => Plug(up, Node(l, x, t))
  }

  ghost function Before<T>(c: Path<T>): seq<Item<T>> {
    match c
    case Top => []
    case Left(up, _, _) => Before(up)
    case Right(up, l, x) => Before(up) + Items(l) + [x]
  }

  ghost function After<T>(c: Path<T>): seq<Item<T>> {
    match c
    case Top => []
    case Left(up, x, r) => [x] + Items(r) + After(up)
    case Right(up, _, _) => After(up)
  }

  // The parent of what is at the end of the way, if `top` is that of the whole
  ghost function Owner<T>(c: Path<T>, top: Item?<T> := null): Item?<T> {
    if c.Top? then top else c.item
  }

  lemma {:induction false} ItemsOfPlug<T>(c: Path<T>, t: Shape<T>)
    ensures Items(Plug(c, t)) == Before(c) + Items(t) + After(c)
    decreases c
  {
    match c
    case Top =>
    case Left(up, x, r) => ItemsOfPlug(up, Node(t, x, r));
    case Right(up, l, x) => ItemsOfPlug(up, Node(l, x, t));
  }

  // ---------------------------------------------------------------------
  // Sorted means distinct

  // Nodes on the way and beside it: all, and all but the innermost step's own
  ghost function Outside<T>(c: Path<T>): set<Item<T>> {
    match c
    case Top => {}
    case Left(up, x, r) => {x} + Nodes(r) + Outside(up)
    case Right(up, l, x) => {x} + Nodes(l) + Outside(up)
  }

  ghost function Around<T>(c: Path<T>): set<Item<T>> {
    match c
    case Top => {}
    case Left(up, _, r) => Nodes(r) + Outside(up)
    case Right(up, l, _) => Nodes(l) + Outside(up)
  }

  lemma SortedParts<T>(a: seq<Item<T>>, b: seq<Item<T>>)
    requires Sorted(a + b)
    ensures Sorted(a) && Sorted(b)
    ensures forall x: Item<T>, y: Item<T> :: x in a && y in b ==> x.key < y.key
  {
    var s := a + b;
    forall i, j | 0 <= i < j < |a| ensures a[i].key < a[j].key {
      assert s[i] == a[i] && s[j] == a[j];
    }
    forall i, j | 0 <= i < j < |b| ensures b[i].key < b[j].key {
      assert s[|a| + i] == b[i] && s[|a| + j] == b[j];
    }
    forall x: Item<T>, y: Item<T> | x in a && y in b ensures x.key < y.key {
      var i :| 0 <= i < |a| && a[i] == x;
      var j :| 0 <= j < |b| && b[j] == y;
      assert s[i] == x && s[|a| + j] == y;
    }
  }

  // The subtree at a place, and what is left and right of it
  lemma SortedPlace<T>(c: Path<T>, t: Shape<T>)
    requires Sorted(Items(Plug(c, t)))
    ensures Sorted(Items(t))
    ensures forall x: Item<T>, y: Item<T> :: x in Before(c) && y in Items(t) ==> x.key < y.key
    ensures forall x: Item<T>, y: Item<T> :: x in Items(t) && y in After(c) ==> x.key < y.key
    ensures forall x: Item<T>, y: Item<T> :: x in Before(c) && y in After(c) ==> x.key < y.key
  {
    ItemsOfPlug(c, t);
    SortedParts(Before(c) + Items(t), After(c));
    SortedParts(Before(c), Items(t));
  }

  lemma SortedNode<T>(t: Shape<T>)
    requires t.Node? && Sorted(Items(t))
    ensures forall y: Item<T> :: y in Items(t.l) ==> y.key < t.item.key
    ensures forall y: Item<T> :: y in Items(t.r) ==> t.item.key < y.key
  {
    SortedParts(Items(t.l) + [t.item], Items(t.r));
    SortedParts(Items(t.l), [t.item]);
  }

  lemma SortedSubtrees<T>(t: Shape<T>)
    requires t.Node? && Sorted(Items(t))
    ensures Sorted(Items(t.l)) && Sorted(Items(t.r))
  {
    SortedParts(Items(t.l) + [t.item], Items(t.r));
    SortedParts(Items(t.l), [t.item]);
  }

  lemma NodesOfTwig<T>(x: Item<T>)
    ensures Nodes(Node(Leaf, x, Leaf)) == {x}
  {
    assert Items(Node(Leaf, x, Leaf)) == [x];
  }

  lemma SubtreesApart<T>(t: Shape<T>)
    requires t.Node? && Sorted(Items(t))
    ensures Nodes(t.l) !! Nodes(t.r)
    ensures t.item !in Nodes(t.l) && t.item !in Nodes(t.r)
  {
    SortedNode(t);
  }

  lemma SubtreeNodes<T>(t: Shape<T>)
    requires t.Node?
    ensures t.item in Nodes(t) && Nodes(t.l) <= Nodes(t) && Nodes(t.r) <= Nodes(t)
    ensures t.l.Node? ==> t.l.item in Nodes(t)
    ensures t.r.Node? ==> t.r.item in Nodes(t)
    ensures Items<T>(Leaf) == [] && Nodes<T>(Leaf) == {}
  {
  }

  lemma {:induction false} PlacesApart<T>(c: Path<T>, t: Shape<T>)
    requires Sorted(Items(Plug(c, t)))
    ensures Nodes(t) !! Outside(c)
    ensures !c.Top? ==> c.item !in Around(c)
    decreases c
  {
    match c
    case Top =>
    case Left(up, x, r) =>
      PlacesApart(up, Node(t, x, r));
      SortedPlace(up, Node(t, x, r));
      SubtreesApart(Node(t, x, r));
    case Right(up, l, x) =>
      PlacesApart(up, Node(l, x, t));
      SortedPlace(up, Node(l, x, t));
      SubtreesApart(Node(l, x, t));
  }

  // ---------------------------------------------------------------------
  // The links along a way down and beside it; `child` is what it leads to

  ghost predicate LinkedPath<T>(c: Path<T>, child: Item?<T>)
    reads Outside(c)`l, Outside(c)`r
    decreases c
  {
    match c
    case Top => true
    case Left(up, x, r) => x.l == child && x.r == Root(r) && Linked(r) && LinkedPath(up, x)
    case Right(up, l, x) => x.l == Root(l) && x.r == child && Linked(l) && LinkedPath(up, x)
  }

  ghost predicate ParentedPath<T>(c: Path<T>, top: Item?<T> := null)
    reads Outside(c)`p
    decreases c
  {
    match c
    case Top => true
    case Left(up, x, r) => x.p == Owner(up, top) && Parented(r, x) && ParentedPath(up, top)
    case Right(up, l, x) => x.p == Owner(up, top) && Parented(l, x) && ParentedPath(up, top)
  }

  // A whole tree is well linked if the way to any place in it is, and the
  // subtree that is there.
  lemma {:induction false} LinkedAt<T>(c: Path<T>, t: Shape<T>)
    ensures Linked(Plug(c, t)) <==> LinkedPath(c, Root(t)) && Linked(t)
    decreases c
  {
    match c
    case Top =>
    case Left(up, x, r) => LinkedAt(up, Node(t, x, r));
    case Right(up, l, x) => LinkedAt(up, Node(l, x, t));
  }

  lemma LinkedNode<T>(t: Shape<T>)
    requires t.Node? && Linked(t)
    ensures t.item.l == Root(t.l) && t.item.r == Root(t.r) && Linked(t.l) && Linked(t.r)
  {
  }

  lemma {:induction false} ParentedAt<T>(c: Path<T>, t: Shape<T>, top: Item?<T> := null)
    ensures Parented(Plug(c, t), top) <==> ParentedPath(c, top) && Parented(t, Owner(c, top))
    decreases c
  {
    match c
    case Top =>
    case Left(up, x, r) => ParentedAt(up, Node(t, x, r), top);
    case Right(up, l, x) => ParentedAt(up, Node(l, x, t), top);
  }

  lemma {:induction false} PlaceNodes<T>(c: Path<T>, t: Shape<T>)
    ensures Nodes(Plug(c, t)) == Outside(c) + Nodes(t)
    decreases c
  {
    match c
    case Top =>
    case Left(up, x, r) => PlaceNodes(up, Node(t, x, r));
    case Right(up, l, x) => PlaceNodes(up, Node(l, x, t));
  }

  lemma {:induction false} RootOfPlug<T>(c: Path<T>, t: Shape<T>, t': Shape<T>)
    requires !c.Top?
    ensures Root(Plug(c, t)) == Root(Plug(c, t'))
    decreases c
  {
    if !c.up.Top? {
      if c.Left? {
        RootOfPlug(c.up, Node(t, c.item, c.r), Node(t', c.item, c.r));
      } else {
        RootOfPlug(c.up, Node(c.l, c.item, t), Node(c.l, c.item, t'));
      }
    }
  }

  lemma RootAfter<T>(c: Path<T>, t: Shape<T>, t': Shape<T>)
    ensures Root(Plug(c, t')) == if c.Top? then Root(t') else Root(Plug(c, t))
  {
    if !c.Top? {
      RootOfPlug(c, t, t');
    }
  }

  lemma InsertSorted<T>(a: seq<Item<T>>, x: Item<T>, b: seq<Item<T>>)
    requires Sorted(a + b)
    requires forall y: Item<T> :: y in a ==> y.key < x.key
    requires forall y: Item<T> :: y in b ==> x.key < y.key
    ensures Sorted(a + [x] + b)
  {
    SortedParts(a, b);
  }

  // The nodes in order, before and after one is put in
  ghost predicate IsInsertion<T>(s: seq<Item<T>>, x: Item<T>, s': seq<Item<T>>) {
    exists k :: 0 <= k <= |s| && s' == s[..k] + [x] + s[k..]
  }

  // A new leaf at a free place
  lemma Planted<T>(c: Path<T>, item: Item<T>, key: int)
    requires Sorted(Items(Plug(c, Leaf))) && item.key == key
    requires forall x: Item<T> :: x in Before(c) ==> x.key < key
    requires forall x: Item<T> :: x in After(c) ==> key < x.key
    ensures Sorted(Items(Plug(c, Node(Leaf, item, Leaf))))
    ensures forall x: Item<T> :: x in Items(Plug(c, Leaf)) ==> x.key != key
    ensures IsInsertion(Items(Plug(c, Leaf)), item, Items(Plug(c, Node(Leaf, item, Leaf))))
  {
    ItemsOfPlug(c, Leaf);
    ItemsOfPlug(c, Node(Leaf, item, Leaf));
    assert Items(Node(Leaf, item, Leaf)) == [item];
    var a, b := Before(c), After(c);
    assert Items(Plug(c, Leaf)) == a + b;
    InsertSorted(a, item, b);
    assert (a + b)[..|a|] == a && (a + b)[|a|..] == b;
  }

  // The tree with a new leaf, on values
  ghost function Inserted<T>(t: Shape<T>, x: Item<T>): Shape<T> {
    if t.Leaf? then Node(Leaf, x, Leaf)
    else if x.key < t.item.key then Node(Inserted(t.l, x), t.item, t.r)
    else Node(t.l, t.item, Inserted(t.r, x))
  }

  lemma {:induction false} InsertedAt<T>(c: Path<T>, t: Shape<T>, x: Item<T>)
    requires forall y: Item<T> :: y in Before(c) ==> y.key < x.key
    requires forall y: Item<T> :: y in After(c) ==> x.key < y.key
    ensures Plug(c, Inserted(t, x)) == Inserted(Plug(c, t), x)
    decreases c
  {
    match c
    case Top =>
    case Left(up, y, r) =>
      assert y in After(c);
      InsertedAt(up, Node(t, y, r), x);
    case Right(up, l, y) =>
      assert y in Before(c);
      InsertedAt(up, Node(l, y, t), x);
  }

  // What there is to know of a place that a search has come to
  lemma TakenPlace<T>(c: Path<T>, t: Shape<T>)
    requires t.Node?
    ensures t.item in Items(Plug(c, t))
  {
    ItemsOfPlug(c, t);
  }

  lemma FreePlace<T>(c: Path<T>, item: Item<T>)
    requires Sorted(Items(Plug(c, Leaf)))
    requires forall x: Item<T> :: x in Before(c) ==> x.key < item.key
    requires forall x: Item<T> :: x in After(c) ==> item.key < x.key
    ensures item !in Outside(c) && Outside(c) <= Nodes(Plug(c, Leaf))
    ensures forall x: Item<T> :: x in Items(Plug(c, Leaf)) ==> x.key != item.key
    ensures Plug(c, Node(Leaf, item, Leaf)) == Inserted(Plug(c, Leaf), item)
    ensures Sorted(Items(Plug(c, Node(Leaf, item, Leaf))))
    ensures IsInsertion(Items(Plug(c, Leaf)), item, Items(Plug(c, Node(Leaf, item, Leaf))))
  {
    hide Sorted, Items, Before, After, Outside, IsInsertion;
    Planted(c, item, item.key);
    PlaceNodes(c, Leaf);
    InsertedAt(c, Leaf, item);
  }

  // ---------------------------------------------------------------------
  // What deletion puts in place of a node

  // r hung below the maximum of l
  ghost function Joined<T>(l: Shape<T>, r: Shape<T>): Shape<T> {
    if l.Leaf? then r else Node(l.l, l.item, Joined(l.r, r))
  }

  // The tree without the node that has a key, on values
  ghost function Deleted<T>(t: Shape<T>, key: int): Shape<T> {
    if t.Leaf? then Leaf
    else if key < t.item.key then Node(Deleted(t.l, key), t.item, t.r)
    else if key > t.item.key then Node(t.l, t.item, Deleted(t.r, key))
    else Joined(t.l, t.r)
  }

  lemma {:induction false} DeletedAt<T>(c: Path<T>, t: Shape<T>, key: int)
    requires forall y: Item<T> :: y in Before(c) ==> y.key < key
    requires forall y: Item<T> :: y in After(c) ==> key < y.key
    ensures Plug(c, Deleted(t, key)) == Deleted(Plug(c, t), key)
    decreases c
  {
    match c
    case Top =>
    case Left(up, y, r) =>
      assert y in After(c);
      DeletedAt(up, Node(t, y, r), key);
    case Right(up, l, y) =>
      assert y in Before(c);
      DeletedAt(up, Node(l, y, t), key);
  }

  lemma {:induction false} ItemsOfJoined<T>(l: Shape<T>, r: Shape<T>)
    ensures Items(Joined(l, r)) == Items(l) + Items(r)
    decreases l
  {
    if l.Node? {
      ItemsOfJoined(l.r, r);
    }
  }

  lemma {:induction false} JoinedWithNothing<T>(l: Shape<T>)
    ensures Joined(l, Leaf) == l
  {
    if l.Node? {
      JoinedWithNothing(l.r);
    }
  }

  ghost predicate AllRight<T>(c: Path<T>) {
    c.Top? || (c.Right? && AllRight(c.up))
  }

  // One node comes right before another
  ghost predicate Precedes<T>(s: seq<Item<T>>, p: Item?<T>, x: Item<T>) {
    exists k :: 0 < k < |s| && s[k - 1] == p && s[k] == x
  }

  lemma {:induction false} NothingAfter<T>(d: Path<T>)
    requires AllRight(d)
    ensures After(d) == []
    decreases d
  {
    if d.Right? {
      NothingAfter(d.up);
    }
  }

  // What is furthest to the right of the left subtree comes right before the root.
  lemma MaximumPrecedes<T>(c: Path<T>, t: Shape<T>, d: Path<T>, u: Shape<T>)
    requires t.Node? && Plug(d, u) == t.l && AllRight(d) && u.Node? && u.r.Leaf?
    ensures Precedes(Items(Plug(c, t)), u.item, t.item)
  {
    hide Items, Before, After, Plug, Precedes;
    ItemsOfPlug(c, t);
    ItemsOfPlug(d, u);
    NothingAfter(d);
    ItemsAround(t);
    ItemsAround(u);
    PrecedesIn(Before(c), Before(d), Items(u.l), u.item, t.item, Items(t.r), After(c));
  }

  lemma ItemsAround<T>(t: Shape<T>)
    requires t.Node?
    ensures Items(t) == Items(t.l) + [t.item] + Items(t.r) && Items<T>(Leaf) == []
  {
  }

  lemma PrecedesIn<T>(a: seq<Item<T>>, b: seq<Item<T>>, l: seq<Item<T>>, p: Item<T>, x: Item<T>,
                      r: seq<Item<T>>, z: seq<Item<T>>)
    ensures Precedes(a + ((b + (l + [p] + []) + []) + [x] + r) + z, p, x)
  {
    var s, k := a + ((b + (l + [p] + []) + []) + [x] + r) + z, |a| + |b| + |l| + 1;
    assert s[k - 1] == p && s[k] == x;
  }

  lemma {:induction false} JoinedAt<T>(c: Path<T>, u: Shape<T>, r: Shape<T>)
    requires AllRight(c)
    ensures Joined(Plug(c, u), r) == Plug(c, Joined(u, r))
    decreases c
  {
    if c.Right? {
      JoinedAt(c.up, Node(c.l, c.item, u), r);
    }
  }

  // The maximum of the left subtree is apart from everything else around.
  lemma MaximumApart<T>(c: Path<T>, t: Shape<T>, d: Path<T>, u: Shape<T>)
    requires Sorted(Items(Plug(c, t))) && t.Node?
    requires Plug(d, u) == t.l && u.Node?
    ensures u.item !in Outside(c) && u.item !in Nodes(t.r) && u.item in Nodes(t) && u.item != t.item
    ensures u.item !in Outside(d) && u.item !in Nodes(u.l)
  {
    hide Sorted, Items, Nodes, Plug, Outside;
    SortedPlace(c, t);
    SortedSubtrees(t);
    InnerApart(d, u);
    PlacesApart(c, t);
    SubtreesApart(t);
    SubtreeNodes(t);
    PlaceNodes(d, u);
  }

  // So is the root of the right one.
  lemma HangApart<T>(c: Path<T>, t: Shape<T>, d: Path<T>, u: Shape<T>)
    requires Sorted(Items(Plug(c, t))) && t.Node? && t.r.Node?
    requires Plug(d, u) == t.l && u.Node?
    ensures t.r.item !in Outside(c) && t.r.item != t.item && t.r.item in Nodes(t)
    ensures t.r.item !in Outside(d) && t.r.item !in Nodes(u.l) && t.r.item != u.item
    ensures t.r.item !in Nodes(t.r.l) && t.r.item !in Nodes(t.r.r)
  {
    hide Sorted, Items, Nodes, Plug, Outside;
    SortedPlace(c, t);
    SortedSubtrees(t);
    PlacesApart(c, t);
    SubtreesApart(t);
    SubtreeNodes(t);
    SubtreesApart(t.r);
    SubtreeNodes(t.r);
    SubtreeNodes(u);
    PlaceNodes(d, u);
  }

  lemma JoinedAtMaximum<T>(d: Path<T>, u: Shape<T>, r: Shape<T>)
    requires AllRight(d) && u.Node? && u.r.Leaf?
    ensures Joined(Plug(d, u), r) == Plug(d, Node(u.l, u.item, r))
  {
    JoinedAt(d, u, r);
    assert Joined(u.r, r) == r;
  }

  lemma SortedJoined<T>(c: Path<T>, t: Shape<T>)
    requires Sorted(Items(Plug(c, t))) && t.Node?
    ensures Sorted(Items(Joined(t.l, t.r)))
    ensures t.l.Node? ==> Root(Joined(t.l, t.r)) == t.l.item && t.l.item in Nodes(t)
  {
    SortedPlace(c, t);
    Removed(Items(t.l), t.item, Items(t.r));
    ItemsOfJoined(t.l, t.r);
  }

  lemma Children<T>(c: Path<T>, t: Shape<T>)
    requires Sorted(Items(Plug(c, t))) && t.Node? && t.l.Node? && t.r.Node?
    ensures t.l.item != t.r.item && t.l.item != t.item
    ensures t.l.item in Nodes(t) && t.r.item in Nodes(t) && t.item in Nodes(t)
    ensures !c.Top? ==> c.item in Outside(c)
    ensures Nodes(t) !! Outside(c)
  {
    hide Sorted, Items;
    SortedPlace(c, t);
    PlacesApart(c, t);
    SubtreesApart(t);
    SubtreeNodes(t);
    SubtreeNodes(t.l);
    SubtreeNodes(t.r);
  }

  // Nothing but the node itself is lost in the joining.
  lemma NodesOfJoined<T>(t: Shape<T>)
    requires t.Node?
    ensures Nodes(Joined(t.l, t.r)) == Nodes(t.l) + Nodes(t.r)
    ensures Nodes(Joined(t.l, t.r)) <= Nodes(t)
  {
    ItemsOfJoined(t.l, t.r);
  }

  lemma InnerApart<T>(d: Path<T>, u: Shape<T>)
    requires Sorted(Items(Plug(d, u))) && u.Node?
    ensures u.item in Nodes(u) && u.item !in Outside(d) && u.item !in Nodes(u.l)
  {
    hide Sorted, Items, Nodes;
    PlacesApart(d, u);
    SortedPlace(d, u);
    SubtreesApart(u);
    SubtreeNodes(u);
  }

  // The nodes in order, before and after one is taken out
  ghost predicate IsRemoval<T>(s: seq<Item<T>>, x: Item<T>, s': seq<Item<T>>) {
    exists k :: 0 <= k < |s| && s[k] == x && s' == s[..k] + s[k + 1..]
  }

  lemma RemovalAt<T>(a: seq<Item<T>>, x: Item<T>, b: seq<Item<T>>)
    ensures IsRemoval(a + [x] + b, x, a + b)
  {
    var s := a + [x] + b;
    assert s[|a|] == x && a + b == s[..|a|] + s[|a| + 1..];
  }

  lemma ItemsOfNode<T>(c: Path<T>, t: Shape<T>)
    requires t.Node?
    ensures Items(Plug(c, t)) == Before(c) + Items(t.l) + [t.item] + (Items(t.r) + After(c))
  {
    ItemsOfPlug(c, t);
    Regroup(Before(c), Items(t.l) + [t.item], Items(t.r), After(c));
    assert Before(c) + (Items(t.l) + [t.item]) == Before(c) + Items(t.l) + [t.item];
  }

  lemma Regroup<T>(a: seq<T>, b: seq<T>, c: seq<T>, d: seq<T>)
    ensures a + (b + c) + d == (a + b) + (c + d)
  {
  }

  lemma Uprooted<T>(c: Path<T>, t: Shape<T>)
    requires t.Node? && Sorted(Items(Plug(c, t)))
    ensures Sorted(Items(Plug(c, Joined(t.l, t.r))))
    ensures t.item !in Items(Plug(c, Joined(t.l, t.r)))
    ensures IsRemoval(Items(Plug(c, t)), t.item, Items(Plug(c, Joined(t.l, t.r))))
  {
    var a, b := Before(c) + Items(t.l), Items(t.r) + After(c);
    hide Sorted, Items, Plug, Joined, IsRemoval;
    ItemsOfNode(c, t);
    ItemsOfPlug(c, Joined(t.l, t.r));
    ItemsOfJoined(t.l, t.r);
    Regroup(Before(c), Items(t.l), Items(t.r), After(c));
    Removed(a, t.item, b);
    RemovalAt(a, t.item, b);
  }

  lemma Removed<T>(a: seq<Item<T>>, x: Item<T>, b: seq<Item<T>>)
    requires Sorted(a + [x] + b)
    ensures Sorted(a + b) && x !in a + b
  {
    SortedParts(a + [x], b);
    SortedParts(a, [x]);
    assert x in a + [x] && x in [x];
    forall y: Item<T>, z: Item<T> | y in a && z in b
      ensures y.key < z.key
    {
      assert y in a + [x];
    }
  }

  // What a search for the key of an item has to say about the item
  lemma FoundOrNot<T>(c: Path<T>, t: Shape<T>, item: Item<T>)
    requires Sorted(Items(Plug(c, t)))
    requires t.Node? ==> t.item.key == item.key
    requires forall x: Item<T> :: x in Before(c) ==> x.key < item.key
    requires forall x: Item<T> :: x in After(c) ==> item.key < x.key
    ensures item in Items(Plug(c, t)) <==> Root(t) == item
  {
    ItemsOfPlug(c, t);
    if t.Node? {
      SortedPlace(c, t);
      SortedNode(t);
    }
  }

  ghost function At<T>(s: seq<Item<T>>, k: nat): Item?<T> {
    if k < |s| then s[k] else null
  }

  // Which node follows a subtree
  lemma Upwards<T>(c: Path<T>, t: Shape<T>)
    requires t.Node? && Sorted(Items(Plug(c, t)))
    requires LinkedPath(c, t.item)
    ensures !c.Right? ==> At(Items(Plug(c, t)), |Before(c)| + |Items(t)|) == Owner(c)
    ensures !c.Top? ==> (c.item.l == t.item <==> c.Left?)
    ensures c.Right? ==>
              && |Before(c.up)| + |Items(Node(c.l, c.item, t))| == |Before(c)| + |Items(t)|
              && Plug(c.up, Node(c.l, c.item, t)) == Plug(c, t)
  {
    hide Sorted, Nodes;
    ItemsOfPlug(c, t);
    PlacesApart(c, t);
    SubtreeNodes(t);
    if c.Right? && c.l.Node? {
      SubtreeNodes(c.l);
    }
  }

  lemma IndexOfNode<T>(c: Path<T>, t: Shape<T>)
    requires t.Node? && Sorted(Items(Plug(c, t)))
    ensures forall k :: 0 <= k < |Items(Plug(c, t))| && Items(Plug(c, t))[k] == t.item ==>
              k == |Before(c)| + |Items(t.l)|
    ensures Plug(Right(c, t.l, t.item), t.r) == Plug(c, t)
    ensures |Before(Right(c, t.l, t.item))| == |Before(c)| + |Items(t.l)| + 1
    ensures t.r.Leaf? ==> |Items(t)| == |Items(t.l)| + 1
  {
    ItemsOfPlug(c, t);
    assert Items(Plug(c, t))[|Before(c)| + |Items(t.l)|] == t.item;
  }

  // The place of a node that is in a subtree
  lemma {:induction false} Locate<T>(c: Path<T>, t: Shape<T>, x: Item<T>)
    returns (c': Path<T>, t': Shape<T>)
    requires x in Items(t)
    ensures Plug(c', t') == Plug(c, t) && t'.Node? && t'.item == x
    decreases t
  {
    if x == t.item {
      c', t' := c, t;
    } else if x in Items(t.l) {
      c', t' := Locate(Left(c, t.item, t.r), t.l, x);
    } else {
      c', t' := Locate(Right(c, t.l, t.item), t.r, x);
    }
  }

  // ---------------------------------------------------------------------

  // map_item **: where the pointer to a node is kept
  datatype Slot<T> = AtRoot | AtL(owner: Item<T>) | AtR(owner: Item<T>)

  ghost function SlotOf<T>(c: Path<T>): Slot<T> {
    match c
    case Top => AtRoot
    case Left(_, x, _) => AtL(x)
    case Right(_, _, x) => AtR(x)
  }

  // The children of a node
  ghost function Kin<T>(x: Item<T>): set<Item<T>>
    reads x`l, x`r
  {
    (if x.l == null then {} else {x.l}) + (if x.r == null then {} else {x.r})
  }

  class Map<T> {
    var root: Item?<T>
    ghost var shape: Shape<T>

    ghost function Contents(): seq<Item<T>>
      reads this
    {
      Items(shape)
    }

    // Child links form a search tree
    ghost predicate Valid()
      reads this, Nodes(shape)`l, Nodes(shape)`r
    {
      root == Root(shape) && Linked(shape) && Sorted(Items(shape))
    }

    // Parent links agree with them
    ghost predicate Parents()
      reads this, Nodes(shape)`p
    {
      Parented(shape, null)
    }

    constructor ()
      ensures Valid() && Parents() && shape == Leaf
    {
      root, shape := null, Leaf;
    }

    // The children of a stored node are stored, and the right one has a larger key.
    lemma ChildrenStored(x: Item<T>)
      requires Valid() && x in Contents()
      ensures Kin(x) <= Nodes(shape)
      ensures x.r != null ==> x.r in Contents() && x.key < x.r.key
    {
      var c, t := Locate(Top, shape, x);
      LinkedAt(c, t);
      SortedPlace(c, t);
      SortedNode(t);
      ItemsOfPlug(c, t);
    }

    function Get(s: Slot<T>): Item?<T>
      reads this, match s case AtRoot => {} case AtL(x) => {x} case AtR(x) => {x}
    {
      match s
      case AtRoot => root
      case AtL(x) => x.l
      case AtR(x) => x.r
    }

    // _map_find: the place of the key in the tree, taken or free
    method Find(key: int) returns (s: Slot<T>, q: Item?<T>, ghost c: Path<T>, ghost t: Shape<T>)
      requires Valid()
      ensures Plug(c, t) == shape && s == SlotOf(c) && Get(s) == Root(t)
      ensures t.Leaf? ==> q == Owner(c)
      ensures t.Node? ==> t.item.key == key
      ensures forall x: Item<T> :: x in Before(c) ==> x.key < key
      ensures forall x: Item<T> :: x in After(c) ==> key < x.key
      ensures Valid() && LinkedPath(c, Root(t)) && Linked(t)
      ensures old(Parents()) ==> Parents() && ParentedPath(c) && Parented(t, Owner(c))
    {
      s, q, c, t := AtRoot, null, Top, shape;
      while Get(s) != null
        invariant Plug(c, t) == shape && s == SlotOf(c) && Get(s) == Root(t)
        invariant q == Owner(c) && Linked(t)
        invariant Valid() && (old(Parents()) ==> Parents())
        invariant forall x: Item<T> :: x in Before(c) ==> x.key < key
        invariant forall x: Item<T> :: x in After(c) ==> key < x.key
        decreases t
      {
        var here := Get(s);
        if key == here.key {
          LinkedAt(c, t);
          ParentedAt(c, t);
          return;
        }
        SortedPlace(c, t);
        SortedNode(t);
        q := here;
        if key < here.key {
          s := AtL(here);
          c, t := Left(c, here, t.r), t.l;
        } else {
          s := AtR(here);
          c, t := Right(c, t.l, here), t.r;
        }
      }
      LinkedAt(c, t);
      ParentedAt(c, t);
    }

    // What is put there is well linked
    ghost predicate Replaced(c: Path<T>, t: Shape<T>, j: Shape<T>, before: Item?<T>)
      reads this, Nodes(j)`l, Nodes(j)`r, Outside(c)`l, Outside(c)`r
    {
      LinkedPath(c, Root(j)) && Linked(j) && root == if c.Top? then Root(j) else before
    }

    // *s = n, where n is the root of `u`
    method Hoist(s: Slot<T>, n: Item?<T>,
                 ghost c: Path<T>, ghost t: Shape<T>, ghost u: Shape<T>, ghost up: Item?<T>)
      requires s == SlotOf(c) && root == Root(Plug(c, t)) && Sorted(Items(Plug(c, t)))
      requires LinkedPath(c, Root(t)) && Root(u) == n && Nodes(u) !! Outside(c)
      modifies this`root, Outside(c)`l, Outside(c)`r
      ensures LinkedPath(c, n) && root == if c.Top? then n else old(root)
      ensures old(Linked(u)) ==> Replaced(c, t, u, old(root))
      ensures old(ParentedPath(c)) ==> ParentedPath(c)
      ensures old(Parented(u, up)) ==> Parented(u, up)
    {
      PlacesApart(c, t);
      hide Sorted, Items, Nodes, Plug;
      match s {
        case AtRoot => root := n;
        case AtL(o) => o.l := n;
        case AtR(o) => o.r := n;
      }
    }

    // *pp = item and the links of the new leaf
    method Attach(item: Item<T>, s: Slot<T>, q: Item?<T>, ghost c: Path<T>)
      requires s == SlotOf(c) && q == Owner(c) && root == Root(Plug(c, Leaf))
      requires LinkedPath(c, null) && Sorted(Items(Plug(c, Leaf))) && item !in Outside(c)
      modifies this, item, Outside(c)`l, Outside(c)`r
      ensures shape == Plug(c, Node(Leaf, item, Leaf)) && root == Root(shape) && Linked(shape)
      ensures old(ParentedPath(c)) ==> Parented(shape, null)
    {
      hide Sorted, Items, Nodes, Plug, LinkedPath, ParentedPath;
      NodesOfTwig(item);
      Hoist(s, item, c, Leaf, Node(Leaf, item, Leaf), null);
      item.p := q;
      item.l := null;
      item.r := null;

      shape := Plug(c, Node(Leaf, item, Leaf));
      LinkedAt(c, Node(Leaf, item, Leaf));
      ParentedAt(c, Node(Leaf, item, Leaf));
      RootAfter(c, Leaf, Node(Leaf, item, Leaf));
    }

    // map_add
    method Add(item: Item<T>) returns (dupe: Item?<T>)
      requires Valid()
      modifies this, item, Nodes(shape)`l, Nodes(shape)`r
      ensures Valid() && (old(Parents()) ==> Parents())
      ensures dupe != null ==> dupe in Contents() && dupe.key == item.key && unchanged(this) && unchanged(item)
      ensures dupe == null ==> shape == Inserted(old(shape), item)
      ensures dupe == null ==> forall x <- old(Contents()) :: x.key != item.key
      ensures dupe == null ==> IsInsertion(old(Contents()), item, Contents())
    {
      hide Sorted, Items, Nodes, Before, After, Outside, Linked, Parented, LinkedPath, ParentedPath, Inserted, IsInsertion;
      var s, q;
      ghost var c, t;
      s, q, c, t := Find(item.key);
      if Get(s) != null {
        TakenPlace(c, t);
        return Get(s);
      }
      FreePlace(c, item);
      Attach(item, s, q, c);
      return null;
    }

    // The place of a stored node, as deletion finds it
    ghost predicate Placed(item: Item<T>, s: Slot<T>, c: Path<T>, t: Shape<T>)
      reads this, Nodes(t)`l, Nodes(t)`r, Outside(c)`l, Outside(c)`r
    {
      && t.Node? && t.item == item && s == SlotOf(c)
      && root == Root(Plug(c, t)) && Sorted(Items(Plug(c, t)))
      && LinkedPath(c, item) && Linked(t)
    }

    // n->p = p
    method Reparent(n: Item<T>, p: Item?<T>,
                    ghost c: Path<T>, ghost t: Shape<T>, ghost u: Shape<T>, ghost up: Item?<T>, ghost before: Item?<T>)
      requires n == Root(u) && Sorted(Items(u)) && Nodes(u) !! Outside(c)
      requires Replaced(c, t, u, before)
      modifies n`p
      ensures Replaced(c, t, u, before)
      ensures old(ParentedPath(c)) ==> ParentedPath(c)
      ensures old(Parented(u, up)) ==> Parented(u, p)
    {
      SubtreesApart(u);
      assert n in Nodes(u);
      hide Sorted, Items, Nodes;
      n.p := p;
    }

    // *s = n, and n->p = p if there is an n
    method Lift(s: Slot<T>, n: Item?<T>, p: Item?<T>,
                ghost c: Path<T>, ghost t: Shape<T>, ghost u: Shape<T>, ghost up: Item?<T>)
      requires s == SlotOf(c) && root == Root(Plug(c, t)) && Sorted(Items(Plug(c, t)))
      requires LinkedPath(c, Root(t)) && Linked(u) && Root(u) == n && Nodes(u) <= Nodes(t) && Sorted(Items(u))
      modifies this`root, Outside(c)`l, Outside(c)`r, (if n == null then {} else {n})`p
      ensures Replaced(c, t, u, old(root))
      ensures old(ParentedPath(c)) ==> ParentedPath(c)
      ensures old(Parented(u, up)) ==> Parented(u, p)
    {
      PlacesApart(c, t);
      hide Sorted, Items, Nodes, Plug, LinkedPath, ParentedPath, Linked;
      ghost var before := root;
      Hoist(s, n, c, t, u, up);
      if n != null {
        Reparent(n, p, c, t, u, up, before);
      }
    }

    // map_del, no child or one
    method UnlinkOne(item: Item<T>, s: Slot<T>, ghost c: Path<T>, ghost t: Shape<T>)
      requires Placed(item, s, c, t) && (item.l == null || item.r == null)
      modifies this`root, Outside(c)`l, Outside(c)`r, Kin(item)`p
      ensures Replaced(c, t, Joined(t.l, t.r), old(root))
      ensures old(ParentedPath(c) && Parented(t, Owner(c))) ==>
                ParentedPath(c) && Parented(Joined(t.l, t.r), Owner(c))
    {
      hide Sorted, Plug, Items, Nodes, LinkedPath, ParentedPath, Replaced;
      SortedPlace(c, t);
      SortedSubtrees(t);
      JoinedWithNothing(t.l);
      SubtreeNodes(t);
      if item.l != null {
        Lift(s, item.l, item.p, c, t, t.l, item);
      } else {
        Lift(s, item.r, item.p, c, t, t.r, item);    // item.r may be null
      }
    }

    // The way down to the maximum of the left subtree: to the right, for as
    // long as it goes
    method Rightmost(item: Item<T>, s: Slot<T>, ghost c: Path<T>, ghost t: Shape<T>)
      returns (q: Item<T>, ghost d: Path<T>, ghost u: Shape<T>)
      requires Placed(item, s, c, t) && item.l != null
      ensures Placed(item, s, c, t)
      ensures old(ParentedPath(c)) ==> ParentedPath(c)
      ensures old(Parented(t, Owner(c))) ==> Parented(t, Owner(c))
      ensures Plug(d, u) == t.l && AllRight(d) && u.Node? && u.item == q && u.r.Leaf?
      ensures LinkedPath(d, q) && Linked(u)
      ensures item.l.r == null ==> q == item.l
    {
      q, d, u := item.l, Top, t.l;
      while q.r != null
        invariant Plug(d, u) == t.l && AllRight(d) && Root(u) == q && Linked(u)
        invariant item.l.r == null ==> q == item.l
        invariant Placed(item, s, c, t)
        invariant old(ParentedPath(c)) ==> ParentedPath(c)
        invariant old(Parented(t, Owner(c))) ==> Parented(t, Owner(c))
        decreases u
      {
        d, u, q := Right(d, u.l, q), u.r, q.r;
      }
      LinkedAt(d, u);
    }

    // q->r = item->r
    method Hang(q: Item<T>, item: Item<T>, s: Slot<T>,
                ghost c: Path<T>, ghost t: Shape<T>, ghost d: Path<T>, ghost u: Shape<T>)
      requires Placed(item, s, c, t)
      requires Plug(d, u) == t.l && AllRight(d) && u.Node? && u.item == q && u.r.Leaf?
      requires LinkedPath(d, q) && Linked(u)
      modifies q`r
      ensures q.r == item.r == Root(t.r) && item.l == Root(t.l) && Linked(Joined(t.l, t.r))
      ensures LinkedPath(c, item) && root == Root(Plug(c, t))
      ensures old(ParentedPath(c)) ==> ParentedPath(c)
      ensures old(Parented(t, Owner(c))) ==> Parented(t, Owner(c))
    {
      MaximumApart(c, t, d, u);
      JoinedAtMaximum(d, u, t.r);
      hide Sorted, Items, Nodes, Plug;
      q.r := item.r;
      LinkedAt(d, Node(u.l, q, t.r));
    }

    // map_del, two children, as written: item->p, and not item->r->p, is set
    // to the node that item->r is hung below, and is then handed to item->l.
    method UnlinkTwo(item: Item<T>, s: Slot<T>, ghost c: Path<T>, ghost t: Shape<T>)
      requires Placed(item, s, c, t) && item.l != null && item.r != null
      modifies this`root, Outside(c)`l, Outside(c)`r, Nodes(t)`r, item`p, Kin(item)`p
      ensures Replaced(c, t, Joined(t.l, t.r), old(root))
      ensures old(Parented(t, Owner(c))) ==> !Parented(Joined(t.l, t.r), Owner(c))
      ensures old(Parented(t, Owner(c))) ==> old(item.r) != item && old(item.r).p == item
      ensures old(item.l.r) == null ==> old(item.l).p == old(item.l)
      ensures old(item.l) != item && Precedes(Items(Plug(c, t)), old(item.l).p, item)
    {
      hide Sorted, Items, Nodes, Plug, Joined, LinkedPath, ParentedPath, Linked, Precedes;
      LinkedNode(t);
      var q;
      ghost var d, u;
      q, d, u := Rightmost(item, s, c, t);
      MaximumPrecedes(c, t, d, u);
      var l := item.l;
      MaximumApart(c, t, d, u);
      HangApart(c, t, d, u);
      NodesOfJoined(t);
      SortedJoined(c, t);
      Children(c, t);
      Hang(q, item, s, c, t, d, u);
      item.p := q;
      Hoist(s, l, c, t, Joined(t.l, t.r), null);
      l.p := item.p;
    }

    // item->r->p = q, the link that is missing above
    method HangBack(q: Item<T>, item: Item<T>, s: Slot<T>,
                    ghost c: Path<T>, ghost t: Shape<T>, ghost d: Path<T>, ghost u: Shape<T>)
      requires t.Node? && t.item == item && item.r == Root(t.r) && t.r.Node?
      requires Sorted(Items(Plug(c, t))) && LinkedPath(c, item) && Linked(Joined(t.l, t.r))
      requires Plug(d, u) == t.l && AllRight(d) && u.Node? && u.item == q && u.r.Leaf?
      modifies Root(t.r)`p
      ensures LinkedPath(c, item) && Linked(Joined(t.l, t.r))
      ensures old(ParentedPath(c)) ==> ParentedPath(c)
      ensures old(Parented(t, Owner(c))) ==> item.p == Owner(c) && Parented(Joined(t.l, t.r), item)
    {
      MaximumApart(c, t, d, u);
      JoinedAtMaximum(d, u, t.r);
      ParentedAt(d, u, item);
      HangApart(c, t, d, u);
      hide Sorted, Items, Nodes, Plug;
      ghost var agree := Parented(t, Owner(c));
      assert agree ==> Parented(t.l, item) && Parented(t.r, item);
      assert agree ==> ParentedPath(d, item) && Parented(u, Owner(d, item));
      item.r.p := q;
      assert agree ==> ParentedPath(d, item);
      assert agree ==> Parented(t.r, q);
      assert agree ==> Parented(Node(u.l, q, t.r), Owner(d, item));
      ParentedAt(d, Node(u.l, q, t.r), item);
    }

    // map_del, two children, with item->r->p set
    method UnlinkTwoCorrected(item: Item<T>, s: Slot<T>, ghost c: Path<T>, ghost t: Shape<T>)
      requires Placed(item, s, c, t) && item.l != null && item.r != null
      modifies this`root, Outside(c)`l, Outside(c)`r, Nodes(t)`r, Kin(item)`p
      ensures Replaced(c, t, Joined(t.l, t.r), old(root))
      ensures old(ParentedPath(c) && Parented(t, Owner(c))) ==>
                ParentedPath(c) && Parented(Joined(t.l, t.r), Owner(c))
    {
      var q;
      ghost var d, u;
      q, d, u := Rightmost(item, s, c, t);
      hide Sorted, Items, Nodes, Plug, Joined, LinkedPath, ParentedPath, Linked, Parented;
      MaximumApart(c, t, d, u);
      NodesOfJoined(t);
      SubtreeNodes(t);
      SortedJoined(c, t);
      Hang(q, item, s, c, t, d, u);
      HangBack(q, item, s, c, t, d, u);
      Lift(s, item.l, item.p, c, t, Joined(t.l, t.r), item);
    }

    // The end of map_del: the node is out, and its links are cleared.
    method Detach(item: Item<T>, ghost c: Path<T>, ghost t: Shape<T>, ghost before: Item?<T>)
      requires t.Node? && t.item == item && Sorted(Items(Plug(c, t))) && before == Root(Plug(c, t))
      requires Replaced(c, t, Joined(t.l, t.r), before)
      modifies this`shape, item
      ensures shape == Plug(c, Joined(t.l, t.r)) && Valid()
      ensures IsRemoval(Items(Plug(c, t)), item, Contents())
      ensures item.l == item.r == item.p == null
      ensures Parents() <==> old(ParentedPath(c) && Parented(Joined(t.l, t.r), Owner(c)))
    {
      hide Sorted, Items, Plug, Joined, IsRemoval, LinkedPath, ParentedPath, Linked, Parented;
      ghost var j := Joined(t.l, t.r);
      Uprooted(c, t);
      PlaceNodes(c, j);
      RootAfter(c, t, j);
      item.l := null;
      item.r := null;
      item.p := null;
      LinkedAt(c, j);
      ParentedAt(c, j);
      shape := Plug(c, j);
    }

    // map_del.  A lookalike with the key of a stored node is not deleted.
    // When the node has two children, parent links no longer agree: its right
    // child goes on naming it as the parent, and the parent of its left child is
    // the node before it in order, which is that child itself or one below it.
    method Del(item: Item<T>) returns (r: Item?<T>)
      requires Valid()
      modifies this, item, Nodes(shape)`l, Nodes(shape)`r, Kin(item)`p
      ensures Valid()
      ensures item in old(Contents()) ==>
                && r == item && IsRemoval(old(Contents()), item, Contents())
                && shape == Deleted(old(shape), item.key) && item.l == item.r == item.p == null
                && (old(Parents()) ==> (Parents() <==> old(item.l == null || item.r == null)))
                && (old(Parents() && item.l != null && item.r != null) ==> old(item.r).p == item)
                && (old(item.l != null && item.r != null && item.l.r == null) ==> old(item.l).p == old(item.l))
                && (old(item.l != null && item.r != null) ==> Precedes(old(Contents()), old(item.l).p, item))
      ensures item !in old(Contents()) ==>
                r == null && unchanged(this) && unchanged(item) && (old(Parents()) ==> Parents())
    {
      var s, q;
      ghost var c, t;
      s, q, c, t := Find(item.key);
      FoundOrNot(c, t, item);
      PlaceNodes(c, t);
      DeletedAt(c, t, item.key);
      if Get(s) != item {
        return null;
      }
      hide Sorted, Items, Nodes, Plug, IsRemoval, LinkedPath, ParentedPath, Parented, Precedes;
      ghost var before := root;
      if item.l != null && item.r != null {
        UnlinkTwo(item, s, c, t);
      } else {
        UnlinkOne(item, s, c, t);
      }
      Detach(item, c, t, before);
      return item;
    }

    // map_del as it would be with item->r->p set: parent links go on agreeing.
    method DelCorrected(item: Item<T>) returns (r: Item?<T>)
      requires Valid()
      modifies this, item, Nodes(shape)`l, Nodes(shape)`r, Kin(item)`p
      ensures Valid() && (old(Parents()) ==> Parents())
      ensures item in old(Contents()) ==>
                && r == item && IsRemoval(old(Contents()), item, Contents())
                && shape == Deleted(old(shape), item.key) && item.l == item.r == item.p == null
      ensures item !in old(Contents()) ==> r == null && unchanged(this) && unchanged(item)
    {
      var s, q;
      ghost var c, t;
      s, q, c, t := Find(item.key);
      FoundOrNot(c, t, item);
      PlaceNodes(c, t);
      DeletedAt(c, t, item.key);
      if Get(s) != item {
        return null;
      }
      hide Sorted, Items, Nodes, Plug, IsRemoval, LinkedPath, ParentedPath, Parented;
      ghost var before := root;
      if item.l != null && item.r != null {
        UnlinkTwoCorrected(item, s, c, t);
      } else {
        UnlinkOne(item, s, c, t);
      }
      Detach(item, c, t, before);
      return item;
    }

    // map_find
    method FindItem(key: int) returns (x: Item?<T>)
      requires Valid()
      ensures Valid() && (old(Parents()) ==> Parents())
      ensures x != null ==> x in Contents() && x.key == key
      ensures x == null ==> forall y <- Contents() :: y.key != key
    {
      var s, q;
      ghost var c, t;
      s, q, c, t := Find(key);
      ItemsOfPlug(c, t);
      return Get(s);
    }

    // The way down to the first node of a subtree
    method Leftmost(from: Item<T>, ghost c0: Path<T>, ghost t0: Shape<T>) returns (p: Item<T>)
      requires Valid() && Plug(c0, t0) == shape && Root(t0) == from
      ensures Valid() && (old(Parents()) ==> Parents())
      ensures p == At(Contents(), |Before(c0)|) && p.l == null
    {
      LinkedAt(c0, t0);
      p := from;
      ghost var c, t := c0, t0;
      while p.l != null
        invariant Valid() && (old(Parents()) ==> Parents())
        invariant Plug(c, t) == shape && Root(t) == p && Linked(t) && Before(c) == Before(c0)
        decreases t
      {
        c, t, p := Left(c, p, t.r), t.l, p.l;
      }
      ItemsOfPlug(c, t);
    }

    // The way up, until it is from a left subtree or from the root
    method Climb(from: Item<T>, ghost c0: Path<T>, ghost t0: Shape<T>) returns (p: Item?<T>)
      requires Valid() && Parents() && Plug(c0, t0) == shape && Root(t0) == from
      ensures Valid() && Parents()
      ensures p == At(Contents(), |Before(c0)| + |Items(t0)|)
    {
      hide Sorted, Items, Plug, Before, After, LinkedPath, ParentedPath, Linked;
      var now: Item<T> := from;
      ghost var c, t := c0, t0;
      while true
        invariant Valid() && Parents()
        invariant Plug(c, t) == shape && Root(t) == now
        invariant |Before(c)| + |Items(t)| == |Before(c0)| + |Items(t0)|
        decreases c
      {
        LinkedAt(c, t);
        ParentedAt(c, t);
        Upwards(c, t);
        p := now.p;
        if p == null || p.l == now {
          break;
        }
        c, t, now := c.up, Node(c.l, p, t), p;
      }
    }

    // map_walk.  With NULL it gives the first node, with the last it gives NULL.
    // Only to go on from a node does it need parent links.
    method Walk(now: Item?<T>) returns (p: Item?<T>)
      requires Valid()
      requires now != null ==> Parents() && now in Contents()
      ensures Valid() && (old(Parents()) ==> Parents())
      ensures now == null ==> p == At(Contents(), 0) && (p != null ==> p.l == null)
      ensures forall k :: 0 <= k < |Contents()| && Contents()[k] == now ==> p == At(Contents(), k + 1)
    {
      if now == null {
        if root == null {
          return null;
        }
        p := Leftmost(root, Top, shape);
      } else {
        ghost var c, t := Locate(Top, shape, now);
        hide Sorted, Items, Plug, Before, Linked, LinkedPath, Parented;
        IndexOfNode(c, t);
        LinkedAt(c, t);
        if now.r != null {
          p := Leftmost(now.r, Right(c, t.l, now), t.r);
        } else {
          p := Climb(now, c, t);
        }
      }
    }

    // The walk from NULL to NULL, as all callers do it: every node once, in order
    method Traverse() returns (s: seq<Item<T>>)
      requires Valid() && Parents()
      ensures Valid() && Parents() && s == Contents()
    {
      s := [];
      var now := Walk(null);
      while now != null
        invariant Valid() && Parents()
        invariant |s| <= |Contents()| && s == Contents()[..|s|] && now == At(Contents(), |s|)
        decreases |Contents()| - |s|
      {
        s := s + [now];
        now := Walk(now);
      }
    }
  }

  // ---------------------------------------------------------------------
  // The smallest tree that map_del spoils

  // Where the way up from a node is after some steps, or null if it has ended
  ghost function Climbed<T>(from: Item<T>, steps: nat): Item?<T>
    reads *
  {
    if steps == 0 then from
    else
      var now := Climbed(from, steps - 1);
      if now == null || now.p == null || now.p.l == now then null else now.p
  }

  lemma {:induction false} ClimbsForever<T>(x: Item<T>, steps: nat)
    requires x.p == x && x.l != x
    ensures Climbed(x, steps) == x
  {
    if steps > 0 {
      ClimbsForever(x, steps - 1);
    }
  }

  // The way down to the right, from the root to the last node
  ghost function RightSide<T>(t: Shape<T>): set<Item<T>> {
    if t.Leaf? then {} else {t.item} + RightSide(t.r)
  }

  ghost function Last<T>(t: Shape<T>): Item<T>
    requires t.Node?
  {
    if t.r.Leaf? then t.item else Last(t.r)
  }

  lemma {:induction false} LastOnSide<T>(t: Shape<T>)
    requires t.Node? && Linked(t) && Sorted(Items(t))
    ensures Last(t) in RightSide(t)
    ensures Last(t).l == null || Last(t).l in Nodes(t)
    ensures Last(t).l != t.item
  {
    SortedSubtrees(t);
    SubtreesApart(t);
    SubtreeNodes(t);
    if t.l.Node? {
      SubtreeNodes(t.l);
    }
    if t.r.Node? {
      LastOnSide(t.r);
    }
  }

  // Up from there, each node is the right child of the next.
  lemma {:induction false} UpTheSide<T>(t: Shape<T>, p: Item?<T>, x: Item<T>)
    requires Linked(t) && Sorted(Items(t)) && Parented(t, p) && x in RightSide(t)
    ensures if x == t.item then x.p == p else x.p != null && x.p in RightSide(t) && x.p.l != x
  {
    SortedSubtrees(t);
    SubtreesApart(t);
    if t.l.Node? {
      SubtreeNodes(t.l);
    }
    if x != t.item {
      SubtreeNodes(t.r);
      UpTheSide(t.r, t.item, x);
    }
  }

  // A tree whose root has the last node for a parent is a trap: the way up from
  // any node on its right side never ends.  That is what becomes of the left
  // subtree of a deleted node.
  lemma {:induction false} RoundAndRound<T>(t: Shape<T>, x: Item<T>, steps: nat)
    requires t.Node? && Linked(t) && Sorted(Items(t)) && Parented(t, Last(t)) && x in RightSide(t)
    ensures Climbed(x, steps) != null && Climbed(x, steps) in RightSide(t)
  {
    if steps > 0 {
      RoundAndRound(t, x, steps - 1);
      UpTheSide(t, Last(t), Climbed(x, steps - 1));
      LastOnSide(t);
    }
  }

  ghost function Twig<T>(x: Item<T>): Shape<T> {
    Node(Leaf, x, Leaf)
  }

  lemma TreesOfThree<T>(one: Item<T>, two: Item<T>, three: Item<T>)
    requires one.key < two.key < three.key
    ensures Items<T>(Leaf) == []
    ensures Inserted(Leaf, two) == Twig(two) && Items(Twig(two)) == [two]
    ensures Inserted(Twig(two), one) == Node(Twig(one), two, Leaf)
    ensures Items(Node(Twig(one), two, Leaf)) == [one, two]
    ensures Inserted(Node(Twig(one), two, Leaf), three) == Node(Twig(one), two, Twig(three))
    ensures Items(Node(Twig(one), two, Twig(three))) == [one, two, three]
    ensures Deleted(Node(Twig(one), two, Twig(three)), two.key) == Node(Leaf, one, Twig(three))
  {
    assert Items(Twig(one)) == [one] && Items(Twig(two)) == [two] && Items(Twig(three)) == [three];
    assert Joined(Twig(one), Twig(three)) == Node(Leaf, one, Joined(Leaf, Twig(three)));
  }

  lemma TreesOfTwo<T>(one: Item<T>, three: Item<T>)
    requires one.key < three.key
    ensures Items(Node(Leaf, one, Twig(three))) == [one, three]
    ensures Deleted(Node(Leaf, one, Twig(three)), three.key) == Twig(one) && Items(Twig(one)) == [one]
  {
    assert Items(Twig(three)) == [three];
  }

  lemma LinksOfThree<T>(one: Item<T>, two: Item<T>, three: Item<T>)
    requires Linked(Node(Twig(one), two, Twig(three)))
    ensures two.l == one && two.r == three && one.l == one.r == three.l == three.r == null
  {
    assert Linked(Twig(one)) && Linked(Twig(three));
  }

  lemma LinksOfTwo<T>(one: Item<T>, three: Item<T>)
    requires Linked(Node(Leaf, one, Twig(three)))
    ensures one.l == null && one.r == three && three.l == three.r == null
  {
    assert Linked(Twig(three));
  }

  // The middle one of three keys, and then the others below it
  method Three(a: int, b: int, c: int)
    returns (m: Map<int>, one: Item<int>, two: Item<int>, three: Item<int>)
    requires a < b < c
    ensures fresh(m) && fresh(one) && fresh(two) && fresh(three)
    ensures one.key == a && two.key == b && three.key == c
    ensures m.Valid() && m.Parents() && m.shape == Node(Twig(one), two, Twig(three))
  {
    hide Items, Inserted, Deleted, Sorted, Linked, Parented, IsInsertion;
    m := new Map();
    two := new Item(b, b);
    one := new Item(a, a);
    three := new Item(c, c);
    TreesOfThree(one, two, three);
    var dupe := m.Add(two);
    assert dupe == null;
    dupe := m.Add(one);
    assert dupe == null;
    dupe := m.Add(three);
  }

  // When 2 is deleted, 3 keeps it as its parent, and 1 becomes its own.  When 3
  // is deleted as well, a walk that goes on from 1 never ends.
  method Spoiled() returns (m: Map<int>, one: Item<int>, two: Item<int>, three: Item<int>)
    ensures fresh(m) && m.Valid() && m.Contents() == [one]
    ensures two !in m.Contents() && three !in m.Contents() && one.r == null
    ensures forall steps: nat :: Climbed(one, steps) == one
  {
    hide Items, Inserted, Deleted, Sorted, Linked, Parented, IsRemoval, Twig;
    m, one, two, three := Three(1, 2, 3);
    TreesOfThree(one, two, three);
    LinksOfThree(one, two, three);
    var r := m.Del(two);
    assert !m.Parents() && three.p == two && one.p == one;
    TreesOfTwo(one, three);
    LinksOfTwo(one, three);
    r := m.Del(three);
    assert one.p == one;
    LinksOfOne(one);
    forall steps: nat ensures Climbed(one, steps) == one {
      ClimbsForever(one, steps);
    }
  }

  lemma LinksOfOne<T>(one: Item<T>)
    requires Linked(Twig(one))
    ensures one.l == one.r == null && Root(Twig(one)) == one
  {
  }

  lemma TreesOfFour<T>(two: Item<T>, three: Item<T>, four: Item<T>, six: Item<T>)
    requires two.key < three.key < four.key < six.key
    ensures Items(Node(Twig(two), four, Twig(six))) == [two, four, six]
    ensures Inserted(Node(Twig(two), four, Twig(six)), three) == Node(Node(Leaf, two, Twig(three)), four, Twig(six))
    ensures Items(Node(Node(Leaf, two, Twig(three)), four, Twig(six))) == [two, three, four, six]
  {
    TreesOfThree(two, four, six);
    TreesOfTwo(two, three);
    assert Inserted(Twig(two), three) == Node(Leaf, two, Twig(three));
    assert Items(Twig(six)) == [six];
  }

  lemma FourDeleted<T>(two: Item<T>, three: Item<T>, four: Item<T>, six: Item<T>)
    requires two.key < three.key < four.key < six.key
    ensures Deleted(Node(Node(Leaf, two, Twig(three)), four, Twig(six)), four.key) ==
            Node(Leaf, two, Node(Leaf, three, Twig(six)))
  {
    assert Joined(Twig(three), Twig(six)) == Node(Leaf, three, Twig(six));
    assert Joined(Node(Leaf, two, Twig(three)), Twig(six)) == Node(Leaf, two, Joined(Twig(three), Twig(six)));
  }

  lemma TreesBelowFour<T>(two: Item<T>, three: Item<T>, six: Item<T>)
    requires two.key < three.key < six.key
    ensures Items(Node(Leaf, two, Node(Leaf, three, Twig(six)))) == [two, three, six]
    ensures Deleted(Node(Leaf, two, Node(Leaf, three, Twig(six))), six.key) == Node(Leaf, two, Twig(three))
    ensures Items(Node(Leaf, two, Twig(three))) == [two, three]
  {
    TreesOfTwo(three, six);
    TreesOfTwo(two, three);
    assert Deleted(Node(Leaf, three, Twig(six)), six.key) == Node(Leaf, three, Leaf);
  }

  lemma LinksOfFour<T>(two: Item<T>, three: Item<T>, four: Item<T>, six: Item<T>)
    requires Linked(Node(Node(Leaf, two, Twig(three)), four, Twig(six)))
    requires Parented(Node(Node(Leaf, two, Twig(three)), four, Twig(six)), null)
    ensures four.l == two && four.r == six && six.l == six.r == null && three.p == two
  {
    assert Linked(Twig(six));
    assert Parented(Node(Leaf, two, Twig(three)), four);
    assert Parented(Twig(three), two);
  }

  lemma ThreePrecedes<T>(two: Item<T>, three: Item<T>, four: Item<T>, six: Item<T>, p: Item?<T>)
    requires two.key < three.key < four.key < six.key
    requires Precedes([two, three, four, six], p, four)
    ensures p == three
  {
  }

  // 4, and then 2, 6 and 3 below it
  method Four() returns (m: Map<int>, two: Item<int>, three: Item<int>, four: Item<int>, six: Item<int>)
    ensures fresh(m) && fresh(two) && fresh(three) && fresh(four) && fresh(six)
    ensures two.key == 2 && three.key == 3 && four.key == 4 && six.key == 6
    ensures m.Valid() && m.Parents() && m.shape == Node(Node(Leaf, two, Twig(three)), four, Twig(six))
  {
    hide Items, Inserted, Deleted, Sorted, Linked, Parented, IsInsertion, Twig;
    m, two, four, six := Three(2, 4, 6);
    three := new Item(3, 3);
    TreesOfFour(two, three, four, six);
    var dupe := m.Add(three);
  }

  // A case where the left child has a right child: when 4 is deleted, 2 and 3
  // become each other's parents.
  method FourGone() returns (m: Map<int>, two: Item<int>, three: Item<int>, six: Item<int>)
    ensures fresh(m) && fresh(two) && fresh(three) && fresh(six)
    ensures two.key == 2 && three.key == 3 && six.key == 6
    ensures m.Valid() && m.shape == Node(Leaf, two, Node(Leaf, three, Twig(six)))
    ensures two.p == three && three.p == two
  {
    hide Items, Inserted, Deleted, Sorted, Linked, Parented, IsRemoval, Precedes, Twig;
    var four;
    m, two, three, four, six := Four();
    TreesOfFour(two, three, four, six);
    FourDeleted(two, three, four, six);
    LinksOfFour(two, three, four, six);
    var r := m.Del(four);
    ThreePrecedes(two, three, four, six, two.p);
  }

  // When 6 is deleted as well, a walk that goes on from 3 never ends.
  method SpoiledDeeper() returns (m: Map<int>, two: Item<int>, three: Item<int>)
    ensures fresh(m) && m.Valid() && m.Contents() == [two, three]
    ensures two.p == three && three.p == two && three.r == null
    ensures forall steps: nat :: Climbed(three, steps) != null
  {
    hide Items, Deleted, Sorted, Linked, Parented, IsRemoval, Precedes, Twig, Climbed;
    var six;
    m, two, three, six := FourGone();
    TreesBelowFour(two, three, six);
    LinksBelowFour(two, three, six);
    var r := m.Del(six);
    Trapped(two, three);
    forall steps: nat ensures Climbed(three, steps) != null {
      RoundAndRound(m.shape, three, steps);
    }
  }

  lemma LinksBelowFour<T>(two: Item<T>, three: Item<T>, six: Item<T>)
    requires Linked(Node(Leaf, two, Node(Leaf, three, Twig(six))))
    ensures two.l == three.l == null && two.r == three && three.r == six && six.l == six.r == null
  {
    assert Linked(Node(Leaf, three, Twig(six)));
    assert Linked(Twig(six));
  }

  lemma Trapped<T>(two: Item<T>, three: Item<T>)
    requires Linked(Node(Leaf, two, Twig(three))) && two.p == three && three.p == two
    ensures var t := Node(Leaf, two, Twig(three));
            Last(t) == three && three in RightSide(t) && Parented(t, three) && three.r == null
  {
    assert Linked(Twig(three));
    assert Parented(Twig(three), two);
  }
}
