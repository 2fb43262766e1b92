/** The mutable item tree behind every item model, and the row/parent index arithmetic over it. */
module Tree {
  import opened Sequences
  import opened Roster

  /** QList::move: the element at `from` is taken out and put back at position `to`. */
  function Moved<T>(s: seq<T>, from: nat, to: nat): (r: seq<T>)
    requires from < |s| && to < |s|
    ensures |r| == |s| && r[to] == s[from]
  {
    var rest := s[..from] + s[from + 1..];
    Inserted(rest, to, s[from])
  }

  /**
   * Parent and child links agree over `nodes`: what a node lists as a child names it as its parent
   * and conversely, nothing is listed twice, and no link leaves `nodes`.
   */
  ghost predicate Linked(nodes: set<Item>)
    reads nodes
  {
    && (forall n, c :: n in nodes && c in n.children ==> c in nodes && c.parent == n)
    && (forall n :: n in nodes ==> NoDuplicates(n.children))
    && (forall n {:trigger n.parent} :: n in nodes && n.parent != null ==> n.parent in nodes && n in n.parent.children)
  }

  /** `rank` grows from child to parent, so following parents from any node ends. */
  ghost predicate Ranked(nodes: set<Item>, rank: map<Item, nat>)
    reads nodes`parent
  {
    && nodes <= rank.Keys
    && forall n {:trigger n.parent} :: n in nodes && n.parent != null && n.parent in nodes ==> rank[n] < rank[n.parent]
  }

  /** `below` is the subtree under `top`: closed under children, and everything but `top` has its parent in it. */
  ghost predicate Subtree(below: set<Item>, top: Item)
    reads below
  {
    && top in below
    && (forall n, c :: n in below && c in n.children ==> c in below)
    && (forall n :: n in below && n != top ==> n.parent != null && n.parent in below)
  }

  /** Re-parenting outside the moved subtree keeps the tree free of cycles. */
  ghost function Reranked(rank: map<Item, nat>, below: set<Item>, top: Item): map<Item, nat>
    requires top in rank
  {
    map n | n in rank :: if n in below then rank[n] else rank[n] + rank[top] + 1
  }

  /** A new item without children is below everything. */
  ghost function WithLeaf(rank: map<Item, nat>, leaf: Item): map<Item, nat> {
    map n | n in rank.Keys + {leaf} :: if n == leaf then 0 else rank[n] + 1
  }

  /** `top` can be linked with all that is under it to `newParent`, which is not under it. */
  ghost predicate Movable(nodes: set<Item>, rank: map<Item, nat>, below: set<Item>, top: Item, newParent: Item)
    reads nodes
  {
    && Ranked(nodes, rank) && Linked(nodes)
    && top in nodes && below <= nodes && Subtree(below, top) && newParent in nodes - below
  }

  class Item {
    const content: Entry
    var parent: Item?
    var children: seq<Item>

    constructor (content: Entry, newParent: Item?, ghost nodes: set<Item>, ghost rank: map<Item, nat> := map[])
      requires Linked(nodes)
      requires newParent != null ==> newParent in nodes
      modifies if newParent == null then {} else {newParent}
      ensures this.content == content && parent == newParent && children == []
      ensures newParent != null ==> newParent.parent == old(newParent.parent)
                                    && newParent.children == old(newParent.children) + [this]
      ensures Linked(nodes + {this})
      ensures old(Ranked(nodes, rank)) ==> Ranked(nodes + {this}, WithLeaf(rank, this))
    {
      this.content := content;
      parent := null;
      children := [];
      new;
      SetParent(newParent, nodes + {this});
    }

    /** `child` is linked last under `this`; it must not have a parent yet. */
    method AppendChild(child: Item, ghost nodes: set<Item>,
                       ghost rank: map<Item, nat> := map[], ghost below: set<Item> := {})
      requires Linked(nodes) && this in nodes && child in nodes
      requires child.parent == null
      modifies this`children, child`parent
      ensures child.parent == this
      ensures children == old(children) + [child]
      ensures Linked(nodes)
      ensures old(Movable(nodes, rank, below, child, this)) ==> Ranked(nodes, Reranked(rank, below, child))
    {
      hide Movable, Ranked, Reranked;
      child.parent := this;
      children := children + [child];
      Grafted(nodes, rank, below, child, this);
    }

    method InsertChild(row: nat, child: Item, ghost nodes: set<Item>,
                       ghost rank: map<Item, nat> := map[], ghost below: set<Item> := {})
      requires Linked(nodes) && this in nodes && child in nodes
      requires child.parent == null && row <= |children|
      modifies this`children, child`parent
      ensures child.parent == this
      ensures children == Inserted(old(children), row, child)
      ensures Linked(nodes)
      ensures old(Movable(nodes, rank, below, child, this)) ==> Ranked(nodes, Reranked(rank, below, child))
    {
      hide Movable, Ranked, Reranked, Inserted;
      child.parent := this;
      InsertedElements(children, row, child);
      children := Inserted(children, row, child);
      Grafted(nodes, rank, below, child, this);
    }

    method SetParent(newParent: Item?, ghost nodes: set<Item>,
                     ghost rank: map<Item, nat> := map[], ghost below: set<Item> := {})
      requires Linked(nodes) && this in nodes
      requires newParent != null ==> newParent in nodes
      modifies this`parent
      modifies (if parent == null then {} else {parent})`children
      modifies (if newParent == null then {} else {newParent})`children
      ensures parent == newParent
      ensures newParent != null ==> newParent.children == Without(old(newParent.children), this) + [this]
      ensures old(parent) != null && old(parent) != newParent ==>
                old(parent).children == Without(old(parent.children), this)
      ensures Linked(nodes)
      ensures newParent != null && old(Movable(nodes, rank, below, this, newParent)) ==>
                Ranked(nodes, Reranked(rank, below, this))
    {
      hide Movable, Ranked, Reranked, Linked;
      Unlink(nodes);
      if newParent != null {
        newParent.AppendChild(this, nodes);
        Grafted(nodes, rank, below, this, newParent);
      }
    }

    /** The item leaves its parent's list of children. */
    method Unlink(ghost nodes: set<Item>)
      requires Linked(nodes) && this in nodes
      modifies this`parent
      modifies (if parent == null then {} else {parent})`children
      ensures parent == null
      ensures old(parent) != null ==> old(parent).children == Without(old(parent.children), this)
      ensures Linked(nodes)
    {
      if parent != null {
        WithoutNoDuplicates(parent.children, this);
        parent.children := Without(parent.children, this);
      }
      parent := null;
    }

    /** The item takes position `row` among its siblings, whose own order is kept. */
    method SetRow(row: nat, ghost nodes: set<Item>)
      requires Linked(nodes) && this in nodes
      requires parent != null ==> row < |parent.children|
      modifies (if parent == null then {} else {parent})`children
      ensures parent != null ==> |parent.children| == |old(parent.children)| && parent.children[row] == this
      ensures parent != null ==> Without(parent.children, this) == Without(old(parent.children), this)
      ensures Linked(nodes)
    {
      if parent != null {
        var siblings := parent.children;
        MovedSame(siblings, IndexOf(siblings, this), row, this);
        parent.Reorder(Moved(siblings, Row(), row), nodes);
      }
    }

    method Reorder(ordered: seq<Item>, ghost nodes: set<Item>)
      requires Linked(nodes) && this in nodes
      requires NoDuplicates(ordered) && forall c :: c in ordered <==> c in children
      modifies this`children
      ensures children == ordered && Linked(nodes)
    {
      children := ordered;
    }

    function Row(): nat
      reads this, if parent == null then {} else {parent}
    {
      if parent == null then 0 else IndexOf(parent.children, this)
    }

    /**
     * The destructor: the children go first, then the item leaves its parent. What goes is the
     * subtree under the item and nothing else.
     */
    method Delete(ghost nodes: set<Item>, ghost rank: map<Item, nat>)
      returns (ghost gone: set<Item>)
      requires Linked(nodes) && Ranked(nodes, rank) && this in nodes
      modifies nodes`children
      ensures this in gone && gone <= nodes
      ensures forall n :: n in gone && n != this ==> n.parent in gone && rank[n] < rank[this]
      ensures forall n :: n in nodes - gone ==>
                n.children == if n == parent then Without(old(n.children), this) else old(n.children)
      ensures old(children) == [] ==> gone == {this}
      ensures Linked(nodes - gone) && Ranked(nodes - gone, rank)
      decreases rank[this], 1
    {
      gone := {};
      ghost var before := children;
      while children != []
        invariant gone <= nodes - {this} && Linked(nodes - gone)
        invariant before == [] ==> gone == {} && children == []
        invariant forall n :: n in gone ==> n.parent in gone + {this} && rank[n] < rank[this]
        invariant forall n :: n in nodes - gone - {this} ==> n.children == old(n.children)
        decreases |children|
      {
        ghost var below := DeleteFirstChild(nodes - gone, rank);
        assert nodes - gone - below == nodes - (gone + below);
        gone := gone + below;
      }
      LeaveParent(nodes - gone);
      gone := gone + {this};
      assert nodes - (gone - {this}) - {this} == nodes - gone;
    }

    method LeaveParent(ghost nodes: set<Item>)
      requires Linked(nodes) && this in nodes && children == []
      modifies (if parent == null then {} else {parent})`children
      ensures parent != null ==> parent.children == Without(old(parent.children), this)
      ensures children == []
      ensures Linked(nodes - {this})
    {
      if parent != null {
        WithoutNoDuplicates(parent.children, this);
        parent.children := Without(parent.children, this);
      }
    }

    method DeleteFirstChild(ghost nodes: set<Item>, ghost rank: map<Item, nat>)
      returns (ghost gone: set<Item>)
      requires Linked(nodes) && Ranked(nodes, rank) && this in nodes && children != []
      modifies nodes`children
      ensures gone <= nodes - {this}
      ensures forall n :: n in gone ==> n.parent in gone + {this} && rank[n] < rank[this]
      ensures forall n :: n in nodes - gone - {this} ==> n.children == old(n.children)
      ensures children == old(children)[1..]
      ensures Linked(nodes - gone)
      decreases rank[this], 0
    {
      var child := children[0];
      assert IndexOf(children, child) == 0;
      gone := child.Delete(nodes, rank);
    }
  }

  lemma MovedSame<T>(s: seq<T>, from: nat, to: nat, x: T)
    requires from < |s| && to < |s| && NoDuplicates(s) && s[from] == x
    ensures NoDuplicates(Moved(s, from, to))
    ensures forall y :: y in Moved(s, from, to) <==> y in s
    ensures Without(Moved(s, from, to), x) == Without(s, x)
  {
    var rest := s[..from] + s[from + 1..];
    assert s == Inserted(rest, from, x);
    InsertedElements(rest, from, x);
    InsertedElements(rest, to, x);
    WithoutInserted(rest, from, x);
    WithoutInserted(rest, to, x);
  }

  lemma WithoutInserted<T>(s: seq<T>, k: nat, x: T)
    requires k <= |s| && x !in s
    ensures Without(Inserted(s, k, x), x) == s
  {
    var r := Inserted(s, k, x);
    assert r[k] == x && forall i :: 0 <= i < k ==> r[i] == s[i];
    assert IndexOf(r, x) == k;
    assert r[..k] == s[..k] && r[k + 1..] == s[k..];
  }

  /** Linking a subtree under an item outside it makes no cycle: parents still lead upwards. */
  twostate lemma Grafted(nodes: set<Item>, new rank: map<Item, nat>, new below: set<Item>, new top: Item,
                         new newParent: Item)
    requires old(allocated(top)) && old(allocated(newParent)) && old(allocated(below)) && old(allocated(rank))
    requires forall n :: n in nodes ==> n.parent == if n == top then newParent else old(n.parent)
    ensures old(Movable(nodes, rank, below, top, newParent)) ==> Ranked(nodes, Reranked(rank, below, top))
  {
    if old(Movable(nodes, rank, below, top, newParent)) {
      forall n {:trigger n.parent} | n in nodes && n != top && n.parent != null
        ensures (n in below) == (n.parent in below)
      {
        assert old(n.parent) == n.parent;
      }
    }
  }

  // ---- The model on top of the tree: AbstractTreeModel --------------------------------------

  datatype ModelIndex = Invalid | At(row: int, item: Item)

  ghost predicate ValidIndex(p: ModelIndex, root: Item, nodes: set<Item>)
    reads nodes
  {
    p.At? ==>
      && p.item in nodes && p.item != root
      && p.item.parent != null && p.item.parent in nodes
      && 0 <= p.row < |p.item.parent.children| && p.item.parent.children[p.row] == p.item
  }

  function ParentItem(root: Item, p: ModelIndex): Item {
    if p.Invalid? then root else p.item
  }

  function RowCount(root: Item, p: ModelIndex): nat
    reads ParentItem(root, p)
  {
    |ParentItem(root, p).children|
  }

  function Index(root: Item, row: int, p: ModelIndex): ModelIndex
    reads ParentItem(root, p)
  {
    if 0 <= row < RowCount(root, p) then At(row, ParentItem(root, p).children[row]) else Invalid
  }

  function Parent(root: Item, p: ModelIndex): ModelIndex
    requires p.At? ==> p.item.parent != null
    reads if p.Invalid? then {} else {p.item}
    reads if p.Invalid? || p.item.parent == null then {} else {p.item.parent}
    reads if p.Invalid? || p.item.parent == null || p.item.parent.parent == null then {} else {p.item.parent.parent}
  {
    if p.Invalid? || p.item.parent == root then Invalid else
      var parentItem := p.item.parent;
      At(if parentItem.parent != null then parentItem.Row() else 0, parentItem)
  }

  lemma IndexOfUnique<T>(s: seq<T>, k: nat)
    requires NoDuplicates(s) && k < |s|
    ensures IndexOf(s, s[k]) == k
  {
  }

  /** Going down to any row and back up returns the index one started from. */
  lemma ParentOfIndex(root: Item, nodes: set<Item>, row: int, p: ModelIndex)
    requires Linked(nodes) && root in nodes && ValidIndex(p, root, nodes)
    requires 0 <= row < RowCount(root, p)
    ensures var i := Index(root, row, p);
            && i.At? && ValidIndex(i, root, nodes) == (i.item != root)
            && Parent(root, i) == p
  {
    var i := Index(root, row, p);
    assert i.item.parent == ParentItem(root, p);
    if p.At? {
      IndexOfUnique(p.item.parent.children, p.row);
    }
  }

  /** An item's own row under its parent leads back to the item. */
  lemma IndexOfParent(root: Item, nodes: set<Item>, x: Item)
    requires Linked(nodes) && root in nodes && root.parent == null
    requires x in nodes && x.parent != null
    requires x.parent != root ==> x.parent.parent != null
    ensures var i := At(x.Row(), x);
            && ValidIndex(i, root, nodes) && ValidIndex(Parent(root, i), root, nodes)
            && Index(root, x.Row(), Parent(root, i)) == i
  {
    IndexOfUnique(x.parent.children, x.Row());
    if x.parent != root {
      IndexOfUnique(x.parent.parent.children, x.parent.Row());
    }
  }
}
