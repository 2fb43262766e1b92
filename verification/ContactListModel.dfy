/** The roster tree, the index from contacts to their leaves, and the queue of batched updates. */
module RosterModel {
  import opened Sequences
  import opened Tree
  import opened Roster

  datatype Operation = Add | Update | GroupsChanged

  // ---- The shape of the tree ---------------------------------------------------------------

  predicate Fits(child: Entry, parent: Entry) {
    match child
    case Root => false
    case Account(_) => parent.Root?
    case Group(_, _) => parent.Account?
    case Leaf(_) => parent.Account? || parent.Group?
  }

  function Level(e: Entry): nat {
    match e
    case Root => 3
    case Account(_) => 2
    case Group(_, _) => 1
    case Leaf(_) => 0
  }

  ghost function Levels(nodes: set<Item>): map<Item, nat> {
    map n | n in nodes :: Level(n.content)
  }

  function SpotUnder(parent: Entry): Spot {
    match parent
    case Group(special, name) => InGroup(special, name)
    case _ => Direct
  }

  /** The name of the account an item sits under, found by walking up. */
  ghost function AccountAbove(n: Item): string
    reads n, if n.parent == null then {} else {n.parent}
  {
    if n.parent == null then ""
    else if n.parent.content.Account? then n.parent.content.account
    else if n.parent.parent == null || !n.parent.parent.content.Account? then ""
    else n.parent.parent.content.account
  }

  ghost predicate WellNamed(e: Entry, names: Names) {
    e.Group? ==>
      if e.special == NoSpecial then Ordinary(e.name, names) else e.name == names(e.special)
  }

  ghost predicate DifferingContents(items: seq<Item>) {
    forall a, b :: a in items && b in items && a.content == b.content ==> a == b
  }

  /**
   * Root, accounts, groups and contacts nest as they should; siblings differ in content (so group
   * names are distinct, special groups unique, and no group holds a contact twice); every contact
   * is under its own account; no group outside `open` is empty.
   */
  ghost predicate Shape(root: Item, nodes: set<Item>, names: Names, open: set<Item>)
    reads nodes
  {
    && Linked(nodes)
    && Nested(root, nodes)
    && Tidy(nodes, names, open)
    && AtHome(nodes)
  }

  ghost predicate Nested(root: Item, nodes: set<Item>)
    reads nodes
  {
    && root in nodes && root.parent == null && root.content == Root
    && forall n {:trigger n.parent} :: n in nodes && n != root ==> n.parent != null && Fits(n.content, n.parent.content)
  }

  ghost predicate Tidy(nodes: set<Item>, names: Names, open: set<Item>)
    reads nodes
  {
    && (forall n :: n in nodes ==> DifferingContents(n.children) && WellNamed(n.content, names))
    && (forall n :: n in nodes && n.content.Leaf? ==> n.children == [])
    && (forall n :: n in nodes && n.content.Group? && n !in open ==> n.children != [])
  }

  ghost predicate AtHome(nodes: set<Item>)
    reads nodes
  {
    forall n :: n in nodes && n.content.Leaf? ==>
      n.parent != null && n.parent in nodes && AccountAbove(n) == n.content.contact.account
  }

  lemma ShapeRanked(root: Item, nodes: set<Item>, names: Names, open: set<Item>)
    requires Shape(root, nodes, names, open)
    ensures Ranked(nodes, Levels(nodes))
  {
  }

  /** `home` gives for every contact leaf the account or group it is linked under. */
  ghost predicate Housed(nodes: set<Item>, home: map<Item, Item>)
    reads nodes
  {
    && home.Keys <= nodes
    && (forall n :: n in nodes && n.content.Leaf? ==> n in home)
    && (forall n :: n in home ==> n.content.Leaf? && n.parent == home[n])
  }

  /**
   * The index lists exactly the contact leaves, each once and under its own contact; contacts sit
   * directly under their account exactly when they are the account itself or groups are off.
   */
  ghost predicate Indexed(monitored: map<Contact, seq<Item>>, home: map<Item, Item>, groupsEnabled: bool) {
    OwnLeaves(monitored, home) && EveryLeaf(monitored, home, groupsEnabled)
  }

  ghost predicate OwnLeaves(monitored: map<Contact, seq<Item>>, home: map<Item, Item>) {
    && (forall c :: c in monitored ==> monitored[c] != [] && NoDuplicates(monitored[c]))
    && (forall c, n :: c in monitored && n in monitored[c] ==> n in home && n.content == Leaf(c))
  }

  ghost predicate EveryLeaf(monitored: map<Contact, seq<Item>>, home: map<Item, Item>, groupsEnabled: bool) {
    forall n :: n in home ==>
      && n.content.Leaf? && n.content.contact in monitored && n in monitored[n.content.contact]
      && (home[n].content.Account? <==> n.content.contact.isSelf || !groupsEnabled)
  }

  /** Where the leaves of one contact are shown. */
  ghost function SpotsOf(leaves: seq<Item>, home: map<Item, Item>): set<Spot> {
    set n | n in leaves && n in home :: SpotUnder(home[n].content)
  }

  ghost function ViewOf(monitored: map<Contact, seq<Item>>, home: map<Item, Item>): map<Contact, set<Spot>> {
    map c | c in monitored :: SpotsOf(monitored[c], home)
  }

  function LeavesOf(monitored: map<Contact, seq<Item>>, c: Contact): seq<Item> {
    if c in monitored then monitored[c] else []
  }

  ghost function ShownAt(view: map<Contact, set<Spot>>, c: Contact): set<Spot> {
    if c in view then view[c] else {}
  }

  lemma SpotsAppend(leaves: seq<Item>, home: map<Item, Item>, item: Item, parent: Item)
    requires item !in home && forall n :: n in leaves ==> n in home
    ensures SpotsOf(leaves + [item], home[item := parent]) == SpotsOf(leaves, home) + {SpotUnder(parent.content)}
  {
    var home', leaves' := home[item := parent], leaves + [item];
    forall n | n in leaves'
      ensures SpotUnder(home'[n].content) in SpotsOf(leaves, home) + {SpotUnder(parent.content)}
    {
    }
    forall n | n in leaves
      ensures SpotUnder(home[n].content) in SpotsOf(leaves', home')
    {
      assert n in leaves' && home'[n] == home[n];
    }
    assert item in leaves' && home'[item] == parent;
  }

  lemma IndexedAppend(monitored: map<Contact, seq<Item>>, home: map<Item, Item>, groupsEnabled: bool,
                      c: Contact, item: Item, parent: Item)
    requires Indexed(monitored, home, groupsEnabled) && item !in home && item.content == Leaf(c)
    requires parent.content.Account? <==> c.isSelf || !groupsEnabled
    ensures Indexed(monitored[c := LeavesOf(monitored, c) + [item]], home[item := parent], groupsEnabled)
  {
  }

  /** QMultiHash::take: the value inserted last for `c` is taken out. */
  function Dropped(monitored: map<Contact, seq<Item>>, c: Contact): (r: map<Contact, seq<Item>>)
    requires c in monitored && monitored[c] != []
    ensures r.Keys == if |monitored[c]| == 1 then monitored.Keys - {c} else monitored.Keys
    ensures forall d :: d in r ==> r[d] == if d == c then monitored[c][..|monitored[c]| - 1] else monitored[d]
  {
    if |monitored[c]| == 1 then monitored - {c} else monitored[c := monitored[c][..|monitored[c]| - 1]]
  }

  lemma IndexedDrop(monitored: map<Contact, seq<Item>>, home: map<Item, Item>, groupsEnabled: bool, c: Contact)
    requires Indexed(monitored, home, groupsEnabled) && c in monitored && monitored[c] != []
    ensures Indexed(Dropped(monitored, c), home - {monitored[c][|monitored[c]| - 1]}, groupsEnabled)
  {
    hide Dropped;
    var leaves := monitored[c];
    var item, rest := leaves[|leaves| - 1], leaves[..|leaves| - 1];
    assert leaves == rest + [item];
    OwnLeavesDrop(monitored, home, c, rest, item);
    EveryLeafDrop(monitored, home, groupsEnabled, c, rest, item);
  }

  lemma OwnLeavesDrop(monitored: map<Contact, seq<Item>>, home: map<Item, Item>, c: Contact,
                      rest: seq<Item>, item: Item)
    requires OwnLeaves(monitored, home) && c in monitored && monitored[c] == rest + [item]
    ensures OwnLeaves(Dropped(monitored, c), home - {item})
  {
    hide Dropped;
    var m := Dropped(monitored, c);
    assert item in monitored[c] && item.content == Leaf(c);
    forall i | 0 <= i < |rest|
      ensures rest[i] != item
    {
      assert monitored[c][i] != monitored[c][|rest|];
    }
    forall d, n | d in m && n in m[d]
      ensures n in home - {item} && n.content == Leaf(d)
    {
      assert n in monitored[d];
    }
  }

  lemma EveryLeafDrop(monitored: map<Contact, seq<Item>>, home: map<Item, Item>, groupsEnabled: bool, c: Contact,
                      rest: seq<Item>, item: Item)
    requires EveryLeaf(monitored, home, groupsEnabled) && c in monitored && monitored[c] == rest + [item]
    ensures EveryLeaf(Dropped(monitored, c), home - {item}, groupsEnabled)
  {
    hide Dropped;
  }

  lemma ViewDrop(monitored: map<Contact, seq<Item>>, home: map<Item, Item>, groupsEnabled: bool, c: Contact)
    requires Indexed(monitored, home, groupsEnabled) && c in monitored && monitored[c] != []
    ensures ViewOf(Dropped(monitored, c), home - {monitored[c][|monitored[c]| - 1]}) - {c} ==
            ViewOf(monitored, home) - {c}
  {
    var item := monitored[c][|monitored[c]| - 1];
    assert item in monitored[c] && item.content == Leaf(c);
    forall d | d in monitored && d != c
      ensures SpotsOf(monitored[d], home - {item}) == SpotsOf(monitored[d], home)
    {
      assert forall n :: n in monitored[d] ==> n.content == Leaf(d);
    }
  }

  lemma ViewAppend(monitored: map<Contact, seq<Item>>, home: map<Item, Item>, groupsEnabled: bool,
                   c: Contact, item: Item, parent: Item)
    requires Indexed(monitored, home, groupsEnabled) && item !in home && item.content == Leaf(c)
    ensures ViewOf(monitored[c := LeavesOf(monitored, c) + [item]], home[item := parent])
            == ViewOf(monitored, home)[c := ShownAt(ViewOf(monitored, home), c) + {SpotUnder(parent.content)}]
  {
    SpotsAppend(LeavesOf(monitored, c), home, item, parent);
    assert SpotsOf([], home) == {};
    forall d | d in monitored && d != c
      ensures SpotsOf(monitored[d], home[item := parent]) == SpotsOf(monitored[d], home)
    {
      assert item !in monitored[d];
    }
  }

  ghost function Placements(nodes: set<Item>): set<Placement>
    reads nodes
  {
    set n | n in nodes && n.content.Leaf? && n.parent != null && n.parent in nodes ::
      Placement(AccountAbove(n), SpotUnder(n.parent.content), n.content.contact)
  }

  lemma ItemFacts(root: Item, nodes: set<Item>, names: Names, open: set<Item>, n: Item)
    requires Shape(root, nodes, names, open) && n in nodes && n != root
    ensures Linked(nodes) && Ranked(nodes, Levels(nodes))
    ensures n.parent != null && n.parent in nodes && n.parent != n && Fits(n.content, n.parent.content)
    ensures root in nodes && root.content == Root
  {
    ShapeRanked(root, nodes, names, open);
  }

  lemma ChildFacts(root: Item, nodes: set<Item>, names: Names, open: set<Item>, parent: Item, n: Item)
    requires Shape(root, nodes, names, open) && parent in nodes && n in parent.children
    ensures n in nodes && n.parent == parent && WellNamed(n.content, names)
  {
  }

  // ---- Looking things up -------------------------------------------------------------------

  method FindAccount(item: Item, account: string) returns (res: Item?)
    ensures res != null ==> res in item.children && res.content == Account(account)
    ensures res == null ==> forall n :: n in item.children ==> n.content != Account(account)
  {
    for i := 0 to |item.children|
      invariant forall n :: n in item.children[..i] ==> n.content != Account(account)
    {
      if item.children[i].content == Account(account) {
        return item.children[i];
      }
    }
    return null;
  }

  method FindGroupNamed(item: Item, name: string) returns (res: Item?)
    ensures res != null ==> res in item.children && res.content.Group? && res.content.name == name
    ensures res == null ==> forall n :: n in item.children ==> !(n.content.Group? && n.content.name == name)
  {
    for i := 0 to |item.children|
      invariant forall n :: n in item.children[..i] ==> !(n.content.Group? && n.content.name == name)
    {
      var e := item.children[i].content;
      if e.Group? && e.name == name {
        return item.children[i];
      }
    }
    return null;
  }

  method FindSpecialGroup(item: Item, special: Special) returns (res: Item?)
    ensures res != null ==> res in item.children && res.content.Group? && res.content.special == special
    ensures res == null ==> forall n :: n in item.children ==> !(n.content.Group? && n.content.special == special)
  {
    for i := 0 to |item.children|
      invariant forall n :: n in item.children[..i] ==> !(n.content.Group? && n.content.special == special)
    {
      var e := item.children[i].content;
      if e.Group? && e.special == special {
        return item.children[i];
      }
    }
    return null;
  }

  method FindContact(item: Item, contact: Contact) returns (res: Item?)
    ensures res != null ==> res in item.children && res.content == Leaf(contact)
    ensures res == null ==> forall n :: n in item.children ==> n.content != Leaf(contact)
  {
    for i := 0 to |item.children|
      invariant forall n :: n in item.children[..i] ==> n.content != Leaf(contact)
    {
      if item.children[i].content == Leaf(contact) {
        return item.children[i];
      }
    }
    return null;
  }

  // ---- The queue, on values ----------------------------------------------------------------

  function Simplified(operations: set<Operation>): set<Operation> {
    if Add in operations then {Add} else operations
  }

  function QueuedFor(queue: map<Contact, set<Operation>>, c: Contact): set<Operation> {
    if c in queue then queue[c] else {}
  }

  function NamesOf(groups: seq<Item>): (r: seq<string>)
    ensures |r| == |groups|
    ensures forall i :: 0 <= i < |groups| ==> r[i] == if groups[i].content.Group? then groups[i].content.name else ""
  {
    seq(|groups|, i requires 0 <= i < |groups| => if groups[i].content.Group? then groups[i].content.name else "")
  }

  /**
   * Whether the groups a contact is shown in are not the ones its data asks for. The sorted lists
   * of names are compared, which is to compare them as multisets.
   */
  predicate Misplaced(groups: seq<Item>, info: Info) {
    if SpecialGroupFor(info) == NoSpecial then
      multiset(NamesOf(groups)) != multiset(Groups(info))
    else
      |groups| > 1 || (|groups| == 1 && groups[0].content.Group? && groups[0].content.special != SpecialGroupFor(info))
  }

  ghost function SpotsIn(groups: seq<Item>): set<Spot> {
    set g | g in groups :: SpotUnder(g.content)
  }

  /** For groups that exist in a well-formed tree, the comparison is right in both directions. */
  lemma MisplacedExactly(groups: seq<Item>, info: Info, names: Names)
    requires groups != [] && Unambiguous(info, names)
    requires forall g :: g in groups ==> g.content.Group? && WellNamed(g.content, names)
    requires forall i, j :: 0 <= i < j < |groups| ==> groups[i].content != groups[j].content
    ensures Misplaced(groups, info) <==> SpotsIn(groups) != GroupSpots(SpecialGroupFor(info), GroupNames(info), names)
  {
    if SpecialGroupFor(info) == NoSpecial {
      OwnMisplaced(groups, info, names);
    } else {
      SpecialMisplaced(groups, info, names);
    }
  }

  /** A contact shown in no group counts as misplaced unless it is of a special kind. */
  lemma NoneMisplaced(info: Info)
    ensures Misplaced([], info) <==> SpecialGroupFor(info) == NoSpecial
  {
    assert |multiset(NamesOf([]))| == 0;
    assert Groups(info)[0] in multiset(Groups(info));
  }

  lemma SpecialMisplaced(groups: seq<Item>, info: Info, names: Names)
    requires groups != [] && SpecialGroupFor(info) != NoSpecial
    requires forall g :: g in groups ==> g.content.Group? && WellNamed(g.content, names)
    requires forall i, j :: 0 <= i < j < |groups| ==> groups[i].content != groups[j].content
    ensures Misplaced(groups, info) <==> SpotsIn(groups) != GroupSpots(SpecialGroupFor(info), GroupNames(info), names)
  {
    var special := SpecialGroupFor(info);
    assert GroupNames(info) == [""];
    assert "" in [""] && GroupSpots(special, [""], names) == {InGroup(special, names(special))};
    assert SpotUnder(groups[0].content) in SpotsIn(groups);
    if |groups| > 1 {
      assert SpotUnder(groups[1].content) in SpotsIn(groups);
    } else {
      assert groups == [groups[0]];
      assert SpotsIn(groups) == {SpotUnder(groups[0].content)};
    }
  }

  lemma OwnMisplaced(groups: seq<Item>, info: Info, names: Names)
    requires SpecialGroupFor(info) == NoSpecial && Unambiguous(info, names)
    requires forall g :: g in groups ==> g.content.Group? && WellNamed(g.content, names)
    requires forall i, j :: 0 <= i < j < |groups| ==> groups[i].content != groups[j].content
    ensures multiset(NamesOf(groups)) != multiset(Groups(info))
            <==> SpotsIn(groups) != GroupSpots(NoSpecial, Groups(info), names)
  {
    var shown, own := NamesOf(groups), Groups(info);
    OwnGroupsUnambiguous(info, names);
    if multiset(shown) == multiset(own) {
      SameSpots(groups, own, names);
    }
    if SpotsIn(groups) == GroupSpots(NoSpecial, own, names) {
      SameNames(groups, own, names);
      SameElements(shown, own);
    }
  }

  lemma SameSpots(groups: seq<Item>, own: seq<string>, names: Names)
    requires multiset(NamesOf(groups)) == multiset(own)
    requires forall g :: g in own ==> Ordinary(g, names)
    requires forall g :: g in groups ==> g.content.Group? && WellNamed(g.content, names)
    ensures SpotsIn(groups) == GroupSpots(NoSpecial, own, names)
  {
    var shown := NamesOf(groups);
    forall i | 0 <= i < |groups|
      ensures groups[i].content == Group(NoSpecial, shown[i]) && shown[i] in own
    {
      assert groups[i] in groups;
      assert shown[i] in multiset(shown);
      assert Ordinary(shown[i], names);
    }
    forall g | g in own
      ensures InGroup(NoSpecial, g) in SpotsIn(groups)
    {
      assert g in multiset(own);
      assert g in shown;
    }
  }

  lemma SameNames(groups: seq<Item>, own: seq<string>, names: Names)
    requires SpotsIn(groups) == GroupSpots(NoSpecial, own, names)
    requires forall g :: g in groups ==> g.content.Group?
    requires forall i, j :: 0 <= i < j < |groups| ==> groups[i].content != groups[j].content
    ensures NoDuplicates(NamesOf(groups))
    ensures forall x :: x in NamesOf(groups) <==> x in own
  {
    var shown := NamesOf(groups);
    forall i | 0 <= i < |groups|
      ensures groups[i].content == Group(NoSpecial, shown[i]) && shown[i] in own
    {
      assert groups[i] in groups;
      assert SpotUnder(groups[i].content) in SpotsIn(groups);
    }
    forall g | g in own
      ensures g in shown
    {
      assert GroupSpot(NoSpecial, g, names) in SpotsIn(groups);
    }
  }

  /** The contacts a commit has to lay out anew. */
  ghost function ToAdd(queued: map<Contact, set<Operation>>): set<Contact> {
    set c | c in queued && (Add in queued[c] || GroupsChanged in queued[c])
  }

  /**
   * The contacts shown or waiting to be added are the expected ones, and each one shown is where
   * it is wanted unless it is queued to be laid out anew. Nothing is said about the contacts in `skip`.
   */
  ghost predicate InStep(view: map<Contact, set<Spot>>, queue: map<Contact, set<Operation>>,
                         wanted: map<Contact, set<Spot>>, skip: set<Contact>) {
    && (forall c :: c in queue ==> if c in view then Add !in queue[c] else queue[c] == {Add})
    && view.Keys + queue.Keys + skip == wanted.Keys + skip
    && (forall c :: c in view && c !in skip && view[c] != wanted[c] ==> GroupsChanged in QueuedFor(queue, c))
  }

  lemma Enqueued(view: map<Contact, set<Spot>>, queue: map<Contact, set<Operation>>,
                 wanted: map<Contact, set<Spot>>, c: Contact, operation: Operation)
    requires InStep(view, queue, wanted, {c}) && c in wanted
    requires operation == Add <==> c !in view
    requires operation == Update && view[c] != wanted[c] ==> GroupsChanged in QueuedFor(queue, c)
    ensures InStep(view, queue[c := QueuedFor(queue, c) + {operation}], wanted, {})
  {
    var queue' := queue[c := QueuedFor(queue, c) + {operation}];
    forall d | d in view && view[d] != wanted[d]
      ensures GroupsChanged in QueuedFor(queue', d)
    {
    }
    assert view.Keys + queue'.Keys == wanted.Keys;
  }

  /** Leaving out what was queued for a new layout and adding it again puts everything where it is wanted. */
  lemma Settle(before: map<Contact, set<Spot>>, queued: map<Contact, set<Operation>>,
               wanted: map<Contact, set<Spot>>, added: map<Contact, set<Spot>>)
    requires InStep(before, queued, wanted, {})
    requires added.Keys == ToAdd(queued) && forall c :: c in added ==> c in wanted && added[c] == wanted[c]
    ensures before - ToAdd(queued) + added == wanted
  {
    forall c | c in before && c !in ToAdd(queued)
      ensures c in wanted && before[c] == wanted[c]
    {
      assert c in before.Keys + queued.Keys;
    }
    forall c | c in wanted && c !in before
      ensures c in ToAdd(queued)
    {
      assert c in before.Keys + queued.Keys;
    }
  }

  lemma StepWithout(view: map<Contact, set<Spot>>, queue: map<Contact, set<Operation>>,
                    wanted: map<Contact, set<Spot>>, c: Contact)
    requires InStep(view, queue, wanted, {})
    ensures if c in view then InStep(view - {c}, queue - {c}, wanted - {c}, {})
            else InStep(view - {c}, queue, wanted, {})
  {
    if c in view {
      forall d | d in view - {c} && (view - {c})[d] != (wanted - {c})[d]
        ensures GroupsChanged in QueuedFor(queue - {c}, d)
      {
        assert d in view && view[d] != wanted[d];
      }
      assert (view - {c}).Keys + (queue - {c}).Keys == (wanted - {c}).Keys;
    } else {
      assert view - {c} == view;
    }
  }

  class ContactListModel {
    const names: Names
    const root: Item
    var groupsEnabled: bool
    var monitored: map<Contact, seq<Item>>
    var queue: map<Contact, set<Operation>>
    /** The contact list the model shows, and the present data of every contact. */
    var contacts: seq<Contact>
    var info: map<Contact, Info>
    ghost var nodes: set<Item>
    ghost var home: map<Item, Item>
    /** Contacts that left the list while their addition was still only queued. */
    ghost var stale: set<Contact>

    ghost predicate Structure()
      reads this`nodes, this`home, this`monitored, this`groupsEnabled, nodes
    {
      Shape(root, nodes, names, {}) && Housed(nodes, home) && Indexed(monitored, home, groupsEnabled)
    }

    /** Where every monitored contact is shown. */
    ghost function View(): map<Contact, set<Spot>>
      reads this`monitored, this`home
    {
      ViewOf(monitored, home)
    }

    constructor (names: Names)
      ensures Structure() && fresh(nodes) && Placements(nodes) == {}
      ensures this.names == names && !groupsEnabled
      ensures monitored == map[] && queue == map[] && contacts == [] && info == map[] && stale == {}
    {
      this.names := names;
      root := new Item(Root, null, {});
      groupsEnabled := false;
      monitored, queue, contacts, info, home, stale := map[], map[], [], map[], map[], {};
      new;
      nodes := {root};
    }

    /** A new item holding `e` becomes the last child of `parent`. */
    method AppendItem(parent: Item, e: Entry, ghost open: set<Item>) returns (item: Item)
      requires Shape(root, nodes, names, open) && open <= nodes && parent in nodes
      requires Fits(e, parent.content) && WellNamed(e, names)
      requires forall n :: n in parent.children ==> n.content != e
      requires e.Leaf? ==>
                 e.contact.account == if parent.content.Account? then parent.content.account else AccountAbove(parent)
      modifies this`nodes, parent`children
      ensures fresh(item) && item.content == e && item.parent == parent && item.children == []
      ensures nodes == old(nodes) + {item}
      ensures Shape(root, nodes, names, if e.Group? then open + {item} else open - {parent})
    {
      item := new Item(e, null, nodes);
      parent.AppendChild(item, nodes + {item});
      nodes := nodes + {item};
      AppendedShape(parent, item, open);
    }

    /** All that has changed in the tree is that `item` has been added as the last child of `parent`. */
    twostate predicate Appended(parent: Item, new item: Item)
      reads this, nodes, parent
    {
      && item !in old(nodes) && nodes == old(nodes) + {item} && Linked(nodes)
      && (forall n :: n in old(nodes) ==> n.parent == old(n.parent))
      && (forall n :: n in old(nodes) && n != parent ==> n.children == old(n.children))
      && item.parent == parent && item.children == [] && parent.children == old(parent.children) + [item]
    }

    twostate lemma AppendedShape(parent: Item, new item: Item, new open: set<Item>)
      requires open <= old(nodes) && old(Shape(root, nodes, names, open))
      requires parent in old(nodes) && Appended(parent, item)
      requires Fits(item.content, parent.content) && WellNamed(item.content, names)
      requires forall n :: n in old(parent.children) ==> n.content != item.content
      requires item.content.Leaf? ==> AccountAbove(item) == item.content.contact.account
      ensures Shape(root, nodes, names, if item.content.Group? then open + {item} else open - {parent})
    {
      AppendedHome(parent, item);
      AppendedTidy(parent, item, open);
      hide Tidy, AtHome;
      assert Nested(root, nodes);
    }

    twostate lemma AppendedTidy(parent: Item, new item: Item, new open: set<Item>)
      requires open <= old(nodes) && old(Tidy(nodes, names, open)) && parent in old(nodes) && Appended(parent, item)
      requires !parent.content.Leaf? && WellNamed(item.content, names)
      requires forall n :: n in old(parent.children) ==> n.content != item.content
      ensures Tidy(nodes, names, if item.content.Group? then open + {item} else open - {parent})
    {
      hide Linked;
    }

    twostate lemma AppendedHome(parent: Item, new item: Item)
      requires old(Linked(nodes)) && old(AtHome(nodes)) && parent in old(nodes) && Appended(parent, item)
      requires item.content.Leaf? ==> AccountAbove(item) == item.content.contact.account
      ensures AtHome(nodes)
    {
      forall n | n in nodes && n.content.Leaf? && n != item
        ensures n.parent != null && n.parent in nodes && AccountAbove(n) == n.content.contact.account
      {
        assert old(AccountAbove(n)) == AccountAbove(n);
      }
    }

    /** The item of `c`'s account, created when this is the account's first contact. */
    method AccountItem(account: string) returns (item: Item)
      requires Structure() && root in nodes && root.content == Root
      modifies this`nodes, root`children
      ensures item in nodes && item.content == Account(account)
      ensures old(nodes) <= nodes && fresh(nodes - old(nodes))
      ensures Structure()
    {
      hide Shape, Indexed;
      var found := FindAccount(root, account);
      if found == null {
        item := AppendItem(root, Account(account), {});
        assert {} - {root} == {};
      } else {
        item := found;
        ChildFacts(root, nodes, names, {}, root, item);
      }
    }

    /** `item` is the new leaf of `c` under `parent`; the index learns of it. */
    method AppendLeaf(parent: Item, c: Contact, ghost open: set<Item>)
      requires Shape(root, nodes, names, open) && open <= nodes && open <= {parent} && parent in nodes
      requires Housed(nodes, home) && Indexed(monitored, home, groupsEnabled)
      requires parent.content.Account? || parent.content.Group?
      requires parent.content.Account? <==> c.isSelf || !groupsEnabled
      requires c.account == if parent.content.Account? then parent.content.account else AccountAbove(parent)
      requires forall n :: n in parent.children ==> n.content != Leaf(c)
      modifies this`nodes, this`monitored, this`home, parent`children
      ensures Structure()
      ensures View() == old(View())[c := ShownAt(old(View()), c) + {SpotUnder(parent.content)}]
      ensures old(nodes) <= nodes && fresh(nodes - old(nodes))
    {
      hide Shape, Indexed, ViewOf;
      var item := AppendItem(parent, Leaf(c), open);
      assert open - {parent} == {};
      IndexedAppend(monitored, home, groupsEnabled, c, item, parent);
      ViewAppend(monitored, home, groupsEnabled, c, item, parent);
      monitored := monitored[c := LeavesOf(monitored, c) + [item]];
      home := home[item := parent];
    }

    function GroupEntry(special: Special, name: string): Entry {
      Group(special, if special == NoSpecial then name else names(special))
    }

    method FindGroup(accountItem: Item, special: Special, name: string) returns (group: Item?)
      requires Shape(root, nodes, names, {}) && accountItem in nodes
      requires special == NoSpecial ==> Ordinary(name, names)
      ensures group != null ==>
                group in nodes && group.parent == accountItem && group.content == GroupEntry(special, name)
      ensures group == null ==> forall n :: n in accountItem.children ==> n.content != GroupEntry(special, name)
    {
      hide Shape;
      if special == NoSpecial {
        group := FindGroupNamed(accountItem, name);
      } else {
        group := FindSpecialGroup(accountItem, special);
      }
      if group != null {
        ChildFacts(root, nodes, names, {}, accountItem, group);
      }
    }

    method NewGroup(accountItem: Item, special: Special, name: string) returns (group: Item)
      requires Structure() && accountItem in nodes && accountItem.content.Account?
      requires special == NoSpecial ==> Ordinary(name, names)
      requires forall n :: n in accountItem.children ==> n.content != GroupEntry(special, name)
      modifies this`nodes, accountItem`children
      ensures fresh(group) && nodes == old(nodes) + {group}
      ensures group.content == GroupEntry(special, name) && group.parent == accountItem && group.children == []
      ensures Shape(root, nodes, names, {group}) && Housed(nodes, home)
    {
      hide Shape, Indexed;
      group := AppendItem(accountItem, GroupEntry(special, name), {});
      assert {} + {group} == {group};
    }

    /** One round of the loop over a contact's groups: find or create the group, add the leaf unless it is there. */
    method PlaceInGroup(accountItem: Item, c: Contact, special: Special, name: string)
      requires Structure() && accountItem in nodes && accountItem.content == Account(c.account)
      requires !c.isSelf && groupsEnabled
      requires special == NoSpecial ==> Ordinary(name, names)
      modifies this`nodes, this`monitored, this`home, nodes`children
      ensures Structure()
      ensures View() == old(View())[c := ShownAt(old(View()), c) + {GroupSpot(special, name, names)}]
      ensures old(nodes) <= nodes && fresh(nodes - old(nodes))
    {
      hide Shape, Indexed, ViewOf, Linked;
      var group := FindGroup(accountItem, special, name);
      ghost var open := {};
      if group != null {
        var item := FindContact(group, c);
        if item != null {
          AlreadyShown(group, item, c);
          return;
        }
      } else {
        group := NewGroup(accountItem, special, name);
        open := {group};
      }
      AppendLeaf(group, c, open);
    }

    /**
     * A user group called like a special group: when that group is there, the contact is put into it,
     * and so not where it belongs.
     */
    method PlaceMisnamed(accountItem: Item, c: Contact, name: string, ghost special: Special)
      requires Structure() && accountItem in nodes && accountItem.content == Account(c.account)
      requires !c.isSelf && groupsEnabled && DifferentNames()
      requires special != NoSpecial && name == names(special)
      requires exists g :: g in accountItem.children && g.content == Group(special, name)
      modifies this`nodes, this`monitored, this`home, nodes`children
      ensures Structure()
      ensures View() == old(View())[c := ShownAt(old(View()), c) + {InGroup(special, name)}]
      ensures GroupSpot(NoSpecial, name, names) !in ShownAt(View(), c)
      ensures old(nodes) <= nodes && fresh(nodes - old(nodes))
    {
      hide Shape, Indexed, ViewOf, Linked;
      var group := FindGroupNamed(accountItem, name);
      OnlySpecial(accountItem, group, special);
      NeverMisnamed(c, special);
      var item := FindContact(group, c);
      if item != null {
        AlreadyShown(group, item, c);
      } else {
        AppendLeaf(group, c, {});
      }
    }

    lemma OnlySpecial(accountItem: Item, group: Item, special: Special)
      requires Shape(root, nodes, names, {}) && accountItem in nodes && group in accountItem.children
      requires group.content.Group? && special != NoSpecial && group.content.name == names(special) && DifferentNames()
      ensures group in nodes && group.parent == accountItem && group.content == Group(special, names(special))
    {
      ChildFacts(root, nodes, names, {}, accountItem, group);
    }

    /** No contact is shown in an ordinary group of that name. */
    lemma NeverMisnamed(c: Contact, special: Special)
      requires Structure() && special != NoSpecial
      ensures InGroup(NoSpecial, names(special)) !in ShownAt(View(), c)
    {
      hide Structure;
      ViewKeys();
      if c in monitored {
        forall n | n in monitored[c] && n in home
          ensures SpotUnder(home[n].content) != InGroup(NoSpecial, names(special))
        {
          NonEmpty(c);
          LeafFacts(c, n);
          Named(home[n]);
        }
      }
    }

    /** A contact found in a group is indexed there, so nothing has to change. */
    lemma AlreadyShown(group: Item, item: Item, c: Contact)
      requires Structure() && group in nodes && item in group.children && item.content == Leaf(c)
      ensures View() == View()[c := ShownAt(View(), c) + {SpotUnder(group.content)}]
    {
      ChildFacts(root, nodes, names, {}, group, item);
      hide Shape;
      assert item in monitored[c] && item in home && home[item] == group;
      assert SpotUnder(home[item].content) in SpotsOf(monitored[c], home);
      assert ShownAt(View(), c) + {SpotUnder(group.content)} == View()[c];
    }

    /** The loop over the groups of a contact, or over its one special group. */
    method PlaceInGroups(accountItem: Item, c: Contact, special: Special, groups: seq<string>)
      requires Structure() && accountItem in nodes && accountItem.content == Account(c.account)
      requires !c.isSelf && groupsEnabled && c !in monitored
      requires special == NoSpecial ==> forall g :: g in groups ==> Ordinary(g, names)
      modifies this`nodes, this`monitored, this`home, nodes`children
      ensures Structure()
      ensures View() == if groups == [] then old(View()) else old(View())[c := GroupSpots(special, groups, names)]
      ensures old(nodes) <= nodes && fresh(nodes - old(nodes))
    {
      hide Structure, ViewOf;
      ViewKeys();
      for i := 0 to |groups|
        invariant Structure() && old(nodes) <= nodes && fresh(nodes - old(nodes))
        invariant ShownAt(View(), c) == GroupSpots(special, groups[..i], names)
        invariant View() == if i == 0 then old(View()) else old(View())[c := ShownAt(View(), c)]
      {
        assert groups[..i + 1] == groups[..i] + [groups[i]];
        GroupSpotsAppend(special, groups[..i], groups[i], names);
        PlaceInGroup(accountItem, c, special, groups[i]);
      }
      assert groups[..|groups|] == groups;
    }

    method RealAddContact(c: Contact)
      requires Structure() && c !in monitored && c in info && Unambiguous(info[c], names)
      modifies this`nodes, this`monitored, this`home, nodes`children
      ensures Structure()
      ensures View() == old(View())[c := WantedSpots(c, info[c], groupsEnabled, names)]
      ensures SpotsByKind(View()[c], c, info[c], groupsEnabled, names)
      ensures old(nodes) <= nodes && fresh(nodes - old(nodes))
    {
      hide Structure, ViewOf, SpotsByKind;
      WantedKinds(c, info[c], groupsEnabled, names);
      RootFacts();
      var accountItem := AccountItem(c.account);
      if !c.isSelf && groupsEnabled {
        OwnGroupsUnambiguous(info[c], names);
        PlaceInGroups(accountItem, c, SpecialGroupFor(info[c]), GroupNames(info[c]));
      } else {
        PlaceDirectly(accountItem, c);
      }
    }

    method PlaceDirectly(accountItem: Item, c: Contact)
      requires Structure() && accountItem in nodes && accountItem.content == Account(c.account)
      requires c !in monitored && (c.isSelf || !groupsEnabled)
      modifies this`nodes, this`monitored, this`home, accountItem`children
      ensures Structure()
      ensures View() == old(View())[c := {Direct}]
      ensures old(nodes) <= nodes && fresh(nodes - old(nodes))
    {
      hide Shape, Indexed;
      NotYetShown(accountItem, c);
      AppendLeaf(accountItem, c, {});
      assert {} + {Direct} == {Direct};
    }

    lemma ViewKeys()
      ensures View().Keys == monitored.Keys
    {
    }

    lemma RootFacts()
      requires Structure()
      ensures root in nodes && root.content == Root
    {
    }

    lemma NotYetShown(parent: Item, c: Contact)
      requires Structure() && parent in nodes && c !in monitored
      ensures forall n :: n in parent.children ==> n.content != Leaf(c)
    {
      forall n | n in parent.children
        ensures n.content != Leaf(c)
      {
        ChildFacts(root, nodes, names, {}, parent, n);
      }
    }

    // ---- Removing ----

    /** A childless item is destroyed. */
    method RemoveItem(item: Item, ghost open: set<Item>)
      requires Shape(root, nodes, names, open) && open <= nodes
      requires item in nodes && item != root && item.children == []
      requires Housed(nodes, home)
      modifies this`nodes, this`home, nodes`children
      ensures nodes == old(nodes) - {item} && item.parent in nodes
      ensures home == old(home) - {item} && Housed(nodes, home)
      ensures Shape(root, nodes, names, open - {item} + {item.parent})
    {
      hide Shape, Linked, Ranked, Housed;
      ItemFacts(root, nodes, names, open, item);
      Destroy(item);
      home := home - {item};
      RemovedShape(item, open);
      RemovedHoused(item);
    }

    method Destroy(item: Item)
      requires Linked(nodes) && Ranked(nodes, Levels(nodes)) && item in nodes && item.children == []
      modifies this`nodes, nodes`children
      ensures Removed(item)
    {
      hide Linked, Ranked;
      ghost var gone := item.Delete(nodes, Levels(nodes));
      assert nodes - gone == nodes - {item};
      nodes := nodes - {item};
    }

    /** All that has changed in the tree is that `item` is gone. */
    twostate predicate Removed(item: Item)
      reads this, nodes
    {
      && item in old(nodes) && nodes == old(nodes) - {item} && Linked(nodes)
      && (forall n :: n in nodes ==> n.parent == old(n.parent))
      && (forall n :: n in nodes ==>
            n.children == if n == old(item.parent) then Without(old(n.children), item) else old(n.children))
    }

    twostate lemma RemovedShape(item: Item, new open: set<Item>)
      requires open <= old(nodes) && old(Shape(root, nodes, names, open)) && Removed(item)
      requires item != root && old(item.children) == [] && item.parent == old(item.parent)
      requires item.parent != null && item.parent in nodes
      ensures Shape(root, nodes, names, open - {item} + {item.parent})
    {
      RemovedHome(item);
      RemovedTidy(item, open);
      hide Tidy, AtHome;
      assert Nested(root, nodes);
    }

    twostate lemma RemovedHoused(item: Item)
      requires old(Housed(nodes, home)) && Removed(item) && home == old(home) - {item}
      ensures Housed(nodes, home)
    {
    }

    twostate lemma RemovedTidy(item: Item, new open: set<Item>)
      requires open <= old(nodes) && old(Tidy(nodes, names, open)) && Removed(item)
      requires item.parent == old(item.parent) && item.parent != null
      ensures Tidy(nodes, names, open - {item} + {item.parent})
    {
      hide Linked;
    }

    twostate lemma RemovedHome(item: Item)
      requires old(Linked(nodes)) && old(AtHome(nodes)) && Removed(item)
      ensures AtHome(nodes)
    {
      forall n | n in nodes && n.content.Leaf?
        ensures n.parent != null && n.parent in nodes && AccountAbove(n) == n.content.contact.account
      {
        assert old(AccountAbove(n)) == AccountAbove(n);
      }
    }

    lemma LeafFacts(c: Contact, item: Item)
      requires Structure() && c in monitored && monitored[c] != [] && item in monitored[c]
      ensures item in nodes && item != root && item.children == [] && item.content == Leaf(c)
      ensures item.parent != null && item.parent in nodes && item.parent != item
      ensures item.parent.content.Group? || item.parent.content.Account?
      ensures item in home && home[item] == item.parent && AccountAbove(item) == c.account
      ensures item.parent.content.Account? <==> c.isSelf || !groupsEnabled
    {
      ItemFacts(root, nodes, names, {}, item);
    }

    lemma GroupFacts(group: Item)
      requires Shape(root, nodes, names, {group}) && group in nodes && group.content.Group?
      ensures group != root && group.parent != null && group.parent in nodes && group.parent != group
      ensures group.parent.content.Account?
    {
      ItemFacts(root, nodes, names, {group}, group);
    }

    /** An account, or a group with something in it, need not be excepted. */
    lemma Closed(n: Item)
      requires Shape(root, nodes, names, {n}) && (n.content.Group? ==> n.children != [])
      ensures Shape(root, nodes, names, {})
    {
    }

    /** One round of removing a contact: its leaf goes, and with it a group that held nothing else. */
    method RemoveLeaf(c: Contact, item: Item)
      requires Structure() && c in monitored && monitored[c] != [] && item == monitored[c][|monitored[c]| - 1]
      modifies this`nodes, this`monitored, this`home, nodes`children
      ensures Structure() && nodes <= old(nodes)
      ensures monitored == Dropped(old(monitored), c)
      ensures View() - {c} == old(View()) - {c}
    {
      hide Structure, Shape, Indexed, Housed, Dropped, ViewOf;
      LeafFacts(c, item);
      Parts();
      var group := item.parent;
      IndexedDrop(monitored, home, groupsEnabled, c);
      ViewDrop(monitored, home, groupsEnabled, c);
      monitored := Dropped(monitored, c);
      RemoveItem(item, {});
      assert {} - {item} + {group} == {group};
      RemoveIfEmpty(group);
      Whole();
    }

    lemma Parts()
      requires Structure()
      ensures Shape(root, nodes, names, {}) && Housed(nodes, home) && Indexed(monitored, home, groupsEnabled)
    {
    }

    lemma Whole()
      requires Shape(root, nodes, names, {}) && Housed(nodes, home) && Indexed(monitored, home, groupsEnabled)
      ensures Structure()
    {
    }

    method RemoveIfEmpty(group: Item)
      requires Shape(root, nodes, names, {group}) && group in nodes && (group.content.Group? || group.content.Account?)
      requires Housed(nodes, home)
      modifies this`nodes, this`home, nodes`children
      ensures Shape(root, nodes, names, {}) && Housed(nodes, home) && nodes <= old(nodes) && home == old(home)
    {
      hide Shape;
      if group.content.Group? && group.children == [] {
        GroupFacts(group);
        RemoveItem(group, {group});
        assert {group} - {group} + {group.parent} == {group.parent};
        Closed(group.parent);
      } else {
        Closed(group);
      }
    }

    /** Nothing happens to a contact that is not monitored, not even to what is queued for it. */
    method RemoveContact(c: Contact)
      requires Structure()
      modifies this`nodes, this`home, this`monitored, this`queue, nodes`children
      ensures Structure() && nodes <= old(nodes)
      ensures View() == old(View()) - {c}
      ensures queue == if c in old(monitored) then old(queue) - {c} else old(queue)
    {
      hide Structure, ViewOf;
      ViewKeys();
      if c !in monitored {
        return;
      }
      while c in monitored
        invariant Structure() && nodes <= old(nodes)
        invariant View() - {c} == old(View()) - {c} && queue == old(queue)
        decreases |LeavesOf(monitored, c)|
      {
        NonEmpty(c);
        var item := monitored[c][|monitored[c]| - 1];
        RemoveLeaf(c, item);
      }
      ViewKeys();
      queue := queue - {c};
    }

    lemma NonEmpty(c: Contact)
      requires Structure() && c in monitored
      ensures monitored[c] != []
    {
    }

    method Clear()
      requires Shape(root, nodes, names, {})
      modifies this`nodes, this`home, this`monitored, this`queue, nodes`children
      ensures Structure() && nodes <= old(nodes)
      ensures View() == map[] && queue == map[]
      ensures Known() ==> (Valid() <==> Listed() + stale == {})
    {
      hide Shape, Linked, Nested, Known, Consistent;
      Links();
      while root.children != []
        invariant nodes <= old(nodes) && root in nodes && Linked(nodes) && Nested(root, nodes)
        decreases |root.children|
      {
        Levelled();
        ghost var gone := root.DeleteFirstChild(nodes, Levels(nodes));
        NestedSubset(nodes, nodes - gone);
        nodes := nodes - gone;
      }
      queue, monitored, home := map[], map[], map[];
      Bare();
      NobodyExpected();
    }

    /** With nothing shown or queued the model is in step exactly if no contact is expected. */
    lemma NobodyExpected()
      requires Structure() && View() == map[] && queue == map[]
      ensures Known() ==> (Valid() <==> Listed() + stale == {})
    {
      hide Structure, ViewOf, WantedSpots;
      if Known() {
        assert Wanted(Listed() + stale).Keys == Listed() + stale;
      }
    }

    lemma Links()
      requires Shape(root, nodes, names, {})
      ensures root in nodes && Linked(nodes) && Nested(root, nodes)
    {
    }

    lemma Levelled()
      requires Nested(root, nodes)
      ensures Ranked(nodes, Levels(nodes))
    {
    }

    lemma NestedSubset(all: set<Item>, some: set<Item>)
      requires Nested(root, all) && some <= all && root in some
      ensures Nested(root, some)
    {
    }

    /** A root without children is the whole tree. */
    lemma Bare()
      requires Linked(nodes) && Nested(root, nodes) && root.children == [] && monitored == map[] && home == map[]
      ensures Structure() && View() == map[]
    {
      forall n | n in nodes && n != root
        ensures !n.content.Account?
      {
        assert n.parent == root || n.parent.parent != null;
      }
      forall n | n in nodes && n != root
        ensures !n.content.Group?
      {
        assert n.parent in nodes;
      }
      forall n | n in nodes
        ensures n == root
      {
        assert n.parent != null ==> n.parent in nodes;
      }
    }

    /**
     * What the shape comes to: no empty group, no contact twice under one parent, ordinary groups of
     * one account named differently, each special group once, and the index lists exactly the leaves.
     */
    lemma TreeFacts()
      requires Structure() && DifferentNames()
      ensures forall g :: g in nodes && g.content.Group? ==> g.children != []
      ensures forall p, a, b :: p in nodes && a in p.children && b in p.children && a != b ==>
                a.content != b.content && (a.content.Group? && b.content.Group? ==> Distinguished(a.content, b.content))
      ensures forall c, n :: n in LeavesOf(monitored, c) <==> n in nodes && n.content == Leaf(c)
      ensures forall c :: NoDuplicates(LeavesOf(monitored, c))
    {
      forall p, g, h | p in nodes && g in p.children && h in p.children && g != h
        ensures g.content != h.content && (g.content.Group? && h.content.Group? ==> Distinguished(g.content, h.content))
      {
        GroupsDiffer(p, g, h);
      }
      Indices();
    }

    /** The special groups are displayed under different names. */
    ghost predicate DifferentNames() {
      forall a, b :: a != NoSpecial && b != NoSpecial && names(a) == names(b) ==> a == b
    }

    /** Two groups differ in name, and in type if either is special. */
    predicate Distinguished(g: Entry, h: Entry)
      requires g.Group? && h.Group?
    {
      g.name != h.name && (g.special != h.special || g.special == NoSpecial)
    }

    lemma GroupsDiffer(p: Item, g: Item, h: Item)
      requires Structure() && p in nodes && g in p.children && h in p.children && g != h && DifferentNames()
      ensures g.content != h.content && (g.content.Group? && h.content.Group? ==> Distinguished(g.content, h.content))
    {
    }

    lemma Indices()
      requires Structure()
      ensures forall c, n :: n in LeavesOf(monitored, c) <==> n in nodes && n.content == Leaf(c)
      ensures forall c :: NoDuplicates(LeavesOf(monitored, c))
    {
    }

    // ---- Batching ----

    ghost function Listed(): set<Contact>
      reads this`contacts
    {
      Elements(contacts)
    }

    ghost function Wanted(cs: set<Contact>): map<Contact, set<Spot>>
      reads this`info, this`groupsEnabled
    {
      WantedView(cs, info, groupsEnabled, names)
    }

    ghost predicate Known()
      reads this`contacts, this`info, this`stale
    {
      && NoDuplicates(contacts) && Listed() <= info.Keys && stale <= info.Keys && stale !! Listed()
      && forall c :: c in info ==> Unambiguous(info[c], names)
    }

    /** What holds between any two steps, but for the contacts in `skip`. */
    ghost predicate Consistent(skip: set<Contact>)
      reads this`nodes, this`home, this`monitored, this`queue, this`contacts, this`info, this`stale,
            this`groupsEnabled, nodes
    {
      Structure() && Known() && InStep(View(), queue, Wanted(Listed() + stale), skip)
    }

    ghost predicate Valid()
      reads this`nodes, this`home, this`monitored, this`queue, this`contacts, this`info, this`stale,
            this`groupsEnabled, nodes
    {
      Consistent({})
    }

    lemma NothingWanted()
      ensures Wanted(Elements([])) == map[]
    {
    }

    lemma NotAddedYet(before: map<Contact, set<Spot>>, adding: seq<Contact>, i: nat)
      requires NoDuplicates(adding) && i < |adding| && adding[i] !in before
      requires View() == before + Wanted(Elements(adding[..i]))
      ensures adding[i] !in monitored
    {
      assert adding[i] !in adding[..i];
      ViewKeys();
    }

    method AddContacts(adding: seq<Contact>)
      requires Structure() && Known() && NoDuplicates(adding)
      requires forall c :: c in adding ==> c !in View() && c in info
      modifies this`nodes, this`monitored, this`home, nodes`children
      ensures Structure() && fresh(nodes - old(nodes))
      ensures View() == old(View()) + Wanted(Elements(adding))
    {
      hide Structure, ViewOf, WantedSpots, WantedView, Elements, Unambiguous;
      NothingWanted();
      for i := 0 to |adding|
        invariant Structure() && fresh(nodes - old(nodes))
        invariant View() == old(View()) + Wanted(Elements(adding[..i]))
      {
        assert adding[..i + 1] == adding[..i] + [adding[i]];
        WantedViewAdd(old(View()), adding[..i], adding[i], info, groupsEnabled, names);
        NotAddedYet(old(View()), adding, i);
        RealAddContact(adding[i]);
      }
      assert adding[..|adding|] == adding;
    }

    /**
     * Everything queued is carried out. What is shown afterwards is what a rebuild would show for
     * the contacts of the list and the stale ones; with a stale contact it is never what a rebuild
     * would show for the list alone. `refreshed` are the contacts whose rows are reported as changed.
     */
    method Commit() returns (refreshed: seq<Contact>)
      requires Valid()
      modifies this`nodes, this`monitored, this`home, this`queue, nodes`children
      ensures Valid() && fresh(nodes - old(nodes)) && queue == map[]
      ensures View() == Wanted(Listed() + stale)
      ensures Placements(nodes) == Rebuilt(Listed() + stale, info, groupsEnabled, names)
      ensures Placements(nodes) == Rebuilt(Listed(), info, groupsEnabled, names) <==> stale == {}
      ensures Listed() + stale <= info.Keys && ByKind(Placements(nodes), Listed() + stale, info, groupsEnabled, names)
      ensures forall c :: c in refreshed <==> c in old(queue) && Update in old(queue)[c] && Add !in old(queue)[c]
    {
      hide ByKind, Structure, ViewOf, Known, InStep, ToAdd, Elements, WantedView, WantedSpots;
      refreshed := [];
      if queue == map[] {
        NothingQueued();
        Settled();
        return;
      }
      ghost var queued := queue;
      var adding;
      adding, refreshed := Drain();
      QueuedKnown(old(View()), queued, adding);
      AddContacts(adding);
      queue := map[];
      SettledView(old(View()), queued, adding);
      Settled();
    }

    /** The loop over the queue: contacts to be laid out anew leave the tree. */
    method Drain() returns (adding: seq<Contact>, refreshed: seq<Contact>)
      requires Structure() && InStep(View(), queue, Wanted(Listed() + stale), {})
      modifies this`nodes, this`monitored, this`home, this`queue, nodes`children
      ensures Structure() && nodes <= old(nodes)
      ensures NoDuplicates(adding) && forall c :: c in adding <==> c in ToAdd(old(queue))
      ensures View() == old(View()) - ToAdd(old(queue))
      ensures forall c :: c in refreshed <==> c in old(queue) && Update in old(queue)[c] && Add !in old(queue)[c]
    {
      hide Structure, ViewOf;
      var queued := queue;
      var todo := queued.Keys;
      adding, refreshed := [], [];
      while todo != {}
        invariant Structure() && nodes <= old(nodes)
        invariant todo <= queued.Keys
        invariant NoDuplicates(adding) && forall c :: c in adding <==> c in ToAdd(queued) && c !in todo
        invariant View() == old(View()) - (ToAdd(queued) - todo)
        invariant forall c :: c in refreshed <==> c in queued && c !in todo && Update in Simplified(queued[c])
        decreases todo
      {
        var c :| c in todo;
        todo := todo - {c};
        var operations := Simplified(queued[c]);
        if Add in operations {
          adding := adding + [c];
        }
        if Update in operations {
          refreshed := refreshed + [c];
        }
        if GroupsChanged in operations {
          RemoveContact(c);
          if c !in adding {
            adding := adding + [c];
          }
        }
      }
    }

    lemma QueuedKnown(before: map<Contact, set<Spot>>, queued: map<Contact, set<Operation>>, adding: seq<Contact>)
      requires Known() && InStep(before, queued, Wanted(Listed() + stale), {})
      requires View() == before - ToAdd(queued)
      requires forall c :: c in adding <==> c in ToAdd(queued)
      ensures forall c :: c in adding ==> c in info && c !in View()
    {
    }

    lemma NothingQueued()
      requires InStep(View(), queue, Wanted(Listed() + stale), {}) && queue == map[]
      ensures View() == Wanted(Listed() + stale)
    {
    }

    lemma SettledView(before: map<Contact, set<Spot>>, queued: map<Contact, set<Operation>>, adding: seq<Contact>)
      requires Known() && InStep(before, queued, Wanted(Listed() + stale), {})
      requires forall c :: c in adding <==> c in ToAdd(queued)
      ensures before - ToAdd(queued) + Wanted(Elements(adding)) == Wanted(Listed() + stale)
    {
      hide WantedSpots;
      Settle(before, queued, Wanted(Listed() + stale), Wanted(Elements(adding)));
    }

    lemma Settled()
      requires Structure() && Known() && View() == Wanted(Listed() + stale) && queue == map[]
      ensures Valid()
      ensures Placements(nodes) == Rebuilt(Listed() + stale, info, groupsEnabled, names)
      ensures Placements(nodes) == Rebuilt(Listed(), info, groupsEnabled, names) <==> stale == {}
      ensures Listed() + stale <= info.Keys && ByKind(Placements(nodes), Listed() + stale, info, groupsEnabled, names)
    {
      hide ByKind, Structure, ViewOf, WantedSpots, Unambiguous, Rebuilt, Placements, PlacementsIn;
      RebuiltByKind(Listed() + stale, info, groupsEnabled, names);
      PlacementsOfView();
      RebuiltView(Listed() + stale, info, groupsEnabled, names);
      RebuiltInjective(Listed() + stale, Listed(), info, groupsEnabled, names);
    }

    /** What the tree shows is what the index says. */
    lemma PlacementsOfView()
      requires Structure()
      ensures Placements(nodes) == PlacementsIn(View())
    {
    }

    /** The full rebuild: everything is dropped and every contact of the list laid out from its present data. */
    method InvalidateLayout()
      requires Shape(root, nodes, names, {}) && Known()
      modifies this`nodes, this`monitored, this`home, this`queue, this`stale, nodes`children
      ensures Valid() && fresh(nodes - old(nodes)) && queue == map[] && stale == {}
      ensures View() == Wanted(Listed())
      ensures Placements(nodes) == Rebuilt(Listed(), info, groupsEnabled, names)
      ensures Listed() <= info.Keys && ByKind(Placements(nodes), Listed(), info, groupsEnabled, names)
    {
      hide ByKind, Shape, Structure, ViewOf, Elements, WantedView, WantedSpots, Unambiguous;
      Clear();
      stale := {};
      NothingWanted();
      for i := 0 to |contacts|
        invariant Structure() && Known() && fresh(nodes - old(nodes)) && queue == map[] && stale == {}
        invariant View() == map[] + Wanted(Elements(contacts[..i]))
      {
        assert contacts[..i + 1] == contacts[..i] + [contacts[i]];
        ListedKnown(i);
        WantedViewAdd(map[], contacts[..i], contacts[i], info, groupsEnabled, names);
        NotAddedYet(map[], contacts, i);
        RealAddContact(contacts[i]);
      }
      assert contacts[..|contacts|] == contacts;
      assert map[] + Wanted(Listed()) == Wanted(Listed());
      assert Listed() + stale == Listed();
      Settled();
    }

    lemma ListedKnown(i: nat)
      requires i < |contacts| && Known()
      ensures contacts[i] in info && Unambiguous(info[contacts[i]], names)
    {
      assert contacts[i] in Listed();
    }

    method SetGroupsEnabled(enabled: bool)
      requires Valid()
      modifies this`groupsEnabled, this`nodes, this`monitored, this`home, this`queue, this`stale, nodes`children
      ensures Valid() && fresh(nodes - old(nodes)) && groupsEnabled == enabled
      ensures enabled != old(groupsEnabled) ==>
                queue == map[] && stale == {} && Placements(nodes) == Rebuilt(Listed(), info, groupsEnabled, names)
                && Listed() <= info.Keys && ByKind(Placements(nodes), Listed(), info, groupsEnabled, names)
    {
      if groupsEnabled != enabled {
        groupsEnabled := enabled;
        InvalidateLayout();
      }
    }

    /**
     * `operation` is queued for `c`, on top of what is queued already. `overdue` says that the first
     * queued operation has waited too long, and then everything is committed at once.
     */
    method AddOperation(c: Contact, operation: Operation, overdue: bool)
      requires Consistent({c}) && c in Wanted(Listed() + stale)
      requires operation == Add <==> c !in View()
      requires operation == Update && View()[c] != Wanted(Listed() + stale)[c] ==>
                 GroupsChanged in QueuedFor(queue, c)
      modifies this`nodes, this`monitored, this`home, this`queue, nodes`children
      ensures Valid() && fresh(nodes - old(nodes))
      ensures !overdue ==> queue == old(queue)[c := QueuedFor(old(queue), c) + {operation}] && View() == old(View())
      ensures overdue ==> queue == map[] && View() == Wanted(Listed() + stale)
    {
      hide Structure, ViewOf, Known, InStep, Elements, WantedView, WantedSpots;
      Enqueued(View(), queue, Wanted(Listed() + stale), c, operation);
      queue := queue[c := QueuedFor(queue, c) + {operation}];
      if overdue {
        var _ := Commit();
      }
    }

    /** The slot for a contact added to the list: a contact already monitored needs nothing. */
    method AddContact(c: Contact, overdue: bool)
      requires Consistent({c}) && c in Wanted(Listed() + stale)
      requires c in View() ==> Valid()
      modifies this`nodes, this`monitored, this`home, this`queue, nodes`children
      ensures Valid() && fresh(nodes - old(nodes))
      ensures c in old(View()) ==> queue == old(queue) && View() == old(View())
      ensures c !in old(View()) ==>
                if overdue then queue == map[] && View() == Wanted(Listed() + stale)
                else queue == old(queue)[c := QueuedFor(old(queue), c) + {Add}] && View() == old(View())
    {
      hide Structure, ViewOf, Known, InStep, Elements, WantedView, WantedSpots;
      ViewKeys();
      if c in monitored {
        return;
      }
      AddOperation(c, Add, overdue);
    }

    /** The slot for a contact whose groups have changed. */
    method ContactGroupsChanged(c: Contact, overdue: bool)
      requires Consistent({c}) && c in View() && c in Wanted(Listed() + stale)
      modifies this`nodes, this`monitored, this`home, this`queue, nodes`children
      ensures Valid() && fresh(nodes - old(nodes))
      ensures if overdue then queue == map[] && View() == Wanted(Listed() + stale)
              else queue == old(queue)[c := QueuedFor(old(queue), c) + {GroupsChanged}] && View() == old(View())
    {
      hide Structure, ViewOf, Known, InStep, Elements, WantedView, WantedSpots;
      AddOperation(c, GroupsChanged, overdue);
    }

    /** The groups the leaves of `c` are in, leaf by leaf. */
    method ShownGroups(c: Contact) returns (groups: seq<Item>)
      requires Structure() && c in monitored
      ensures GroupsOf(groups, c)
    {
      hide Shape, Structure;
      groups := [];
      for i := 0 to |monitored[c]|
        invariant if c.isSelf || !groupsEnabled then groups == [] else |groups| == i
        invariant forall j :: 0 <= j < |groups| ==> monitored[c][j] in home && groups[j] == home[monitored[c][j]]
      {
        assert monitored[c][i] in monitored[c];
        LeafFacts(c, monitored[c][i]);
        var parent := monitored[c][i].parent;
        if parent != null && parent.content.Group? {
          groups := groups + [parent];
        }
      }
    }

    ghost predicate GroupsOf(groups: seq<Item>, c: Contact)
      reads this`monitored, this`home, this`groupsEnabled
    {
      && c in monitored
      && (if c.isSelf || !groupsEnabled then groups == [] else |groups| == |monitored[c]|)
      && forall j :: 0 <= j < |groups| ==> monitored[c][j] in home && groups[j] == home[monitored[c][j]]
    }

    lemma SameSibling(p: Item, a: Item, b: Item)
      requires Structure() && p in nodes && a in p.children && b in p.children && a.content == b.content
      ensures a == b
    {
    }

    /** A leaf shown in a group, seen from below: the group, the account and the root above it. */
    lemma GroupAbove(c: Contact, n: Item)
      requires Structure() && c in monitored && n in monitored[c] && !c.isSelf && groupsEnabled
      ensures n in nodes && n in home && n.content == Leaf(c)
      ensures var g := home[n];
              && g in nodes && g.content.Group? && n in g.children
              && g.parent != null && g.parent in nodes && g in g.parent.children
              && g.parent in root.children && g.parent.content == Account(c.account)
    {
      hide Structure;
      LeafFacts(c, n);
      RootFacts();
      Parts();
      hide Shape, Linked;
      Upward(n);
      var g := n.parent;
      Upward(g);
      Upward(g.parent);
      OnlyRoot(g.parent.parent);
    }

    lemma Upward(n: Item)
      requires Structure() && n in nodes && n != root
      ensures n.parent != null && n.parent in nodes && n in n.parent.children && Fits(n.content, n.parent.content)
    {
      ItemFacts(root, nodes, names, {}, n);
    }

    lemma OnlyRoot(n: Item)
      requires Structure() && n in nodes && n.content == Root
      ensures n == root
    {
      if n != root {
        ItemFacts(root, nodes, names, {}, n);
      }
    }

    /** No two leaves of a contact are in groups that look the same. */
    lemma ParentsDiffer(c: Contact, i: nat, j: nat)
      requires Structure() && c in monitored && !c.isSelf && groupsEnabled
      requires i < j < |monitored[c]|
      ensures monitored[c][i] in home && monitored[c][j] in home
      ensures home[monitored[c][i]].content != home[monitored[c][j]].content
    {
      hide Structure;
      LeavesDiffer(c, i, j);
      var m, n := monitored[c][i], monitored[c][j];
      GroupAbove(c, m);
      GroupAbove(c, n);
      RootFacts();
      var g, h := home[m], home[n];
      if g.content == h.content {
        SameSibling(root, g.parent, h.parent);
        SameSibling(g.parent, g, h);
        SameSibling(g, m, n);
      }
    }

    lemma LeavesDiffer(c: Contact, i: nat, j: nat)
      requires Structure() && c in monitored && i < j < |monitored[c]|
      ensures monitored[c][i] != monitored[c][j]
    {
    }

    /** The slot for a contact whose data has changed: laid out anew when misplaced, else only repainted. */
    method ContactUpdated(c: Contact, overdue: bool)
      requires Consistent({c}) && c in View() && c in Wanted(Listed() + stale) && c in info
      modifies this`nodes, this`monitored, this`home, this`queue, nodes`children
      ensures Valid() && fresh(nodes - old(nodes))
      ensures overdue ==> queue == map[] && View() == Wanted(Listed() + stale)
      ensures !overdue ==> View() == old(View())
      ensures !overdue && !c.isSelf && groupsEnabled ==>
                queue == old(queue)[c := QueuedFor(old(queue), c) +
                  {if SpotsByKind(View()[c], c, info[c], groupsEnabled, names) then Update else GroupsChanged}]
      ensures !overdue && (c.isSelf || !groupsEnabled) ==>
                queue == old(queue)[c := QueuedFor(old(queue), c) +
                  {if InOwnGroups(info[c]) then GroupsChanged else Update}]
    {
      hide Structure, ViewOf, Known, InStep, Elements, WantedView, WantedSpots, SpotsByKind;
      ViewKeys();
      var groups := ShownGroups(c);
      var operation := if Misplaced(groups, info[c]) then GroupsChanged else Update;
      Decided(c, groups);
      OwnKind(c);
      AddOperation(c, operation, overdue);
    }

    lemma OwnKind(c: Contact)
      requires c in View() && c in info
      ensures SpotsByKind(View()[c], c, info[c], groupsEnabled, names)
              <==> View()[c] == WantedSpots(c, info[c], groupsEnabled, names)
      ensures SpecialGroupFor(info[c]) == NoSpecial <==> InOwnGroups(info[c])
    {
      hide ViewOf, SpotsByKind, WantedSpots;
      WantedKinds(c, info[c], groupsEnabled, names);
      if SpotsByKind(View()[c], c, info[c], groupsEnabled, names) {
        OnlyWanted(View()[c], c, info[c], groupsEnabled, names);
      }
    }

    lemma Decided(c: Contact, groups: seq<Item>)
      requires Structure() && Known() && c in View() && c in info && GroupsOf(groups, c)
      requires c in Wanted(Listed() + stale)
      ensures Wanted(Listed() + stale)[c] == WantedSpots(c, info[c], groupsEnabled, names)
      ensures !Misplaced(groups, info[c]) ==> View()[c] == WantedSpots(c, info[c], groupsEnabled, names)
      ensures !c.isSelf && groupsEnabled ==>
                (Misplaced(groups, info[c]) <==> View()[c] != WantedSpots(c, info[c], groupsEnabled, names))
      ensures c.isSelf || !groupsEnabled ==> (Misplaced(groups, info[c]) <==> SpecialGroupFor(info[c]) == NoSpecial)
    {
      hide Structure, Misplaced;
      if c.isSelf || !groupsEnabled {
        ShownDirectly(c);
        NoneMisplaced(info[c]);
      } else {
        ShownInGroups(c, groups);
        MisplacedExactly(groups, info[c], names);
      }
    }

    lemma ShownDirectly(c: Contact)
      requires Structure() && c in View() && (c.isSelf || !groupsEnabled)
      ensures View()[c] == {Direct}
    {
      hide Structure;
      ViewKeys();
      NonEmpty(c);
      var leaves := monitored[c];
      assert leaves[0] in leaves;
      forall n | n in leaves
        ensures n in home && SpotUnder(home[n].content) == Direct
      {
        LeafFacts(c, n);
      }
    }

    lemma ShownInGroups(c: Contact, groups: seq<Item>)
      requires Structure() && c in View() && !c.isSelf && groupsEnabled && GroupsOf(groups, c)
      ensures groups != [] && View()[c] == SpotsIn(groups)
      ensures forall g :: g in groups ==> g.content.Group? && WellNamed(g.content, names)
      ensures forall i, j :: 0 <= i < j < |groups| ==> groups[i].content != groups[j].content
    {
      hide Structure;
      ViewKeys();
      NonEmpty(c);
      var leaves := monitored[c];
      forall i | 0 <= i < |groups|
        ensures groups[i].content.Group? && WellNamed(groups[i].content, names)
      {
        GroupAbove(c, leaves[i]);
        Named(groups[i]);
      }
      forall i, j | 0 <= i < j < |groups|
        ensures groups[i].content != groups[j].content
      {
        ParentsDiffer(c, i, j);
      }
      assert forall i :: 0 <= i < |leaves| ==> leaves[i] in leaves && groups[i] in groups;
    }

    lemma Named(n: Item)
      requires Structure() && n in nodes
      ensures WellNamed(n.content, names)
    {
    }

    lemma StartsValid()
      requires Structure() && contacts == [] && info == map[] && stale == {} && monitored == map[] && queue == map[]
      ensures Valid() && View() == map[]
    {
      hide Structure;
    }

    lemma KindOfChild(n: Item, c: Item)
      requires Structure() && n in nodes && c in n.children
      ensures if n == root then c.content.Account? else c.content.Group? || c.content.Leaf?
    {
      hide Structure;
      Child(n, c);
      NotRoot(n, c);
      Upward(c);
      RootFacts();
      if n.content == Root {
        OnlyRoot(n);
      }
    }

    lemma Child(n: Item, c: Item)
      requires Structure() && n in nodes && c in n.children
      ensures c in nodes && c.parent == n
    {
      ChildFacts(root, nodes, names, {}, n, c);
    }

    lemma NotRoot(n: Item, c: Item)
      requires Structure() && n in nodes && c in n.children
      ensures c != root
    {
    }

    /** A group is there only when groups are on, and then only the account itself is outside of groups. */
    lemma GroupBesideContact(n: Item, g: Item, c: Item)
      requires Structure() && n in nodes && g in n.children && c in n.children
      requires g.content.Group? && c.content.Leaf?
      ensures c.content.contact.isSelf
    {
      hide Structure;
      Child(n, g);
      Child(n, c);
      NotRoot(n, g);
      Upward(g);
      var member := Member(g);
      Placed(member);
      Placed(c);
    }

    lemma Member(g: Item) returns (n: Item)
      requires Structure() && g in nodes && g.content.Group?
      ensures n in nodes && n.parent == g && n.content.Leaf?
    {
      n := g.children[0];
      Child(g, n);
      KindOfChild(g, n);
      Upward(n);
    }

    lemma Placed(n: Item)
      requires Structure() && n in nodes && n.content.Leaf? && n.parent != null
      ensures n.parent.content.Account? <==> n.content.contact.isSelf || !groupsEnabled
    {
    }

    // ---- What happens to the contact list -----------------------------------------------------

    /** A contact joins the list, with its data; the data of a contact known before is as it was. */
    method ContactJoins(c: Contact, data: Info, overdue: bool)
      requires Valid() && c !in contacts && Unambiguous(data, names)
      requires c in info ==> info[c] == data
      modifies this`contacts, this`info, this`stale, this`nodes, this`monitored, this`home, this`queue, nodes`children
      ensures Valid() && fresh(nodes - old(nodes))
      ensures contacts == old(contacts) + [c] && info == old(info)[c := data] && stale == old(stale) - {c}
      ensures c in old(View()) ==> queue == old(queue) && View() == old(View())
      ensures c !in old(View()) ==>
                if overdue then queue == map[] && View() == Wanted(Listed() + stale)
                else queue == old(queue)[c := QueuedFor(old(queue), c) + {Add}] && View() == old(View())
    {
      hide Structure, ViewOf, WantedSpots, Unambiguous, InStep;
      Joined(c, data);
      contacts := contacts + [c];
      info := info[c := data];
      stale := stale - {c};
      AddContact(c, overdue);
    }

    lemma Joined(c: Contact, data: Info)
      requires Valid() && c !in contacts && Unambiguous(data, names)
      requires c in info ==> info[c] == data
      ensures var info' := info[c := data];
              var wanted := WantedView(Elements(contacts + [c]) + (stale - {c}), info', groupsEnabled, names);
              && InStep(View(), queue, wanted, {c})
              && (c in View() ==> InStep(View(), queue, wanted, {}))
    {
      hide Structure, ViewOf, WantedSpots, Unambiguous;
      assert Elements(contacts + [c]) == Elements(contacts) + {c};
      var info' := info[c := data];
      assert c in stale ==>
        WantedView(Elements(contacts + [c]) + (stale - {c}), info', groupsEnabled, names) == Wanted(Listed() + stale);
    }

    /** New data for a contact. A monitored contact signals it, and signals new groups once more. */
    method ContactChanges(c: Contact, data: Info, overdue: bool, overdueAgain: bool)
      requires Valid() && c in info && Unambiguous(data, names)
      modifies this`info, this`nodes, this`monitored, this`home, this`queue, nodes`children
      ensures Valid() && fresh(nodes - old(nodes))
      ensures info == old(info)[c := data]
      ensures c !in old(View()) ==> queue == old(queue)
      ensures !overdue && !overdueAgain ==> View() == old(View())
      ensures c in old(View()) && (overdueAgain && data.userGroups != old(info)[c].userGroups) ==>
                queue == map[] && View() == Wanted(Listed() + stale)
    {
      hide Structure, ViewOf, WantedSpots, Unambiguous, InStep;
      Changed(c, data);
      ViewKeys();
      var regrouped := data.userGroups != info[c].userGroups;
      info := info[c := data];
      if c in monitored {
        ContactUpdated(c, overdue);
        StillShown(c);
        if regrouped {
          ContactGroupsChanged(c, overdueAgain);
        }
      }
    }

    lemma Changed(c: Contact, data: Info)
      requires Valid() && c in info && Unambiguous(data, names)
      ensures var wanted := WantedView(Listed() + stale, info[c := data], groupsEnabled, names);
              && InStep(View(), queue, wanted, {c})
              && (c in View() ==> c in wanted)
              && (c !in View() ==> InStep(View(), queue, wanted, {}))
    {
      hide Structure, ViewOf, WantedSpots, Unambiguous;
      assert c in View() ==> c in View().Keys + queue.Keys;
    }

    lemma StillShown(c: Contact)
      requires Valid()
      ensures c in View() ==> c in Wanted(Listed() + stale)
      ensures forall d :: d in View() ==> InStep(View(), queue, Wanted(Listed() + stale), {d})
    {
      hide Structure, ViewOf, WantedSpots, Unambiguous;
      assert c in View() ==> c in View().Keys + queue.Keys;
    }

    /**
     * A contact leaves the list. If it is shown, it is gone at once with everything queued for it;
     * if it still waits to be added, it keeps waiting, and is stale from now on.
     */
    method ContactLeaves(c: Contact)
      requires Valid() && c in Listed() + stale
      modifies this`contacts, this`stale, this`nodes, this`monitored, this`home, this`queue, nodes`children
      ensures Valid() && nodes <= old(nodes)
      ensures contacts == Without(old(contacts), c)
      ensures View() == old(View()) - {c}
      ensures queue == if c in old(View()) then old(queue) - {c} else old(queue)
      ensures stale == if c in old(View()) then old(stale) - {c} else old(stale) + {c}
    {
      hide Structure, ViewOf, WantedSpots, Unambiguous, InStep;
      ViewKeys();
      Left(c);
      stale := if c in monitored then stale - {c} else stale + {c};
      contacts := Without(contacts, c);
      RemoveContact(c);
    }

    lemma Left(c: Contact)
      requires Valid() && c in Listed() + stale
      ensures var contacts' := Without(contacts, c);
              var stale' := if c in View() then stale - {c} else stale + {c};
              var queue' := if c in View() then queue - {c} else queue;
              && NoDuplicates(contacts') && Elements(contacts') <= info.Keys
              && stale' <= info.Keys && stale' !! Elements(contacts')
              && InStep(View() - {c}, queue', WantedView(Elements(contacts') + stale', info, groupsEnabled, names), {})
    {
      hide Structure, ViewOf, WantedSpots, Unambiguous, InStep;
      WithoutNoDuplicates(contacts, c);
      assert Elements(Without(contacts, c)) == Listed() - {c};
      var all := Listed() + stale;
      StepWithout(View(), queue, Wanted(all), c);
      if c in View() {
        assert Listed() - {c} + (stale - {c}) == all - {c};
        assert Wanted(all - {c}) == Wanted(all) - {c};
      } else {
        assert Listed() - {c} + (stale + {c}) == all;
      }
    }
  }

  /**
   * A run that goes wrong: a contact that leaves the list before its addition is committed is
   * shown by the commit all the same.
   */
  method StaleRun(names: Names, c: Contact, data: Info) returns (m: ContactListModel)
    requires Unambiguous(data, names)
    ensures m.Valid() && m.contacts == [] && m.queue == map[]
    ensures Placements(m.nodes) != Rebuilt({}, m.info, m.groupsEnabled, names)
  {
    hide ContactListModel.Structure, ContactListModel.Consistent, ContactListModel.Known;
    hide Placements, Rebuilt, ViewOf, Unambiguous;
    m := new ContactListModel(names);
    m.StartsValid();
    m.ContactJoins(c, data, false);
    assert c !in m.View();
    m.ContactLeaves(c);
    assert c in m.stale && m.contacts == [] && m.Listed() == {};
    var _ := m.Commit();
  }
}
