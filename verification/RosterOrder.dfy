/** The order in which siblings of the roster tree are shown. */
module RosterOrder {
  import opened Strings
  import opened Tree
  import opened Roster
  import opened RosterModel

  /** Comparison of strings as the platform's locale does it, as a sign. */
  type Locale = (string, string) -> int

  /** What the comparison looks at besides the items: the style, and the present names and statuses. */
  datatype Sorting = Sorting(
    byStatus: bool,
    rank: Contact -> int,
    name: Contact -> string,
    accountName: string -> string,
    lower: string -> string,
    locale: Locale)

  /** The locale comparison is a total preorder. */
  ghost predicate TotalPreorder(locale: Locale) {
    && (forall a, b :: locale(a, b) < 0 <==> locale(b, a) > 0)
    && (forall a, b, c :: locale(a, b) <= 0 && locale(b, c) <= 0 ==> locale(a, c) <= 0)
  }

  function Number(s: Special): nat {
    match s
    case General => 0
    case NoSpecial => 1
    case MucPrivate => 2
    case Conference => 3
    case NotInList => 4
    case Transports => 5
  }

  predicate ItemLess(a: Entry, b: Entry, o: Sorting) {
    if a.Group? && b.Group? then
      if a.special != b.special then Number(a.special) < Number(b.special)
      else o.locale(o.lower(a.name), o.lower(b.name)) < 0
    else if a.Leaf? && b.Leaf? then
      var rank := o.rank(a.contact) - o.rank(b.contact);
      if rank == 0 then o.locale(o.lower(o.name(a.contact)), o.lower(o.name(b.contact))) < 0 else rank < 0
    else if a.Account? && b.Account? then
      o.locale(o.lower(o.accountName(a.account)), o.lower(o.accountName(b.account))) < 0
    else if a.Leaf? && b.Group? then a.contact.isSelf
    else if a.Group? && b.Leaf? then !b.contact.isSelf
    else false
  }

  /** The comparison of the sorted view over the tree. */
  predicate Less(a: Entry, b: Entry, o: Sorting) {
    if o.byStatus || !a.Leaf? || !b.Leaf? then ItemLess(a, b, o)
    else Before(o.lower(o.name(a.contact)), o.lower(o.name(b.contact)))
  }

  ghost predicate StrictWeakOrder(s: set<Entry>, o: Sorting) {
    && (forall a :: a in s ==> !Less(a, a, o))
    && (forall a, b, c :: a in s && b in s && c in s && Less(a, b, o) && Less(b, c, o) ==> Less(a, c, o))
    && (forall a, b, c :: a in s && b in s && c in s && Tied(a, b, o) && Tied(b, c, o) ==> Tied(a, c, o))
  }

  ghost predicate Tied(a: Entry, b: Entry, o: Sorting) {
    !Less(a, b, o) && !Less(b, a, o)
  }

  // ---- Siblings of one kind -----------------------------------------------------------------

  predicate Contacts(a: Entry, b: Entry, c: Entry) {
    a.Leaf? && b.Leaf? && c.Leaf?
  }

  lemma LeavesOrdered(a: Entry, b: Entry, c: Entry, o: Sorting)
    requires TotalPreorder(o.locale) && Contacts(a, b, c)
    ensures !Less(a, a, o)
    ensures Less(a, b, o) && Less(b, c, o) ==> Less(a, c, o)
    ensures Tied(a, b, o) && Tied(b, c, o) ==> Tied(a, c, o)
  {
    if !o.byStatus {
      var x, y, z := o.lower(o.name(a.contact)), o.lower(o.name(b.contact)), o.lower(o.name(c.contact));
      BeforeTotal(x, y);
      BeforeTotal(y, z);
      if Before(x, y) && Before(y, z) {
        BeforeTransitive(x, y, z);
      }
    }
  }

  lemma GroupsOrdered(a: Entry, b: Entry, c: Entry, o: Sorting)
    requires TotalPreorder(o.locale) && a.Group? && b.Group? && c.Group?
    ensures !Less(a, a, o)
    ensures Less(a, b, o) && Less(b, c, o) ==> Less(a, c, o)
    ensures Tied(a, b, o) && Tied(b, c, o) ==> Tied(a, c, o)
  {
  }

  /** Once there is a group in `s`, the account's own contacts in `s` come before its other contacts. */
  ghost predicate SelfFirst(s: set<Entry>, o: Sorting) {
    (exists g :: g in s && g.Group?) ==>
      forall a, b :: a in s && b in s && a.Leaf? && b.Leaf? && a.contact.isSelf && !b.contact.isSelf ==> Less(a, b, o)
  }

  lemma MixedOrdered(a: Entry, b: Entry, c: Entry, o: Sorting)
    requires TotalPreorder(o.locale) && SelfFirst({a, b, c}, o)
    requires (a.Group? || a.Leaf?) && (b.Group? || b.Leaf?) && (c.Group? || c.Leaf?)
    requires !Contacts(a, b, c) && !(a.Group? && b.Group? && c.Group?)
    ensures !Less(a, a, o)
    ensures Less(a, b, o) && Less(b, c, o) ==> Less(a, c, o)
    ensures Tied(a, b, o) && Tied(b, c, o) ==> Tied(a, c, o)
  {
    var s := {a, b, c};
    assert a in s && b in s && c in s;
    if a.Leaf? {
      LeavesOrdered(a, a, a, o);
    }
    if a.Leaf? && b.Leaf? {
      LeavesOrdered(a, b, a, o);
    } else if b.Leaf? && c.Leaf? {
      LeavesOrdered(b, c, b, o);
    } else if a.Leaf? && c.Leaf? {
      LeavesOrdered(a, c, a, o);
    }
  }

  /**
   * On groups and contacts put side by side the comparison is a strict weak order if and only if,
   * once there is a group among them, the account's own contacts come before all others.
   */
  lemma OrderedExactly(s: set<Entry>, o: Sorting)
    requires TotalPreorder(o.locale)
    requires forall e :: e in s ==> e.Group? || e.Leaf?
    ensures StrictWeakOrder(s, o) <==> SelfFirst(s, o)
  {
    if StrictWeakOrder(s, o) {
      forall g, a, b | g in s && g.Group? && a in s && b in s && a.Leaf? && b.Leaf?
                       && a.contact.isSelf && !b.contact.isSelf
        ensures Less(a, b, o)
      {
        assert Less(a, g, o) && Less(g, b, o);
      }
    } else if SelfFirst(s, o) {
      var a, b, c := Offending(s, o);
      if Contacts(a, b, c) {
        LeavesOrdered(a, b, c, o);
      } else if a.Group? && b.Group? && c.Group? {
        GroupsOrdered(a, b, c, o);
      } else {
        MixedOrdered(a, b, c, o);
      }
    }
  }

  lemma Offending(s: set<Entry>, o: Sorting) returns (a: Entry, b: Entry, c: Entry)
    requires !StrictWeakOrder(s, o)
    ensures a in s && b in s && c in s
    ensures Less(a, a, o) || (Less(a, b, o) && Less(b, c, o) && !Less(a, c, o))
            || (Tied(a, b, o) && Tied(b, c, o) && !Tied(a, c, o))
  {
    if x :| x in s && Less(x, x, o) {
      a, b, c := x, x, x;
    } else if x, y, z :| x in s && y in s && z in s && Less(x, y, o) && Less(y, z, o) && !Less(x, z, o) {
      a, b, c := x, y, z;
    } else {
      a, b, c :| a in s && b in s && c in s && Tied(a, b, o) && Tied(b, c, o) && !Tied(a, c, o);
    }
  }

  lemma AccountsOrdered(s: set<Entry>, o: Sorting)
    requires TotalPreorder(o.locale) && forall e :: e in s ==> e.Account?
    ensures StrictWeakOrder(s, o)
  {
  }

  // ---- The siblings a roster tree really has ------------------------------------------------

  ghost function Contents(items: seq<Item>): set<Entry> {
    set n | n in items :: n.content
  }

  /** In every state of the model, under every node and in both sort styles. */
  lemma SiblingsOrdered(m: ContactListModel, n: Item, o: Sorting)
    requires m.Structure() && n in m.nodes && TotalPreorder(o.locale)
    ensures StrictWeakOrder(Contents(n.children), o)
  {
    var s := Contents(n.children);
    SiblingKinds(m, n);
    if n == m.root {
      AccountsOrdered(s, o);
    } else {
      OrderedExactly(s, o);
    }
  }

  /** Under the root there are accounts; elsewhere a group never has a sibling that is an ordinary contact. */
  lemma SiblingKinds(m: ContactListModel, n: Item)
    requires m.Structure() && n in m.nodes
    ensures forall e :: e in Contents(n.children) ==> if n == m.root then e.Account? else e.Group? || e.Leaf?
    ensures forall g, e :: g in Contents(n.children) && e in Contents(n.children) && g.Group? && e.Leaf? ==>
              e.contact.isSelf
  {
    hide ContactListModel.Structure;
    forall c | c in n.children
      ensures if n == m.root then c.content.Account? else c.content.Group? || c.content.Leaf?
    {
      m.KindOfChild(n, c);
    }
    forall c, d | c in n.children && d in n.children && c.content.Group? && d.content.Leaf?
      ensures d.content.contact.isSelf
    {
      m.GroupBesideContact(n, c, d);
    }
  }

  // ---- What is seen in the rows -------------------------------------------------------------

  /** No row is less than one above it. */
  ghost predicate Sorted(rows: seq<Entry>, o: Sorting) {
    forall i, j :: 0 <= i < j < |rows| ==> !Less(rows[j], rows[i], o)
  }

  const GROUP_ORDER := [General, NoSpecial, MucPrivate, Conference, NotInList, Transports]

  /** The row `a` stands rightly above the row `b`. */
  ghost predicate Above(a: Entry, b: Entry, o: Sorting) {
    match (a, b)
    case (Leaf(x), Leaf(y)) =>
      var xName, yName := o.lower(o.name(x)), o.lower(o.name(y));
      if o.byStatus then
        o.rank(x) <= o.rank(y) && (o.rank(x) == o.rank(y) ==> o.locale(xName, yName) <= 0)
      else
        xName == yName || Before(xName, yName)
    case (Group(_, _), Group(_, _)) =>
      || (exists p, q :: 0 <= p < q < 6 && GROUP_ORDER[p] == a.special && GROUP_ORDER[q] == b.special)
      || (a.special == b.special && o.locale(o.lower(a.name), o.lower(b.name)) <= 0)
    case (Leaf(x), Group(_, _)) => x.isSelf
    case (Group(_, _), Leaf(y)) => !y.isSelf
    case (Account(x), Account(y)) => o.locale(o.lower(o.accountName(x)), o.lower(o.accountName(y))) <= 0
    case _ => true
  }

  lemma NotLess(a: Entry, b: Entry, o: Sorting)
    requires TotalPreorder(o.locale)
    ensures !Less(b, a, o) <==> Above(a, b, o)
  {
    if a.Leaf? && b.Leaf? {
      BeforeTotal(o.lower(o.name(a.contact)), o.lower(o.name(b.contact)));
    } else if a.Group? && b.Group? && a.special != b.special {
      forall p, q | 0 <= p < 6 && 0 <= q < 6 && GROUP_ORDER[p] == a.special && GROUP_ORDER[q] == b.special
        ensures !Less(b, a, o) <==> p < q
      {
      }
      assert GROUP_ORDER[Number(a.special)] == a.special && GROUP_ORDER[Number(b.special)] == b.special;
    }
  }

  /** Any siblings are sorted exactly if of any two the upper one stands there rightly. */
  lemma RowsExactly(rows: seq<Entry>, o: Sorting)
    requires TotalPreorder(o.locale)
    ensures Sorted(rows, o) <==> forall i, j :: 0 <= i < j < |rows| ==> Above(rows[i], rows[j], o)
  {
    forall i, j | 0 <= i < j < |rows|
      ensures !Less(rows[j], rows[i], o) <==> Above(rows[i], rows[j], o)
    {
      NotLess(rows[i], rows[j], o);
    }
  }

  /** Where there are groups, the account's own contacts stand on top and all rows below them are groups. */
  lemma OwnRowsOnTop(m: ContactListModel, n: Item, rows: seq<Entry>, o: Sorting)
    requires m.Structure() && n in m.nodes && TotalPreorder(o.locale) && Sorted(rows, o)
    requires forall e :: e in rows <==> e in Contents(n.children)
    requires exists g :: g in rows && g.Group?
    ensures exists k :: OwnAbove(rows, k)
  {
    hide ContactListModel.Structure;
    SiblingKinds(m, n);
    var g :| g in rows && g.Group?;
    var k := FirstGroup(rows);
    forall i | 0 <= i < |rows|
      ensures if i < k then rows[i].Leaf? && rows[i].contact.isSelf else rows[i].Group?
    {
      assert rows[i] in rows && g in Contents(n.children);
      if i > k {
        assert !Less(rows[i], rows[k], o);
      }
    }
    assert OwnAbove(rows, k);
  }

  ghost predicate OwnAbove(rows: seq<Entry>, k: nat) {
    && k <= |rows|
    && (forall i :: 0 <= i < k ==> rows[i].Leaf? && rows[i].contact.isSelf)
    && (forall i :: k <= i < |rows| ==> rows[i].Group?)
  }

  ghost function FirstGroup(rows: seq<Entry>): (k: nat)
    requires exists g :: g in rows && g.Group?
    ensures k < |rows| && rows[k].Group? && forall i :: 0 <= i < k ==> !rows[i].Group?
  {
    if rows[0].Group? then 0 else assert rows == [rows[0]] + rows[1..]; 1 + FirstGroup(rows[1..])
  }

  /** Without that, two contacts and a group can go round in a circle. */
  lemma CircleOfSiblings(o: Sorting, a: Contact, b: Contact)
    requires TotalPreorder(o.locale) && a.isSelf && !b.isSelf && Less(Leaf(b), Leaf(a), o)
    ensures !StrictWeakOrder({Leaf(a), Group(NoSpecial, "Friends"), Leaf(b)}, o)
  {
    var g := Group(NoSpecial, "Friends");
    var s := {Leaf(a), g, Leaf(b)};
    assert Less(Leaf(a), g, o) && Less(g, Leaf(b), o);
    LeavesOrdered(Leaf(a), Leaf(b), Leaf(a), o);
  }
}
