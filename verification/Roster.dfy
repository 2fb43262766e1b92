/** Contacts, groups and placements of the roster, on values. */
module Roster {
  import opened Sequences

  /** In the order of the program's enumeration, which the group sort relies on. */
  datatype Special = General | NoSpecial | MucPrivate | Conference | NotInList | Transports

  /** What about a contact never changes: its identity, its account, whether it is the account itself. */
  datatype Contact = Contact(id: nat, account: string, isSelf: bool)

  /** What roster pushes and presence change. */
  datatype Info = Info(isPrivate: bool, inList: bool, isAgent: bool, isConference: bool, userGroups: seq<string>)

  /** The content of a tree item. */
  datatype Entry =
    | Root
    | Account(account: string)
    | Group(special: Special, name: string)
    | Leaf(contact: Contact)

  /** Where below its account a contact is shown. */
  datatype Spot = Direct | InGroup(special: Special, name: string)

  datatype Placement = Placement(account: string, spot: Spot, contact: Contact)

  /** The names under which the special groups are displayed. */
  type Names = Special -> string

  function Distinct(s: seq<string>): (r: seq<string>)
    ensures NoDuplicates(r)
    ensures forall x :: x in r <==> x in s
  {
    if s == [] then [] else
      var r := Distinct(s[..|s| - 1]);
      assert s == s[..|s| - 1] + [s[|s| - 1]];
      if s[|s| - 1] in r then r else r + [s[|s| - 1]]
  }

  /** PsiContact::groups: never empty, never twice the same name. */
  function Groups(info: Info): (r: seq<string>)
    ensures NoDuplicates(r) && r != []
    ensures info.inList && info.userGroups != [] ==> forall g :: g in r <==> g in info.userGroups
    ensures !info.inList || info.userGroups == [] ==> r == [""]
  {
    if !info.inList || info.userGroups == [] then [""] else
      assert info.userGroups[0] in Distinct(info.userGroups);
      Distinct(info.userGroups)
  }

  function SpecialGroupFor(info: Info): Special {
    if info.isPrivate then MucPrivate
    else if !info.inList then NotInList
    else if info.isAgent then Transports
    else if info.isConference then Conference
    else if info.userGroups == [] then General
    else NoSpecial
  }

  /** `name` is not what one of the special groups is called. */
  ghost predicate Ordinary(name: string, names: Names) {
    forall s :: s != NoSpecial ==> name != names(s)
  }

  /** No user group is called like a special group. */
  ghost predicate Unambiguous(info: Info, names: Names) {
    forall g :: g in info.userGroups ==> Ordinary(g, names)
  }

  function GroupSpot(special: Special, name: string, names: Names): Spot {
    InGroup(special, if special == NoSpecial then name else names(special))
  }

  /** The groups a contact is looped over: its own, or one round for its special group. */
  function GroupNames(info: Info): (r: seq<string>)
    ensures r != []
  {
    if SpecialGroupFor(info) == NoSpecial then Groups(info) else [""]
  }

  lemma OwnGroupsUnambiguous(info: Info, names: Names)
    requires Unambiguous(info, names)
    ensures SpecialGroupFor(info) == NoSpecial ==>
              forall g :: g in GroupNames(info) ==> Ordinary(g, names)
  {
  }

  ghost function GroupSpots(special: Special, groups: seq<string>, names: Names): set<Spot> {
    set g | g in groups :: GroupSpot(special, g, names)
  }

  lemma GroupSpotsAppend(special: Special, groups: seq<string>, g: string, names: Names)
    ensures GroupSpots(special, groups + [g], names) ==
            GroupSpots(special, groups, names) + {GroupSpot(special, g, names)}
  {
    assert g in groups + [g];
    assert forall h :: h in groups ==> h in groups + [g];
  }

  /** Where a contact belongs: under its account, in its one special group, or in each of its own groups. */
  ghost function WantedSpots(c: Contact, info: Info, groupsEnabled: bool, names: Names): (r: set<Spot>)
    ensures r != {}
  {
    if c.isSelf || !groupsEnabled then {Direct}
    else
      var r := GroupSpots(SpecialGroupFor(info), GroupNames(info), names);
      assert GroupSpot(SpecialGroupFor(info), GroupNames(info)[0], names) in r;
      r
  }

  ghost function WantedView(contacts: set<Contact>, info: map<Contact, Info>, groupsEnabled: bool, names: Names)
    : map<Contact, set<Spot>>
  {
    map c | c in contacts && c in info :: WantedSpots(c, info[c], groupsEnabled, names)
  }

  lemma WantedViewAdd(view: map<Contact, set<Spot>>, done: seq<Contact>, c: Contact, info: map<Contact, Info>,
                      groupsEnabled: bool, names: Names)
    requires c in info
    ensures (view + WantedView(Elements(done), info, groupsEnabled, names))
            [c := WantedSpots(c, info[c], groupsEnabled, names)]
            == view + WantedView(Elements(done + [c]), info, groupsEnabled, names)
  {
    hide WantedSpots;
    assert Elements(done + [c]) == Elements(done) + {c};
  }

  /** What a layout built from nothing shows for `contacts` and their present data. */
  ghost function Rebuilt(contacts: set<Contact>, info: map<Contact, Info>, groupsEnabled: bool, names: Names)
    : set<Placement>
    requires contacts <= info.Keys
  {
    set c, s | c in contacts && s in WantedSpots(c, info[c], groupsEnabled, names) :: Placement(c.account, s, c)
  }

  ghost function PlacementsIn(view: map<Contact, set<Spot>>): set<Placement> {
    set c, s | c in view && s in view[c] :: Placement(c.account, s, c)
  }

  lemma RebuiltView(contacts: set<Contact>, info: map<Contact, Info>, groupsEnabled: bool, names: Names)
    requires contacts <= info.Keys
    ensures PlacementsIn(WantedView(contacts, info, groupsEnabled, names)) ==
            Rebuilt(contacts, info, groupsEnabled, names)
  {
    hide WantedSpots;
  }

  // ---- Which group a contact is in, by what is known of it --------------------------------------

  /** The one special group of a contact, told group by group. */
  ghost predicate InSpecial(spot: Spot, i: Info) {
    && spot.InGroup?
    && (spot.special == MucPrivate <==> i.isPrivate)
    && (spot.special == NotInList <==> !i.isPrivate && !i.inList)
    && (spot.special == Transports <==> !i.isPrivate && i.inList && i.isAgent)
    && (spot.special == Conference <==> !i.isPrivate && i.inList && !i.isAgent && i.isConference)
    && (spot.special == General <==> !i.isPrivate && i.inList && !i.isAgent && !i.isConference && i.userGroups == [])
  }

  /** A contact that belongs to the groups it was given. */
  predicate InOwnGroups(i: Info) {
    !i.isPrivate && i.inList && !i.isAgent && !i.isConference && i.userGroups != []
  }

  /**
   * Every contact is shown, under its own account; the account's own contacts, and all without
   * groups, directly, others in the special group of their kind or in exactly the groups given them.
   */
  ghost predicate ByKind(placements: set<Placement>, contacts: set<Contact>, info: map<Contact, Info>,
                         groupsEnabled: bool, names: Names)
    requires contacts <= info.Keys
  {
    && (forall p :: p in placements ==> p.contact in contacts && p.account == p.contact.account)
    && (forall c :: c in contacts ==> exists s :: Placement(c.account, s, c) in placements)
    && (forall p :: p in placements ==>
          if p.contact.isSelf || !groupsEnabled then p.spot == Direct
          else InSpecial(p.spot, info[p.contact]))
    && (forall p :: p in placements && p.spot.InGroup? ==>
          if p.spot.special == NoSpecial then p.spot.name in info[p.contact].userGroups
          else p.spot.name == names(p.spot.special))
    && (forall c, g ::
          c in contacts && !c.isSelf && groupsEnabled && InOwnGroups(info[c]) && g in info[c].userGroups ==>
          Placement(c.account, InGroup(NoSpecial, g), c) in placements)
  }

  /** The same of the spots of one contact. */
  ghost predicate SpotsByKind(spots: set<Spot>, c: Contact, i: Info, groupsEnabled: bool, names: Names) {
    && spots != {}
    && (forall s :: s in spots ==> if c.isSelf || !groupsEnabled then s == Direct else InSpecial(s, i))
    && (forall s :: s in spots && s.InGroup? ==>
          if s.special == NoSpecial then s.name in i.userGroups else s.name == names(s.special))
    && (!c.isSelf && groupsEnabled && InOwnGroups(i) ==>
          forall g :: g in i.userGroups ==> InGroup(NoSpecial, g) in spots)
  }

  lemma WantedKinds(c: Contact, i: Info, groupsEnabled: bool, names: Names)
    ensures SpotsByKind(WantedSpots(c, i, groupsEnabled, names), c, i, groupsEnabled, names)
  {
    if !c.isSelf && groupsEnabled && InOwnGroups(i) {
      forall g | g in i.userGroups
        ensures InGroup(NoSpecial, g) in WantedSpots(c, i, groupsEnabled, names)
      {
        assert g in Groups(i);
        assert GroupSpot(NoSpecial, g, names) in GroupSpots(NoSpecial, Groups(i), names);
      }
    }
  }

  /** And no other set of spots is as the contact's kind and groups have it. */
  lemma OnlyWanted(spots: set<Spot>, c: Contact, i: Info, groupsEnabled: bool, names: Names)
    requires SpotsByKind(spots, c, i, groupsEnabled, names)
    ensures spots == WantedSpots(c, i, groupsEnabled, names)
  {
    var wanted := WantedSpots(c, i, groupsEnabled, names);
    WantedKinds(c, i, groupsEnabled, names);
    forall s, t | s in spots && t in wanted
      ensures (!c.isSelf && groupsEnabled && InOwnGroups(i)) || s == t
    {
    }
  }

  /** The layout built from nothing shows every contact where its kind or its groups put it. */
  lemma RebuiltByKind(contacts: set<Contact>, info: map<Contact, Info>, groupsEnabled: bool, names: Names)
    requires contacts <= info.Keys
    ensures ByKind(Rebuilt(contacts, info, groupsEnabled, names), contacts, info, groupsEnabled, names)
  {
    hide InSpecial, InOwnGroups, WantedSpots;
    forall c | c in contacts
      ensures SpotsByKind(WantedSpots(c, info[c], groupsEnabled, names), c, info[c], groupsEnabled, names)
      ensures exists s :: Placement(c.account, s, c) in Rebuilt(contacts, info, groupsEnabled, names)
    {
      WantedKinds(c, info[c], groupsEnabled, names);
      var s :| s in WantedSpots(c, info[c], groupsEnabled, names);
      assert Placement(c.account, s, c) in Rebuilt(contacts, info, groupsEnabled, names);
    }
  }

  /** And it is the only layout that does. */
  lemma OnlyRebuilt(placements: set<Placement>, contacts: set<Contact>, info: map<Contact, Info>, groupsEnabled: bool,
                    names: Names)
    requires contacts <= info.Keys && ByKind(placements, contacts, info, groupsEnabled, names)
    ensures placements == Rebuilt(contacts, info, groupsEnabled, names)
  {
    hide InSpecial, InOwnGroups, WantedSpots;
    forall c, s | c in contacts
      ensures Placement(c.account, s, c) in placements <==> s in WantedSpots(c, info[c], groupsEnabled, names)
    {
      var spots := set p | p in placements && p.contact == c :: p.spot;
      assert forall t :: t in spots <==> Placement(c.account, t, c) in placements;
      OnlyWanted(spots, c, info[c], groupsEnabled, names);
    }
    forall p: Placement
      ensures p in placements <==> p in Rebuilt(contacts, info, groupsEnabled, names)
    {
      assert p == Placement(p.account, p.spot, p.contact);
    }
  }

  /** Two layouts differ as soon as their contacts do: no contact is without a place. */
  lemma RebuiltInjective(a: set<Contact>, b: set<Contact>, info: map<Contact, Info>, groupsEnabled: bool, names: Names)
    requires a <= info.Keys && b <= info.Keys
    ensures Rebuilt(a, info, groupsEnabled, names) == Rebuilt(b, info, groupsEnabled, names) <==> a == b
  {
    if Rebuilt(a, info, groupsEnabled, names) == Rebuilt(b, info, groupsEnabled, names) {
      RebuiltContains(a, b, info, groupsEnabled, names);
      RebuiltContains(b, a, info, groupsEnabled, names);
    }
  }

  lemma RebuiltContains(a: set<Contact>, b: set<Contact>, info: map<Contact, Info>, groupsEnabled: bool, names: Names)
    requires a <= info.Keys && b <= info.Keys
    requires Rebuilt(a, info, groupsEnabled, names) <= Rebuilt(b, info, groupsEnabled, names)
    ensures a <= b
  {
    forall c | c in a
      ensures c in b
    {
      var s :| s in WantedSpots(c, info[c], groupsEnabled, names);
      assert Placement(c.account, s, c) in Rebuilt(a, info, groupsEnabled, names);
    }
  }
}
