/**
 * Reactions to messages: for every message who reacted how, and the inverse index that is shown,
 * kept in step by adding and removing only what changed.
 */
module Reactions {
  import opened Sequences

  /** `total`: who gave a reaction, in order; `perUser`: what a user has given. */
  datatype Reactions = Reactions(total: map<string, seq<string>>, perUser: map<string, set<string>>)

  const NO_REACTIONS := Reactions(map[], map[])

  // ---- The two indexes -----------------------------------------------------------------------

  function Nicks(total: map<string, seq<string>>, r: string): seq<string> {
    if r in total then total[r] else []
  }

  function Given(perUser: map<string, set<string>>, nick: string): set<string> {
    if nick in perUser then perUser[nick] else {}
  }

  /** `total` and `perUser` are inverse to each other and hold nothing empty or twice. */
  ghost predicate Consistent(m: Reactions) {
    && (forall r, n :: n in Nicks(m.total, r) <==> r in Given(m.perUser, n))
    && (forall r :: r in m.total ==> m.total[r] != [] && NoDuplicates(m.total[r]))
    && (forall n :: n in m.perUser ==> m.perUser[n] != {})
  }

  /** `total` with the user joining each of `rs`. */
  function Joined(total: map<string, seq<string>>, nick: string, rs: set<string>): map<string, seq<string>> {
    map r | r in total.Keys + rs :: if r in rs then Nicks(total, r) + [nick] else total[r]
  }

  /** `total` with the user leaving each of `rs`; a reaction nobody gives any more goes. */
  function Parted(total: map<string, seq<string>>, nick: string, rs: set<string>): map<string, seq<string>> {
    map r | r in total && (r in rs ==> Without(total[r], nick) != []) ::
      if r in rs then Without(total[r], nick) else total[r]
  }

  lemma JoinedNone(total: map<string, seq<string>>, nick: string)
    ensures Joined(total, nick, {}) == total && Parted(total, nick, {}) == total
  {
  }

  lemma JoinedStep(total: map<string, seq<string>>, nick: string, rs: set<string>, v: string)
    requires v !in rs
    ensures Nicks(Joined(total, nick, rs), v) == Nicks(total, v)
    ensures Joined(total, nick, rs + {v}) == Joined(total, nick, rs)[v := Nicks(total, v) + [nick]]
  {
  }

  lemma PartedRest(total: map<string, seq<string>>, nick: string, rs: set<string>, v: string)
    requires v !in rs && v in total
    ensures v in Parted(total, nick, rs) && Parted(total, nick, rs)[v] == total[v]
  {
  }

  lemma PartedStep(total: map<string, seq<string>>, nick: string, rs: set<string>, v: string)
    requires v !in rs && v in total
    ensures var nicks, rest := Without(total[v], nick), Parted(total, nick, rs);
            Parted(total, nick, rs + {v}) == if nicks == [] then rest[v := nicks] - {v} else rest[v := nicks]
  {
    hide Without;
    var nicks, rest := Without(total[v], nick), Parted(total, nick, rs);
    assert rest[v := nicks] - {v} == rest - {v};
  }

  /** The record of one message once the user's reactions are `rs`. */
  function Changed(m: Reactions, nick: string, rs: set<string>): Reactions {
    var mine := Given(m.perUser, nick);
    Reactions(Parted(Joined(m.total, nick, rs - mine), nick, mine - rs),
              if rs == {} then m.perUser - {nick} else m.perUser[nick := rs])
  }

  lemma ChangedNicks(m: Reactions, nick: string, rs: set<string>, r: string)
    requires Consistent(m)
    ensures var nicks, after := Nicks(m.total, r), Nicks(Changed(m, nick, rs).total, r);
            && after == (if r in rs && nick !in nicks then nicks + [nick]
                         else if r !in rs then Without(nicks, nick) else nicks)
            && NoDuplicates(after) && (r in Changed(m, nick, rs).total ==> after != [])
            && (forall n :: n in after <==> if n == nick then r in rs else n in nicks)
  {
    assert nick in Nicks(m.total, r) <==> r in Given(m.perUser, nick);
    WithoutNoDuplicates(Nicks(m.total, r), nick);
  }

  lemma ChangedGiven(m: Reactions, nick: string, rs: set<string>, n: string)
    requires Consistent(m)
    ensures Given(Changed(m, nick, rs).perUser, n) == if n == nick then rs else Given(m.perUser, n)
    ensures n in Changed(m, nick, rs).perUser ==> Changed(m, nick, rs).perUser[n] != {}
  {
  }

  lemma NicksAt(total: map<string, seq<string>>, r: string)
    ensures r in total ==> Nicks(total, r) == total[r]
  {
  }

  /** Setting a user's reactions keeps the indexes inverse to each other. */
  lemma ChangedConsistent(m: Reactions, nick: string, rs: set<string>)
    requires Consistent(m)
    ensures Consistent(Changed(m, nick, rs))
  {
    hide Joined, Parted, Nicks, Given, NoDuplicates, Changed;
    forall n
      ensures Given(Changed(m, nick, rs).perUser, n) == if n == nick then rs else Given(m.perUser, n)
      ensures n in Changed(m, nick, rs).perUser ==> Changed(m, nick, rs).perUser[n] != {}
    {
      ChangedGiven(m, nick, rs, n);
    }
    forall r
      ensures var nicks, after := Nicks(m.total, r), Nicks(Changed(m, nick, rs).total, r);
              && (forall n :: n in after <==> if n == nick then r in rs else n in nicks)
      ensures var total := Changed(m, nick, rs).total; r in total ==> total[r] != [] && NoDuplicates(total[r])
    {
      ChangedNicks(m, nick, rs, r);
      assert r in Changed(m, nick, rs).total ==>
          Nicks(Changed(m, nick, rs).total, r) == Changed(m, nick, rs).total[r] by {
        NicksAt(Changed(m, nick, rs).total, r);
      }
    }
  }

  lemma NobodyLeft(m: Reactions)
    requires Consistent(m)
    ensures m.total == map[] <==> m.perUser == map[]
  {
    if m.perUser != map[] {
      var n :| n in m.perUser;
      var r :| r in Given(m.perUser, n);
      assert n in Nicks(m.total, r);
    }
    if m.total != map[] {
      var r :| r in m.total;
      assert m.total[r][0] in Nicks(m.total, r);
      assert r in Given(m.perUser, m.total[r][0]);
    }
  }

  // ---- Both indexes count the same -------------------------------------------------------------

  ghost function Pairs(perUser: map<string, set<string>>): set<(string, string)> {
    set n, r | n in perUser && r in perUser[n] :: (n, r)
  }

  ghost function UserCount(perUser: map<string, set<string>>): nat {
    if perUser == map[] then 0 else var n :| n in perUser; |perUser[n]| + UserCount(perUser - {n})
  }

  ghost function NickCount(total: map<string, seq<string>>): nat {
    if total == map[] then 0 else var r :| r in total; |total[r]| + NickCount(total - {r})
  }

  ghost function Listings(total: map<string, seq<string>>): set<(string, string)> {
    set r, n | r in total && n in total[r] :: (n, r)
  }

  lemma {:induction false} SetOfRow(n: string, rs: set<string>)
    ensures |set r | r in rs :: (n, r)| == |rs|
  {
    if rs != {} {
      var r :| r in rs;
      SetOfRow(n, rs - {r});
      assert (set x | x in rs :: (n, x)) == (set x | x in rs - {r} :: (n, x)) + {(n, r)};
    }
  }

  lemma {:induction false} SetOfColumn(nicks: seq<string>, r: string)
    requires NoDuplicates(nicks)
    ensures |set n | n in nicks :: (n, r)| == |nicks|
  {
    if nicks != [] {
      SetOfColumn(nicks[1..], r);
      assert nicks == [nicks[0]] + nicks[1..];
      assert (set n | n in nicks :: (n, r)) == (set n | n in nicks[1..] :: (n, r)) + {(nicks[0], r)};
    }
  }

  lemma {:induction false} UserCountIsPairs(perUser: map<string, set<string>>)
    ensures UserCount(perUser) == |Pairs(perUser)|
  {
    if perUser != map[] {
      var n :| n in perUser && UserCount(perUser) == |perUser[n]| + UserCount(perUser - {n});
      UserCountIsPairs(perUser - {n});
      SetOfRow(n, perUser[n]);
      var row := set r | r in perUser[n] :: (n, r);
      assert Pairs(perUser) == Pairs(perUser - {n}) + row;
      assert Pairs(perUser - {n}) !! row;
    }
  }

  lemma {:induction false} NickCountIsListings(total: map<string, seq<string>>)
    requires forall r :: r in total ==> NoDuplicates(total[r])
    ensures NickCount(total) == |Listings(total)|
  {
    if total != map[] {
      var r :| r in total && NickCount(total) == |total[r]| + NickCount(total - {r});
      NickCountIsListings(total - {r});
      SetOfColumn(total[r], r);
      var column := set n | n in total[r] :: (n, r);
      assert Listings(total) == Listings(total - {r}) + column;
      assert Listings(total - {r}) !! column;
    }
  }

  /** The nicknames listed are as many as the reactions given. */
  lemma SameCount(m: Reactions)
    requires Consistent(m)
    ensures NickCount(m.total) == UserCount(m.perUser)
  {
    UserCountIsPairs(m.perUser);
    NickCountIsListings(m.total);
    forall n, r
      ensures (n, r) in Pairs(m.perUser) <==> (n, r) in Listings(m.total)
    {
      assert n in Nicks(m.total, r) <==> r in Given(m.perUser, n);
    }
    assert Pairs(m.perUser) == Listings(m.total);
  }

  // ---- All messages ----------------------------------------------------------------------------

  function RecordOf(reactions: map<string, Reactions>, id: string): Reactions {
    if id in reactions then reactions[id] else NO_REACTIONS
  }

  /** What a user has given to a message: all there is to know but for the order of nicknames. */
  function GivenTo(reactions: map<string, Reactions>, id: string, nick: string): set<string> {
    Given(RecordOf(reactions, id).perUser, nick)
  }

  ghost predicate AllConsistent(reactions: map<string, Reactions>) {
    forall id :: id in reactions ==> Consistent(reactions[id]) && reactions[id].total != map[]
  }

  function Updated(reactions: map<string, Reactions>, nick: string, id: string, rs: set<string>)
    : map<string, Reactions>
  {
    var m := Changed(RecordOf(reactions, id), nick, rs);
    if m.total == map[] then reactions - {id} else reactions[id := m]
  }

  /** An update sets what this user gave to this message, touches nothing else, and keeps the indexes in step. */
  lemma UpdatedGives(reactions: map<string, Reactions>, nick: string, id: string, rs: set<string>)
    requires AllConsistent(reactions)
    ensures AllConsistent(Updated(reactions, nick, id, rs))
    ensures forall i, n :: GivenTo(Updated(reactions, nick, id, rs), i, n) ==
                           if i == id && n == nick then rs else GivenTo(reactions, i, n)
  {
    var m := RecordOf(reactions, id);
    assert Consistent(m);
    ChangedConsistent(m, nick, rs);
    NobodyLeft(Changed(m, nick, rs));
  }

  /** The same messages, users and reactions; nicknames may be listed in another order. */
  ghost predicate SameButOrder(a: map<string, Reactions>, b: map<string, Reactions>) {
    a.Keys == b.Keys && forall i :: i in a ==> SameRecord(a[i], b[i])
  }

  ghost predicate SameRecord(x: Reactions, y: Reactions) {
    && x.perUser == y.perUser && x.total.Keys == y.total.Keys
    && forall r :: r in x.total ==> multiset(x.total[r]) == multiset(y.total[r])
  }

  /** The state is determined by who gave what, up to the order in which nicknames are listed. */
  lemma Determined(a: map<string, Reactions>, b: map<string, Reactions>)
    requires AllConsistent(a) && AllConsistent(b)
    requires forall i, n :: GivenTo(a, i, n) == GivenTo(b, i, n)
    ensures SameButOrder(a, b)
  {
    forall i
      ensures i in a <==> i in b
      ensures SameRecord(RecordOf(a, i), RecordOf(b, i))
    {
      assert forall n :: Given(RecordOf(a, i).perUser, n) == GivenTo(a, i, n) == GivenTo(b, i, n);
      RecordDetermined(RecordOf(a, i), RecordOf(b, i));
      NobodyLeft(RecordOf(a, i));
      NobodyLeft(RecordOf(b, i));
    }
  }

  lemma RecordDetermined(x: Reactions, y: Reactions)
    requires Consistent(x) && Consistent(y) && forall n :: Given(x.perUser, n) == Given(y.perUser, n)
    ensures SameRecord(x, y)
  {
    assert forall n :: n in x.perUser <==> Given(x.perUser, n) != {};
    assert forall n :: n in y.perUser <==> Given(y.perUser, n) != {};
    assert x.perUser == y.perUser;
    forall r
      ensures Elements(Nicks(x.total, r)) == Elements(Nicks(y.total, r))
      ensures r in x.total <==> r in y.total
      ensures multiset(Nicks(x.total, r)) == multiset(Nicks(y.total, r))
    {
      forall n
        ensures n in Nicks(x.total, r) <==> n in Nicks(y.total, r)
      {
        assert r in Given(x.perUser, n) <==> r in Given(y.perUser, n);
      }
      if r in x.total { assert x.total[r][0] in Nicks(x.total, r); }
      if r in y.total { assert y.total[r][0] in Nicks(y.total, r); }
      SameElements(Nicks(x.total, r), Nicks(y.total, r));
    }
  }

  // ---- Switching a reaction on and off ------------------------------------------------------------

  function Switched(given: set<string>, r: string): set<string> {
    if r in given then given - {r} else given + {r}
  }

  function Toggled(reactions: map<string, Reactions>, nick: string, id: string, r: string): map<string, Reactions> {
    Updated(reactions, nick, id, Switched(GivenTo(reactions, id, nick), r))
  }

  /** Switching a reaction twice restores what everybody gave, and the lists up to their order. */
  lemma ToggledTwice(reactions: map<string, Reactions>, nick: string, id: string, r: string)
    requires AllConsistent(reactions)
    ensures var after := Toggled(Toggled(reactions, nick, id, r), nick, id, r);
            AllConsistent(after) && SameButOrder(after, reactions)
  {
    hide AllConsistent, SameButOrder, Updated, GivenTo;
    var once := Toggled(reactions, nick, id, r);
    UpdatedGives(reactions, nick, id, Switched(GivenTo(reactions, id, nick), r));
    UpdatedGives(once, nick, id, Switched(GivenTo(once, id, nick), r));
    Determined(Toggled(once, nick, id, r), reactions);
  }

  lemma UpdatedNicks(reactions: map<string, Reactions>, nick: string, id: string, rs: set<string>, r: string)
    requires AllConsistent(reactions)
    ensures var nicks := Nicks(RecordOf(reactions, id).total, r);
            Nicks(RecordOf(Updated(reactions, nick, id, rs), id).total, r) ==
            if r in rs && nick !in nicks then nicks + [nick] else if r !in rs then Without(nicks, nick) else nicks
    ensures nick in Nicks(RecordOf(reactions, id).total, r) <==> r in GivenTo(reactions, id, nick)
  {
    ChangedNicks(RecordOf(reactions, id), nick, rs, r);
    assert Consistent(RecordOf(reactions, id));
  }

  /**
   * The order stays exactly if the user was not listed, or listed last: taking back and giving again
   * moves to the end.
   */
  lemma ToggledTwiceOrder(reactions: map<string, Reactions>, nick: string, id: string, r: string)
    requires AllConsistent(reactions)
    ensures var nicks := Nicks(RecordOf(reactions, id).total, r);
            Nicks(RecordOf(Toggled(Toggled(reactions, nick, id, r), nick, id, r), id).total, r) ==
            if nick in nicks then Without(nicks, nick) + [nick] else nicks
  {
    hide AllConsistent, Updated, GivenTo, Without, Nicks;
    var first := Switched(GivenTo(reactions, id, nick), r);
    var once := Toggled(reactions, nick, id, r);
    UpdatedGives(reactions, nick, id, first);
    UpdatedNicks(reactions, nick, id, first, r);
    UpdatedNicks(once, nick, id, Switched(GivenTo(once, id, nick), r), r);
    var nicks := Nicks(RecordOf(reactions, id).total, r);
    if nick in nicks {
      NicksOnce(reactions, id, nick, r);
    } else {
      AddedAndTaken(nicks, nick);
    }
  }

  lemma NicksOnce(reactions: map<string, Reactions>, id: string, nick: string, r: string)
    requires AllConsistent(reactions)
    ensures nick !in Without(Nicks(RecordOf(reactions, id).total, r), nick)
  {
    assert Consistent(RecordOf(reactions, id));
    WithoutNoDuplicates(Nicks(RecordOf(reactions, id).total, r), nick);
  }

  lemma AddedAndTaken(nicks: seq<string>, nick: string)
    requires nick !in nicks
    ensures Without(nicks + [nick], nick) == nicks
  {
    var s := nicks + [nick];
    assert s[|nicks|] == nick;
    assert forall k :: 0 <= k < |nicks| ==> s[k] == nicks[k];
    assert IndexOf(s, nick) == |nicks|;
    assert s[..|nicks|] + s[|nicks| + 1..] == nicks;
  }

  // ---- The view ------------------------------------------------------------------------------------

  class ChatView {
    const isMuc: bool
    const localNick: string
    var reactions: map<string, Reactions>
    /** What went to the network. */
    ghost var sent: seq<(string, set<string>)>

    ghost predicate Valid()
      reads this`reactions
    {
      AllConsistent(reactions)
    }

    constructor (isMuc: bool, localNick: string)
      ensures Valid() && reactions == map[] && sent == []
      ensures this.isMuc == isMuc && this.localNick == localNick
    {
      this.isMuc, this.localNick := isMuc, localNick;
      reactions, sent := map[], [];
    }

    /** The user joins every reaction in `toAdd`, in whatever order they come. */
    method Join(id: string, nick: string, toAdd: set<string>)
      requires id in reactions
      modifies this`reactions
      ensures reactions ==
              old(reactions)[id := old(reactions[id]).(total := Joined(old(reactions[id]).total, nick, toAdd))]
    {
      hide Joined, Nicks;
      var todo := toAdd;
      ghost var total := reactions[id].total;
      JoinedNone(total, nick);
      assert toAdd - todo == {};
      while todo != {}
        invariant todo <= toAdd
        invariant reactions == old(reactions)[id := old(reactions[id]).(total := Joined(total, nick, toAdd - todo))]
      {
        var v :| v in todo;
        var m := reactions[id];
        reactions := reactions[id := m.(total := m.total[v := Nicks(m.total, v) + [nick]])];
        assert toAdd - (todo - {v}) == (toAdd - todo) + {v};
        JoinedStep(total, nick, toAdd - todo, v);
        todo := todo - {v};
      }
      assert toAdd - todo == toAdd;
    }

    /** The user leaves every reaction in `toRemove`; those nobody gives any more are dropped. */
    method Part(id: string, nick: string, toRemove: set<string>)
      requires id in reactions && toRemove <= reactions[id].total.Keys
      modifies this`reactions
      ensures reactions ==
              old(reactions)[id := old(reactions[id]).(total := Parted(old(reactions[id]).total, nick, toRemove))]
    {
      hide Parted, Without;
      var todo := toRemove;
      ghost var total := reactions[id].total;
      JoinedNone(total, nick);
      assert toRemove - todo == {};
      while todo != {}
        invariant todo <= toRemove
        invariant reactions == old(reactions)[id := old(reactions[id]).(total := Parted(total, nick, toRemove - todo))]
      {
        var v :| v in todo;
        var m := reactions[id];
        PartedRest(total, nick, toRemove - todo, v);
        var nicks := Without(m.total[v], nick);
        reactions := reactions[id := m.(total := m.total[v := nicks])];
        if nicks == [] {
          reactions := reactions[id := m.(total := m.total[v := nicks] - {v})];
        }
        assert toRemove - (todo - {v}) == (toRemove - todo) + {v};
        PartedStep(total, nick, toRemove - todo, v);
        todo := todo - {v};
      }
      assert toRemove - todo == toRemove;
    }

    /** The user's new set is stored, and `total` follows with what changed. */
    method Record(nick: string, id: string, rs: set<string>)
      requires Valid()
      modifies this`reactions
      ensures reactions == old(reactions)[id := Written(old(RecordOf(reactions, id)), nick, rs)]
    {
      hide AllConsistent, Joined, Parted;
      ghost var m := RecordOf(reactions, id);
      MineListed(reactions, nick, id, rs);
      var toAdd, toRemove := rs, {};
      if id in reactions {
        if nick in reactions[id].perUser {
          toAdd := rs - reactions[id].perUser[nick];
          toRemove := reactions[id].perUser[nick] - rs;
        }
      } else {
        reactions := reactions[id := NO_REACTIONS];
      }
      assert toAdd == rs - Given(m.perUser, nick) && toRemove == Given(m.perUser, nick) - rs;
      reactions := reactions[id := reactions[id].(perUser := reactions[id].perUser[nick := rs])];
      assert reactions == old(reactions)[id := Reactions(m.total, m.perUser[nick := rs])];
      Join(id, nick, toAdd);
      Part(id, nick, toRemove);
    }

    /** Takes in what a user now gives to a message; what is to be shown for the message comes back. */
    method UpdateReactions(nick: string, id: string, rs: set<string>) returns (shown: map<string, seq<string>>)
      requires Valid()
      modifies this`reactions
      ensures Valid() && reactions == Updated(old(reactions), nick, id, rs)
      ensures forall r :: r in shown <==> exists n :: r in GivenTo(reactions, id, n)
      ensures forall r, n :: r in shown ==> (n in shown[r] <==> r in GivenTo(reactions, id, n))
      ensures shown == RecordOf(reactions, id).total
      ensures forall i, n ::
                GivenTo(reactions, i, n) == if i == id && n == nick then rs else old(GivenTo(reactions, i, n))
      ensures forall r :: var before := old(Nicks(RecordOf(reactions, id).total, r));
                Nicks(shown, r) == if r !in rs then Without(before, nick)
                                   else if nick in before then before else before + [nick]
    {
      hide AllConsistent, Updated, Joined, Parted;
      UpdatedFrom(reactions, nick, id, rs);
      Record(nick, id, rs);
      shown := reactions[id].total;
      if shown == map[] {
        reactions := reactions - {id};
      } else if reactions[id].perUser[nick] == {} {
        reactions := reactions[id := reactions[id].(perUser := reactions[id].perUser - {nick})];
      }
      UpdatedGives(old(reactions), nick, id, rs);
      Shown(reactions, id);
      forall r
        ensures var before := old(Nicks(RecordOf(reactions, id).total, r));
                Nicks(shown, r) == if r !in rs then Without(before, nick)
                                   else if nick in before then before else before + [nick]
      {
        UpdatedNicks(old(reactions), nick, id, rs, r);
      }
    }

    lemma MineListed(before: map<string, Reactions>, nick: string, id: string, rs: set<string>)
      requires AllConsistent(before)
      ensures var m := RecordOf(before, id);
              forall s: set<string> :: Given(m.perUser, nick) - rs <= Joined(m.total, nick, s).Keys
    {
      var m := RecordOf(before, id);
      forall r | r in Given(m.perUser, nick)
        ensures r in m.total
      {
        assert Consistent(m);
        assert nick in Nicks(m.total, r);
      }
    }

    /** The record before what is empty has been cleared away. */
    function Written(m: Reactions, nick: string, rs: set<string>): Reactions {
      var mine := Given(m.perUser, nick);
      Reactions(Parted(Joined(m.total, nick, rs - mine), nick, mine - rs), m.perUser[nick := rs])
    }

    lemma UpdatedFrom(before: map<string, Reactions>, nick: string, id: string, rs: set<string>)
      ensures var m := Written(RecordOf(before, id), nick, rs);
              var mid := before[id := m];
              Updated(before, nick, id, rs) ==
              if m.total == map[] then mid - {id}
              else if rs == {} then mid[id := m.(perUser := m.perUser - {nick})] else mid
      ensures Updated(before, nick, id, rs) == before - {id} ==>
                RecordOf(Updated(before, nick, id, rs), id).total == map[]
      ensures Written(RecordOf(before, id), nick, rs).total == RecordOf(Updated(before, nick, id, rs), id).total
    {
      var perUser := RecordOf(before, id).perUser;
      assert perUser[nick := rs] - {nick} == perUser - {nick};
    }

    lemma Shown(reactions: map<string, Reactions>, id: string)
      requires AllConsistent(reactions)
      ensures var total := RecordOf(reactions, id).total;
              && (forall r :: r in total <==> exists n :: r in GivenTo(reactions, id, n))
              && (forall r, n :: r in total ==> (n in total[r] <==> r in GivenTo(reactions, id, n)))
    {
      var m := RecordOf(reactions, id);
      assert Consistent(m);
      forall r
        ensures r in m.total <==> exists n :: r in GivenTo(reactions, id, n)
        ensures r in m.total ==> forall n :: n in m.total[r] <==> r in GivenTo(reactions, id, n)
      {
        assert forall n :: n in Nicks(m.total, r) <==> r in GivenTo(reactions, id, n);
        if r in m.total {
          assert m.total[r][0] in Nicks(m.total, r);
          assert r in GivenTo(reactions, id, m.total[r][0]);
        }
        if n :| r in GivenTo(reactions, id, n) {
          assert n in Nicks(m.total, r);
        }
      }
    }

    /** What to send when the user clicks a reaction. */
    function OnReactionSwitched(nick: string, id: string, r: string): (rs: set<string>)
      reads this`reactions
      ensures rs == Switched(GivenTo(reactions, id, nick), r)
      ensures forall x :: x in rs <==>
                var given := id in reactions && nick in reactions[id].perUser && x in reactions[id].perUser[nick];
                if x == r then !given else given
    {
      if id !in reactions then {r}
      else if nick !in reactions[id].perUser then {r}
      else if r in reactions[id].perUser[nick] then reactions[id].perUser[nick] - {r}
      else reactions[id].perUser[nick] + {r}
    }

    /** In a room the change is shown once the room sends it back, elsewhere at once. */
    method OutgoingReaction(id: string, r: string)
      requires Valid()
      modifies this
      ensures Valid()
      ensures reactions == if isMuc then old(reactions) else Toggled(old(reactions), "l", id, r)
      ensures sent == old(sent) + [(id, Switched(GivenTo(old(reactions), id, if isMuc then localNick else "l"), r))]
    {
      var nick := if isMuc then localNick else "l";
      var rs := OnReactionSwitched(nick, id, r);
      sent := sent + [(id, rs)];
      if !isMuc {
        var _ := UpdateReactions(nick, id, rs);
      }
    }
  }
}
