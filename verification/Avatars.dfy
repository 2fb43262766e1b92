/**
 * The avatar cache: images kept once each, with the list of their users, and for every JID up to
 * three icons (published or generated avatar, photo, manually set picture) pointing at them.
 */
module Avatars {
  import opened Options
  import opened Sequences

  type Bytes = string
  type Hash = string

  datatype IconType = NoneType | AvatarType | VCardType | AvatarFromVCardType | CustomType

  datatype OpResult = NoData | NotChanged | Changed | UserUpdateRequired

  /** One entry of an image's list of users. */
  datatype User = User(kind: IconType, jid: string)

  // ---- How users are written in the metadata ------------------------------------------------

  function TypedJid(u: User): string {
    match u.kind
    case NoneType => ""
    case AvatarType => "a:" + u.jid
    case VCardType => "v:" + u.jid
    case AvatarFromVCardType => "av:" + u.jid
    case CustomType => "ca:" + u.jid
  }

  function ExtractIconType(s: string): IconType {
    if "a:" <= s then AvatarType
    else if "v:" <= s then VCardType
    else if "av:" <= s then AvatarFromVCardType
    else if "ca:" <= s then CustomType
    else NoneType
  }

  /** Everything after the first colon. */
  function ExtractIconJid(s: string): string {
    if s == "" then "" else if s[0] == ':' then s[1..] else ExtractIconJid(s[1..])
  }

  /** What is written for a user is read back, whatever colons the JID has; so entries never collide. */
  lemma TypedJidRoundTrip(u: User)
    requires u.kind != NoneType
    ensures ExtractIconType(TypedJid(u)) == u.kind
    ensures ExtractIconJid(TypedJid(u)) == u.jid
    ensures "a:" <= TypedJid(u) <==> u.kind == AvatarType
    ensures "v:" <= TypedJid(u) <==> u.kind == VCardType
    ensures "av:" <= TypedJid(u) <==> u.kind == AvatarFromVCardType
    ensures "ca:" <= TypedJid(u) <==> u.kind == CustomType
  {
    var s := TypedJid(u);
    assert s[0] in "avc" && s[1] in ":va";
    if u.kind == AvatarType || u.kind == VCardType {
      assert s[..2] == [s[0], ':'] && s[1..] == ":" + u.jid;
      assert ExtractIconJid(s) == ExtractIconJid(s[1..]) == s[1..][1..] == u.jid;
    } else {
      assert s[..3] == [s[0], s[1], ':'] && s[1..][1..] == ":" + u.jid;
      assert ExtractIconJid(s) == ExtractIconJid(s[1..]) == ExtractIconJid(s[1..][1..]) == s[1..][1..][1..] == u.jid;
    }
  }

  // ---- The icons of one JID -----------------------------------------------------------------

  class FileCacheItem {
    const hash: Hash
    const data: Bytes
    var jids: seq<User>

    constructor (hash: Hash, data: Bytes, jids: seq<User>)
      ensures this.hash == hash && this.data == data && this.jids == jids
    {
      this.hash, this.data, this.jids := hash, data, jids;
    }
  }

  datatype JidIcons = JidIcons(vcard: FileCacheItem?, avatar: FileCacheItem?, customAvatar: FileCacheItem?,
                               avatarFromVCard: bool)

  const NO_ICONS := JidIcons(null, null, null, false)

  function Active(icons: JidIcons): FileCacheItem? {
    if icons.customAvatar != null then icons.customAvatar else icons.avatar
  }

  predicate Empty(icons: JidIcons) {
    icons.avatar == null && icons.vcard == null && icons.customAvatar == null
  }

  predicate CanAdd(icons: JidIcons, t: IconType) {
    match t
    case VCardType => true
    case AvatarType => true
    case CustomType => true
    case AvatarFromVCardType => icons.avatarFromVCard || icons.avatar == null
    case NoneType => false
  }

  predicate CanDel(icons: JidIcons, t: IconType) {
    match t
    case VCardType => true
    case CustomType => true
    case AvatarType => !icons.avatarFromVCard
    case AvatarFromVCardType => icons.avatarFromVCard
    case NoneType => false
  }

  function Slot(icons: JidIcons, t: IconType): FileCacheItem? {
    match t
    case VCardType => icons.vcard
    case CustomType => icons.customAvatar
    case AvatarType => icons.avatar
    case AvatarFromVCardType => icons.avatar
    case NoneType => null
  }

  function WithItem(icons: JidIcons, item: FileCacheItem?, t: IconType): JidIcons {
    match t
    case VCardType => icons.(vcard := item)
    case CustomType => icons.(customAvatar := item)
    case AvatarType => if icons.avatar == item then icons else icons.(avatar := item, avatarFromVCard := false)
    case AvatarFromVCardType =>
      if icons.avatar == item then icons else icons.(avatar := item, avatarFromVCard := item != null)
    case NoneType => icons
  }

  /** A generated avatar does not outlive the photo it was made from. */
  function WithoutGenerated(icons: JidIcons, t: IconType): JidIcons {
    if icons.avatarFromVCard && t == VCardType then icons.(avatar := null) else icons
  }

  predicate NeedsAvatar(icons: JidIcons) {
    Active(icons) == null && icons.vcard != null
  }

  /** The entry under which an image lists the avatar slot of `jid`. */
  function AvatarUser(icons: JidIcons, jid: string): User {
    User(if icons.avatarFromVCard then AvatarFromVCardType else AvatarType, jid)
  }

  /** What removing a user leaves: a photo takes its generated avatar along. */
  function Remaining(jids: seq<User>, t: IconType, jid: string): (r: seq<User>)
    ensures forall u :: u in jids && u !in LostTo(t, jid) ==> u in r
    ensures forall u :: u in r ==> u in jids
  {
    var r := Without(jids, User(t, jid));
    if t == VCardType then Without(r, User(AvatarFromVCardType, jid)) else r
  }

  /** The icons without the one of slot `t`; a photo takes its generated avatar along. */
  function Cleared(icons: JidIcons, t: IconType): JidIcons {
    WithoutMade(WithItem(icons, null, t), t)
  }

  function WithoutMade(icons: JidIcons, t: IconType): JidIcons {
    if t == VCardType && icons.avatarFromVCard then WithItem(icons, null, AvatarFromVCardType) else icons
  }

  lemma WithoutCounts(jids: seq<User>, x: User, u: User)
    ensures multiset(Without(jids, x))[u] == multiset(jids)[u] - if u == x && x in jids then 1 else 0
    ensures u != x ==> (u in Without(jids, x) <==> u in jids)
  {
    hide Without;
    WithoutMultiset(jids, x);
  }

  /** One entry of the user goes and, with a photo, one of the avatar made from it; all others stay. */
  lemma RemainingCounts(jids: seq<User>, t: IconType, jid: string, u: User)
    ensures multiset(Remaining(jids, t, jid))[u] ==
            multiset(jids)[u] - if u in LostTo(t, jid) && u in jids then 1 else 0
  {
    hide Without;
    WithoutCounts(jids, User(t, jid), u);
    WithoutCounts(Without(jids, User(t, jid)), User(AvatarFromVCardType, jid), u);
  }

  lemma NothingMade(icons: JidIcons)
    ensures WithoutMade(icons, AvatarFromVCardType) == icons
  {
  }

  /** The entries that can go when slot `t` of `jid` changes hands. */
  ghost function LostTo(t: IconType, jid: string): set<User> {
    {User(t, jid)} + if t == VCardType then {User(AvatarFromVCardType, jid)} else {}
  }

  /** The image that lists `jid` under kind `k` because of one of its icons. */
  function Holder(icons: JidIcons, k: IconType): FileCacheItem? {
    match k
    case VCardType => icons.vcard
    case CustomType => icons.customAvatar
    case AvatarType => if icons.avatarFromVCard then null else icons.avatar
    case AvatarFromVCardType => null
    case NoneType => null
  }

  function Lookup(icons: map<string, JidIcons>, jid: string): JidIcons {
    if jid in icons then icons[jid] else NO_ICONS
  }

  /**
   * Bookkeeping: the entry `leaver` that an image pushed out of its slot is about to lose, and
   * whether published avatars, too, are known to be listed exactly by the images in the slots.
   */
  datatype Ledger = Ledger(tidy: bool, leaving: FileCacheItem?, leaver: User)

  const NOBODY := User(NoneType, "")

  /** The ledger while the image pushed out of slot `t` of `jid` still lists it. */
  function Pending(ledger: Ledger, prev: FileCacheItem?, t: IconType, jid: string): Ledger {
    if t == AvatarFromVCardType then ledger else Ledger(ledger.tidy, prev, User(t, jid))
  }

  /** The ledger once that image has lost the entry. */
  function Done(ledger: Ledger, t: IconType): Ledger {
    if t == AvatarFromVCardType then ledger else Ledger(ledger.tidy, null, NOBODY)
  }

  /** An image with users `jids` lists `u` once if `u` has it in the slot, and otherwise not, unless `u` is leaving. */
  ghost predicate Fits(i: FileCacheItem, jids: seq<User>, ledger: Ledger, u: User, holder: FileCacheItem?) {
    if i == ledger.leaving && u == ledger.leaver then multiset(jids)[u] <= 1
    else multiset(jids)[u] == if holder == i then 1 else 0
  }

  /** Appending the entry of slot `t` keeps the lists exact, but for the entry that now has to leave. */
  lemma JoinedFits(i: FileCacheItem, jids: seq<User>, ledger: Ledger, k: IconType,
                   item: FileCacheItem, t: IconType, jid: string, icons: JidIcons)
    requires Fits(i, jids, ledger, User(k, jid), Holder(icons, k)) && k in {VCardType, CustomType, AvatarType}
    requires CanAdd(icons, t) && Slot(icons, t) != item && Done(ledger, t) == ledger
    ensures Fits(i, if i == item then jids + [User(t, jid)] else jids, Pending(ledger, Slot(icons, t), t, jid),
                 User(k, jid), Holder(WithItem(icons, item, t), k))
  {
  }

  lemma JoinedOther(i: FileCacheItem, jids: seq<User>, ledger: Ledger, u: User, holder: FileCacheItem?,
                    item: FileCacheItem, t: IconType, jid: string, icons: JidIcons)
    requires Fits(i, jids, ledger, u, holder) && u.jid != jid && Done(ledger, t) == ledger && u.kind != NoneType
    ensures Fits(i, if i == item then jids + [User(t, jid)] else jids, Pending(ledger, Slot(icons, t), t, jid),
                 u, holder)
  {
  }

  lemma FirstFits(item: FileCacheItem, k: IconType, j: string, ledger: Ledger, t: IconType, jid: string,
                  icons: JidIcons)
    requires ledger.leaving != item && k in {VCardType, CustomType, AvatarType}
    requires item !in {icons.vcard, icons.avatar, icons.customAvatar} && (j == jid ==> CanAdd(icons, t))
    ensures Fits(item, [User(t, jid)], ledger, User(k, j),
                 Holder(if j == jid then WithItem(icons, item, t) else icons, k))
  {
  }

  /** Once the image pushed out has lost its entry, the lists are exact again. */
  lemma DroppedFits(i: FileCacheItem, jids: seq<User>, ledger: Ledger, u: User, holder: FileCacheItem?,
                    prev: FileCacheItem, t: IconType, jid: string)
    requires Fits(i, jids, ledger, u, holder) && u.kind != AvatarFromVCardType
    requires ledger == Pending(ledger, prev, t, jid) && (u == User(t, jid) ==> holder != prev)
    ensures Fits(i, if i == prev then Remaining(jids, t, jid) else jids, Done(ledger, t), u, holder)
  {
    RemainingCounts(jids, t, jid, u);
  }

  // ---- What the removal of an image does to the slots ------------------------------------------

  /** The icons once a user of a removed image has been seen to. */
  function PurgedOf(icons: map<string, JidIcons>, u: User): map<string, JidIcons> {
    if u.jid !in icons then icons
    else
      var left := WithItem(icons[u.jid], null, u.kind);
      if Empty(left) then icons - {u.jid} else icons[u.jid := left]
  }

  function Purged(icons: map<string, JidIcons>, users: seq<User>): map<string, JidIcons> {
    if users == [] then icons else PurgedOf(Purged(icons, users[..|users| - 1]), users[|users| - 1])
  }

  predicate ListsAvatar(users: seq<User>, jid: string) {
    User(AvatarType, jid) in users || User(AvatarFromVCardType, jid) in users
  }

  lemma PurgedOfSlots(icons: map<string, JidIcons>, u: User, jid: string)
    ensures var before, after := Lookup(icons, jid), Lookup(PurgedOf(icons, u), jid);
            && after.vcard == (if User(VCardType, jid) == u then null else before.vcard)
            && after.customAvatar == (if User(CustomType, jid) == u then null else before.customAvatar)
            && after.avatar == (if ListsAvatar([u], jid) then null else before.avatar)
            && (after.avatar != null ==> after.avatarFromVCard == before.avatarFromVCard)
    ensures jid in PurgedOf(icons, u) <==> jid in icons && (u.jid != jid || !Empty(Lookup(PurgedOf(icons, u), jid)))
  {
  }

  /** In one go: every listed slot is emptied, and a JID that was listed and has nothing left is forgotten. */
  lemma {:induction false} PurgedSlots(icons: map<string, JidIcons>, users: seq<User>, jid: string)
    ensures var before, after := Lookup(icons, jid), Lookup(Purged(icons, users), jid);
            && after.vcard == (if User(VCardType, jid) in users then null else before.vcard)
            && after.customAvatar == (if User(CustomType, jid) in users then null else before.customAvatar)
            && after.avatar == (if ListsAvatar(users, jid) then null else before.avatar)
            && (after.avatar != null ==> after.avatarFromVCard == before.avatarFromVCard)
    ensures jid in Purged(icons, users) <==>
              jid in icons && ((forall u :: u in users ==> u.jid != jid) || !Empty(Lookup(Purged(icons, users), jid)))
  {
    hide PurgedOf;
    if users != [] {
      var rest, last := users[..|users| - 1], users[|users| - 1];
      PurgedSlots(icons, rest, jid);
      PurgedOfSlots(Purged(icons, rest), last, jid);
      assert users == rest + [last];
      assert forall u :: u in users <==> u in rest || u == last;
    }
  }

  /** Every user of the image has it in the slot, or nothing. */
  predicate Current(item: FileCacheItem, icons: map<string, JidIcons>, users: seq<User>) {
    forall u :: u in users ==> Slot(Lookup(icons, u.jid), u.kind) in {null, item}
  }

  /** Removing an image spares all slots with other images exactly if all its entries are current. */
  lemma OnlyOwnSlots(item: FileCacheItem, icons: map<string, JidIcons>, users: seq<User>)
    ensures Current(item, icons, users) <==>
            forall j, t :: Slot(Lookup(Purged(icons, users), j), t) != Slot(Lookup(icons, j), t) ==>
                             Slot(Lookup(icons, j), t) == item
  {
    forall j
      ensures var before, after := Lookup(icons, j), Lookup(Purged(icons, users), j);
              && after.vcard == (if User(VCardType, j) in users then null else before.vcard)
              && after.customAvatar == (if User(CustomType, j) in users then null else before.customAvatar)
              && after.avatar == (if ListsAvatar(users, j) then null else before.avatar)
    {
      PurgedSlots(icons, users, j);
    }
    if u :| u in users && Slot(Lookup(icons, u.jid), u.kind) !in {null, item} {
      assert Slot(Lookup(Purged(icons, users), u.jid), u.kind) == null;
    }
  }

  /** A slot that was empty costs nothing. */
  ghost function Lost(icons: JidIcons, t: IconType, jid: string): set<User> {
    if Slot(icons, t) == null then {} else LostTo(t, jid)
  }

  class AvatarCache {
    /** Whether data looks like an image, an image made small (if it can be read), and the hash of data. */
    const known: Bytes -> bool
    const scale: Bytes -> Option<Bytes>
    const sha1: Bytes -> Hash

    var items: map<Hash, FileCacheItem>
    var jidToIcons: map<string, JidIcons>
    ghost var ledger: Ledger

    ghost predicate Backed(icons: JidIcons, jid: string)
      reads this`items, items.Values
    {
      && (icons.vcard != null ==> Lists(icons.vcard, User(VCardType, jid)))
      && (icons.customAvatar != null ==> Lists(icons.customAvatar, User(CustomType, jid)))
      && (icons.avatar != null ==>
            Lists(icons.avatar, AvatarUser(icons, jid)))
    }

    ghost predicate Lists(item: FileCacheItem, u: User)
      reads this`items, items.Values
    {
      item in items.Values && u in item.jids
    }

    function IconsOf(jid: string): JidIcons
      reads this`jidToIcons
    {
      Lookup(jidToIcons, jid)
    }

    constructor (known: Bytes -> bool, scale: Bytes -> Option<Bytes>, sha1: Bytes -> Hash)
      ensures Valid() && items == map[] && jidToIcons == map[] && ledger == Ledger(true, null, NOBODY)
      ensures this.known == known && this.scale == scale && this.sha1 == sha1
    {
      this.known, this.scale, this.sha1 := known, scale, sha1;
      items, jidToIcons := map[], map[];
      ledger := Ledger(true, null, NOBODY);
    }

    /** Only entries in `lost` have gone from the lists of users. */
    twostate predicate Kept(lost: set<User>)
      reads this`items, items.Values
    {
      forall i, u {:trigger u in i.jids} {:trigger u in old(i.jids)} ::
        i in old(items.Values) && u in old(i.jids) && u !in lost ==> i in items.Values && u in i.jids
    }

    /** The other JIDs have the icons they had. */
    twostate predicate OthersKept(jid: string)
      reads this`jidToIcons
    {
      jidToIcons - {jid} == old(jidToIcons) - {jid}
    }

    /** What a JID is left with after `icons` when it may have to make do with its photo. */
    ghost predicate Regenerated(icons: JidIcons, after: JidIcons) {
      if NeedsAvatar(icons) && known(icons.vcard.data) && scale(icons.vcard.data).Some? then
        && after == icons.(avatar := after.avatar, avatarFromVCard := true)
        && after.avatar != null
        && after.avatar.hash == sha1(scale(icons.vcard.data).value)
      else
        after == icons
    }

    /** In the avatar slot: what can be made of the photo, if there is one. */
    ghost predicate MadeFrom(vcard: FileCacheItem?, after: JidIcons) {
      if vcard != null && known(vcard.data) && scale(vcard.data).Some? then
        after.avatar != null && after.avatarFromVCard && after.avatar.hash == sha1(scale(vcard.data).value)
      else
        after.avatar == null
    }

    /** Slot by slot, what a JID has once `item` has been put in. */
    ghost predicate SlotsAfter(before: JidIcons, t: IconType, item: FileCacheItem, after: JidIcons) {
      match t
      case CustomType => after == JidIcons(before.vcard, before.avatar, item, before.avatarFromVCard)
      case AvatarType => after == JidIcons(before.vcard, item, before.customAvatar, false)
      case AvatarFromVCardType => after == JidIcons(before.vcard, item, before.customAvatar, true)
      case VCardType =>
        && after.vcard == item && after.customAvatar == before.customAvatar
        && (if before.avatar != null && !before.avatarFromVCard then
              after.avatar == before.avatar && !after.avatarFromVCard
            else if before.customAvatar != null then after.avatar == null
            else MadeFrom(item, after))
      case NoneType => after == before
    }

    /** Slot by slot, what a JID has once a slot has been emptied. */
    ghost predicate SlotsLeft(before: JidIcons, t: IconType, after: JidIcons) {
      match t
      case CustomType =>
        && after.vcard == before.vcard && after.customAvatar == null
        && (if before.avatar == null then MadeFrom(before.vcard, after)
            else after.avatar == before.avatar && after.avatarFromVCard == before.avatarFromVCard)
      case AvatarType =>
        && after.vcard == before.vcard && after.customAvatar == before.customAvatar
        && (if before.customAvatar == null then MadeFrom(before.vcard, after) else after.avatar == null)
      case AvatarFromVCardType =>
        after.vcard == before.vcard && after.customAvatar == before.customAvatar && after.avatar == null
      case VCardType =>
        && after.vcard == null && after.customAvatar == before.customAvatar
        && (if before.avatar != null && !before.avatarFromVCard then
              after.avatar == before.avatar && !after.avatarFromVCard
            else after.avatar == null)
      case NoneType => after == before
    }

    /** The steps of putting an image in come to what the slots are to hold, and to who is to be told. */
    lemma SlotsPut(before: JidIcons, item: FileCacheItem, t: IconType, after: JidIcons)
      requires Regenerated(WithoutGenerated(WithItem(before, item, t), t), after)
      requires CanAdd(before, t) && Slot(before, t) != item
      ensures SlotsAfter(before, t, item, after)
      ensures Active(after) != Active(before) <==>
              if t == CustomType then before.customAvatar != null || before.avatar != item
              else before.customAvatar == null && after.avatar != before.avatar
    {
    }

    lemma SlotsEmptied(before: JidIcons, t: IconType, after: JidIcons)
      requires CanDel(before, t) && Slot(before, t) != null
      requires var left := Cleared(before, t);
               || (after == NO_ICONS && Empty(left))
               || (if t == AvatarFromVCardType then after == left else Regenerated(left, after))
      ensures SlotsLeft(before, t, after)
      ensures Active(after) != Active(before) <==>
              if t == CustomType then before.customAvatar != after.avatar
              else before.customAvatar == null && after.avatar != before.avatar
    {
    }

    /** Images are filed under their own hash and have a user. */
    ghost predicate Filed()
      reads this`items, items.Values
    {
      forall h :: h in items ==> items[h].hash == h && items[h].jids != []
    }

    ghost predicate AllBacked(icons: map<string, JidIcons>)
      reads this`items, items.Values
    {
      forall j :: j in icons ==> Backed(icons[j], j)
    }

    /** Under kind `k` an image lists exactly the JIDs that have it in that slot, once each. */
    ghost predicate Tallied(k: IconType, icons: map<string, JidIcons>)
      reads this`items, this`ledger, items.Values
    {
      forall i, j :: i in items.Values ==> Fits(i, i.jids, ledger, User(k, j), Holder(Lookup(icons, j), k))
    }


    ghost predicate AllTallied(icons: map<string, JidIcons>)
      reads this`items, this`ledger, items.Values
    {
      Tallied(VCardType, icons) && Tallied(CustomType, icons) && (ledger.tidy ==> Tallied(AvatarType, icons))
    }

    ghost predicate Sound(icons: map<string, JidIcons>)
      reads this`items, this`ledger, items.Values
    {
      AllBacked(icons) && AllTallied(icons)
    }

    /** The image loses a user, and is dropped with its last one. */
    method RemoveUser(item: FileCacheItem, t: IconType, jid: string)
      requires Filed() && item in items.Values
      modifies this`items, item`jids
      ensures items == if Remaining(old(item.jids), t, jid) == [] then old(items) - {item.hash} else old(items)
      ensures item in items.Values ==> item.jids == Remaining(old(item.jids), t, jid)
      ensures forall i :: i in old(items.Values) && i != item ==> i in items.Values && i.jids == old(i.jids)
      ensures Filed() && Kept(LostTo(t, jid))
    {
      hide Remaining, LostTo;
      var jids := Remaining(item.jids, t, jid);
      if jids == [] {
        items := items - {item.hash};
      } else {
        item.jids := jids;
      }
      assert forall i :: i in old(items.Values) && i != item ==> i.hash in items && items[i.hash] == i;
      assert jids != [] ==> items[item.hash] == item;
    }

    ghost predicate Valid()
      reads this, items.Values
    {
      Filed() && Sound(jidToIcons)
    }

    /** `prev` has just been pushed out of slot `t` of `jid`, and still lists it. */
    ghost predicate Swapped(prev: FileCacheItem?, t: IconType, jid: string)
      reads this, items.Values
    {
      && Valid() && jid in jidToIcons && t != NoneType
      && Slot(jidToIcons[jid], t) != prev
      && (prev != null ==> prev in items.Values)
      && ledger == Pending(ledger, prev, t, jid)
    }

    twostate lemma KeptLists(item: FileCacheItem, new u: User, new lost: set<User>)
      requires old(Lists(item, u)) && Kept(lost) && u !in lost
      ensures Lists(item, u)
    {
    }

    twostate lemma KeptBacked(icons: JidIcons, new j: string, new lost: set<User>)
      requires old(Backed(icons, j)) && Kept(lost) && forall u :: u in lost ==> u.jid != j
      ensures Backed(icons, j)
    {
      if icons.vcard != null {
        KeptLists(icons.vcard, User(VCardType, j), lost);
      }
      if icons.customAvatar != null {
        KeptLists(icons.customAvatar, User(CustomType, j), lost);
      }
      if icons.avatar != null {
        KeptLists(icons.avatar, AvatarUser(icons, j), lost);
      }
    }

    twostate lemma DroppedBacked(prev: FileCacheItem, new t: IconType, new jid: string)
      requires old(Swapped(prev, t, jid)) && Kept(LostTo(t, jid))
      requires jidToIcons == old(jidToIcons)
      requires forall i :: i in old(items.Values) && i != prev ==> i in items.Values && i.jids == old(i.jids)
      ensures AllBacked(jidToIcons[jid := WithoutGenerated(jidToIcons[jid], t)])
    {
      var icons, lost := jidToIcons[jid], LostTo(t, jid);
      assert old(Backed(icons, jid));
      if icons.vcard != null && t != VCardType {
        KeptLists(icons.vcard, User(VCardType, jid), lost);
      }
      if icons.customAvatar != null && t != CustomType {
        KeptLists(icons.customAvatar, User(CustomType, jid), lost);
      }
      if icons.avatar != null && (t == CustomType || (t == VCardType && !icons.avatarFromVCard)) {
        KeptLists(icons.avatar, AvatarUser(icons, jid), lost);
      }
      assert Backed(WithoutGenerated(icons, t), jid);
      forall j | j in jidToIcons && j != jid
        ensures Backed(jidToIcons[j], j)
      {
        assert old(Backed(jidToIcons[j], j));
        KeptBacked(jidToIcons[j], j, lost);
      }
    }

    lemma ClearedBacked(t: IconType, jid: string)
      requires Swapped(null, t, jid)
      ensures AllBacked(jidToIcons[jid := WithoutGenerated(jidToIcons[jid], t)])
    {
    }

    /** What the map's own `[]` does: a JID not yet in it gets an entry without icons. */
    method Entry(jid: string)
      requires Valid()
      modifies this`jidToIcons
      ensures Valid() && jid in jidToIcons && jidToIcons == old(jidToIcons)[jid := old(IconsOf(jid))]
      ensures IconsOf(jid) == jidToIcons[jid] == old(IconsOf(jid))
      ensures Kept({}) && OthersKept(jid)
    {
      hide AllTallied;
      jidToIcons := jidToIcons[jid := IconsOf(jid)];
      SameTallied();
    }

    twostate lemma SameTallied()
      requires old(AllTallied(jidToIcons)) && items == old(items) && ledger == old(ledger)
      requires forall i :: i in items.Values ==> i.jids == old(i.jids)
      requires forall j, k :: Holder(IconsOf(j), k) == old(Holder(IconsOf(j), k))
      ensures AllTallied(jidToIcons)
    {
      forall k | k in {VCardType, CustomType, AvatarType} && old(Tallied(k, jidToIcons))
        ensures Tallied(k, jidToIcons)
      {
        forall i, j | i in items.Values
          ensures Fits(i, i.jids, ledger, User(k, j), Holder(IconsOf(j), k))
        {
          assert old(Fits(i, i.jids, ledger, User(k, j), Holder(IconsOf(j), k)));
        }
      }
    }

    /** What the code does through its reference to the icons of `jid`. */
    method Rewrite(jid: string, icons: JidIcons)
      requires Filed() && Sound(jidToIcons[jid := icons])
      modifies this`jidToIcons
      ensures Valid() && jidToIcons == old(jidToIcons)[jid := icons]
      ensures Kept({}) && OthersKept(jid)
    {
      jidToIcons := jidToIcons[jid := icons];
    }

    lemma SlotCached(t: IconType, jid: string)
      requires Valid() && Slot(IconsOf(jid), t) != null
      ensures Slot(IconsOf(jid), t) in items.Values
    {
      assert Backed(IconsOf(jid), jid);
    }

    lemma AvatarListed(jid: string)
      requires Valid() && IconsOf(jid).avatar != null
      ensures Lists(IconsOf(jid).avatar, AvatarUser(IconsOf(jid), jid))
    {
      assert Backed(IconsOf(jid), jid);
    }

    lemma FiledUnderOwn(item: FileCacheItem)
      requires Filed() && item in items.Values
      ensures item.hash in items && items[item.hash] == item
    {
    }

    lemma FiledUnder(hash: Hash)
      requires Filed()
      ensures hash in items ==> items[hash].hash == hash
    {
    }

    lemma SlotStays(icons: JidIcons, item: FileCacheItem, t: IconType, after: JidIcons)
      requires t != NoneType && Regenerated(WithoutGenerated(WithItem(icons, item, t), t), after)
      ensures Slot(after, t) == item
    {
    }

    /** With an avatar published there is nothing to make. */
    lemma Showing(icons: JidIcons, item: FileCacheItem, after: JidIcons)
      requires Regenerated(WithoutGenerated(WithItem(icons, item, AvatarType), AvatarType), after)
      requires icons.avatar != item
      ensures after == icons.(avatar := item, avatarFromVCard := false)
    {
    }

    method DropPrevious(prev: FileCacheItem?, t: IconType, jid: string)
      requires Swapped(prev, t, jid)
      modifies this`items, this`ledger, items.Values
      ensures Filed() && Sound(jidToIcons[jid := WithoutGenerated(jidToIcons[jid], t)])
      ensures items.Values <= old(items.Values) && Kept(if prev == null then {} else LostTo(t, jid))
      ensures ledger == Done(old(ledger), t)
    {
      hide Filed, AllBacked, AllTallied, Remaining, LostTo;
      if prev != null {
        RemoveUser(prev, t, jid);
        ledger := Done(ledger, t);
        DroppedBacked(prev, t, jid);
        DroppedTallied(prev, t, jid);
      } else {
        ClearedBacked(t, jid);
        ledger := Done(ledger, t);
        ReleasedTallied(t, jid);
      }
      GeneratedTallied(t, jid);
    }

    /** The image has lost the entry that was leaving: the lists are exact again. */
    twostate lemma DroppedTallied(prev: FileCacheItem, new t: IconType, new jid: string)
      requires old(AllTallied(jidToIcons)) && jidToIcons == old(jidToIcons)
      requires old(ledger) == Pending(old(ledger), prev, t, jid) && ledger == Done(old(ledger), t)
      requires Holder(IconsOf(jid), t) != prev
      requires forall i :: i in items.Values ==> i in old(items.Values)
      requires forall i :: i in items.Values ==>
                 i.jids == if i == prev then Remaining(old(i.jids), t, jid) else old(i.jids)
      ensures AllTallied(jidToIcons)
    {
      hide Fits, Holder, Remaining;
      forall k | k in {VCardType, CustomType, AvatarType} && old(Tallied(k, jidToIcons))
        ensures Tallied(k, jidToIcons)
      {
        forall i, j | i in items.Values
          ensures Fits(i, i.jids, ledger, User(k, j), Holder(IconsOf(j), k))
        {
          assert old(Fits(i, i.jids, ledger, User(k, j), Holder(IconsOf(j), k)));
          DroppedFits(i, old(i.jids), old(ledger), User(k, j), Holder(IconsOf(j), k), prev, t, jid);
        }
      }
    }

    /** Nothing was pushed out. */
    twostate lemma ReleasedTallied(new t: IconType, new jid: string)
      requires old(AllTallied(jidToIcons)) && jidToIcons == old(jidToIcons) && items == old(items)
      requires old(ledger) == Pending(old(ledger), null, t, jid) && ledger == Done(old(ledger), t)
      requires forall i :: i in items.Values ==> i.jids == old(i.jids)
      ensures AllTallied(jidToIcons)
    {
      forall k | k in {VCardType, CustomType, AvatarType} && old(Tallied(k, jidToIcons))
        ensures Tallied(k, jidToIcons)
      {
        forall i, j | i in items.Values
          ensures Fits(i, i.jids, ledger, User(k, j), Holder(IconsOf(j), k))
        {
          assert old(Fits(i, i.jids, ledger, User(k, j), Holder(IconsOf(j), k)));
        }
      }
    }

    /** A generated avatar is not listed under any of the exact kinds, so it can go unnoticed. */
    lemma GeneratedTallied(t: IconType, jid: string)
      requires AllTallied(jidToIcons) && jid in jidToIcons
      ensures AllTallied(jidToIcons[jid := WithoutGenerated(jidToIcons[jid], t)])
    {
      var after := jidToIcons[jid := WithoutGenerated(jidToIcons[jid], t)];
      assert forall j, k :: Holder(Lookup(after, j), k) == Holder(IconsOf(j), k);
    }

    /**
     * What follows once slot `t` of `jid` holds a new image: the image it held loses a user, a
     * generated avatar goes with its photo, and a JID with nothing to show gets an avatar made.
     */
    method AfterSwap(prev: FileCacheItem?, t: IconType, jid: string) returns (newActive: FileCacheItem?)
      requires Swapped(prev, t, jid)
      requires t == AvatarFromVCardType ==> IconsOf(jid).avatar != null
      modifies this, items.Values
      ensures Valid() && fresh(items.Values - old(items.Values))
      ensures ledger == Done(old(ledger), t)
      ensures jid in jidToIcons && OthersKept(jid)
      ensures Kept(if prev == null then {} else LostTo(t, jid))
      ensures Regenerated(WithoutGenerated(old(IconsOf(jid)), t), IconsOf(jid))
      ensures newActive == Active(IconsOf(jid))
      decreases if t == AvatarFromVCardType then 1 else 3, 0
    {
      hide Filed, AllBacked, AllTallied, Backed, Regenerated, Remaining, LostTo;
      DropPrevious(prev, t, jid);
      Rewrite(jid, WithoutGenerated(jidToIcons[jid], t));
      newActive := EnsureHasAvatar(jid);
    }

    /** The icon now active for `jid`, which may have been made from its photo. */
    method EnsureHasAvatar(jid: string) returns (item: FileCacheItem?)
      requires Valid() && jid in jidToIcons
      modifies this, items.Values
      ensures Valid() && fresh(items.Values - old(items.Values))
      ensures ledger == old(ledger)
      ensures jid in jidToIcons && OthersKept(jid)
      ensures Kept({})
      ensures Regenerated(old(IconsOf(jid)), IconsOf(jid))
      ensures item == Active(IconsOf(jid))
      decreases if NeedsAvatar(IconsOf(jid)) then 2 else 0, 0
    {
      item := Active(jidToIcons[jid]);
      if item == null && jidToIcons[jid].vcard != null {
        var _ := SetIcon(AvatarFromVCardType, jid, jidToIcons[jid].vcard.data, "");
        item := jidToIcons[jid].avatar;
      }
    }

    method AppendUser(hash: Hash, t: IconType, jid: string) returns (r: OpResult)
      requires Valid() && Settled(t)
      modifies this, items.Values
      ensures Valid() && fresh(items.Values - old(items.Values))
      ensures ledger == old(ledger)
      ensures OthersKept(jid) && Kept(Lost(old(IconsOf(jid)), t, jid))
      ensures r == NoData <==> hash !in old(items)
      ensures r == NoData ==> items == old(items) && jidToIcons == old(jidToIcons)
      ensures r != NoData ==> jid in jidToIcons
      ensures r == NotChanged <==>
                hash in old(items) &&
                (t == NoneType ||
                 (t == AvatarFromVCardType && old(IconsOf(jid)).avatar != null && !old(IconsOf(jid)).avatarFromVCard) ||
                 Slot(old(IconsOf(jid)), t) == old(items[hash]))
      ensures r == NotChanged ==> IconsOf(jid) == old(IconsOf(jid))
      ensures r == NoData || r == NotChanged ==> items == old(items) && unchanged(old(items.Values))
      ensures r == Changed || r == UserUpdateRequired ==>
                && Regenerated(WithoutGenerated(WithItem(old(IconsOf(jid)), old(items[hash]), t), t), IconsOf(jid))
                && SlotsAfter(old(IconsOf(jid)), t, old(items[hash]), IconsOf(jid))
      ensures r == UserUpdateRequired <==> Active(IconsOf(jid)) != old(Active(IconsOf(jid)))
      ensures t == CustomType && (r == Changed || r == UserUpdateRequired) ==>
                (r == Changed <==>
                   old(IconsOf(jid)).customAvatar == null && old(IconsOf(jid)).avatar == IconsOf(jid).customAvatar)
      ensures t != CustomType && old(IconsOf(jid)).customAvatar != null ==> r != UserUpdateRequired
      ensures t != CustomType && old(IconsOf(jid)).customAvatar == null ==>
                (r == UserUpdateRequired <==> IconsOf(jid).avatar != old(IconsOf(jid)).avatar)
      decreases if t == AvatarFromVCardType then 1 else 3, 1
    {
      hide Filed, AllBacked, AllTallied, Backed, Regenerated, MadeFrom, LostTo, WithItem, WithoutGenerated;
      if hash !in items {
        return NoData;
      }
      var item := items[hash];
      Entry(jid);
      if !CanAdd(jidToIcons[jid], t) {
        return NotChanged;
      }
      var oldActive := Active(jidToIcons[jid]);
      var prev := Slot(jidToIcons[jid], t);
      if prev == item {
        return NotChanged;
      }
      PutIn(item, t, jid);
      var newActive := AfterSwap(prev, t, jid);
      SlotsPut(old(IconsOf(jid)), item, t, IconsOf(jid));
      r := if oldActive == newActive then Changed else UserUpdateRequired;
    }

    /** The image takes slot `t` of `jid` and lists it. */
    method PutIn(item: FileCacheItem, t: IconType, jid: string)
      requires Valid() && jid in jidToIcons && item in items.Values
      requires CanAdd(jidToIcons[jid], t) && Slot(jidToIcons[jid], t) != item && Settled(t)
      modifies this`jidToIcons, this`ledger, item`jids
      ensures jidToIcons == old(jidToIcons)[jid := WithItem(old(jidToIcons)[jid], item, t)]
      ensures Kept({}) && OthersKept(jid) && Swapped(old(Slot(jidToIcons[jid], t)), t, jid)
      ensures ledger == Pending(old(ledger), old(Slot(jidToIcons[jid], t)), t, jid)
      ensures t == AvatarFromVCardType ==> IconsOf(jid).avatar != null
    {
      hide AllTallied;
      ledger := Pending(ledger, Slot(jidToIcons[jid], t), t, jid);
      jidToIcons := jidToIcons[jid := WithItem(jidToIcons[jid], item, t)];
      item.jids := item.jids + [User(t, jid)];
      TalliedIn(item, t, jid);
      SwappedIn(item, t, jid);
    }

    /** A new image is filed; it takes slot `t` of `jid`, its first user. */
    method PutInNew(hash: Hash, data: Bytes, t: IconType, jid: string) returns (item: FileCacheItem)
      requires Valid() && jid in jidToIcons && hash !in items
      requires CanAdd(jidToIcons[jid], t) && Settled(t)
      modifies this`jidToIcons, this`items, this`ledger
      ensures fresh(item) && item.hash == hash && item.data == data && items == old(items)[hash := item]
      ensures jidToIcons == old(jidToIcons)[jid := WithItem(old(jidToIcons)[jid], item, t)]
      ensures Kept({}) && OthersKept(jid) && Swapped(old(Slot(jidToIcons[jid], t)), t, jid)
      ensures ledger == Pending(old(ledger), old(Slot(jidToIcons[jid], t)), t, jid)
      ensures t == AvatarFromVCardType ==> IconsOf(jid).avatar != null
    {
      hide Filed, AllTallied, AllBacked;
      ledger := Pending(ledger, Slot(jidToIcons[jid], t), t, jid);
      item := new FileCacheItem(hash, data, [User(t, jid)]);
      items := items[hash := item];
      jidToIcons := jidToIcons[jid := WithItem(jidToIcons[jid], item, t)];
      NewFiled(item);
      TalliedNew(item, t, jid);
      SwappedIn(item, t, jid);
    }

    twostate lemma NewFiled(new item: FileCacheItem)
      requires old(Filed()) && item.hash !in old(items) && item.jids != [] && items == old(items)[item.hash := item]
      requires forall i :: i in old(items.Values) ==> i.jids == old(i.jids)
      ensures Filed() && Kept({}) && item in items.Values
      ensures forall i :: i in items.Values <==> i == item || i in old(items.Values)
    {
      assert items[item.hash] == item;
      assert forall i :: i in old(items.Values) ==> items[i.hash] == i;
    }

    /** No entry is leaving, or the change is to a generated avatar, which has no say in that. */
    ghost predicate Settled(t: IconType)
      reads this`ledger
    {
      ledger == Done(ledger, t)
    }

    twostate lemma TalliedIn(item: FileCacheItem, new t: IconType, new jid: string)
      requires old(AllTallied(jidToIcons)) && jid in old(jidToIcons) && item in old(items.Values)
      requires CanAdd(old(jidToIcons)[jid], t) && Slot(old(jidToIcons)[jid], t) != item && old(Settled(t))
      requires items == old(items) && item.jids == old(item.jids) + [User(t, jid)]
      requires forall i :: i in items.Values && i != item ==> i.jids == old(i.jids)
      requires jidToIcons == old(jidToIcons)[jid := WithItem(old(jidToIcons)[jid], item, t)]
      requires ledger == Pending(old(ledger), Slot(old(jidToIcons)[jid], t), t, jid)
      ensures AllTallied(jidToIcons)
    {
      hide Fits, WithItem, CanAdd, Slot, Holder;
      forall k | k in {VCardType, CustomType, AvatarType} && old(Tallied(k, jidToIcons))
        ensures Tallied(k, jidToIcons)
      {
        forall i, j | i in items.Values
          ensures Fits(i, i.jids, ledger, User(k, j), Holder(IconsOf(j), k))
        {
          assert old(Fits(i, i.jids, ledger, User(k, j), Holder(IconsOf(j), k)));
          if j != jid {
            JoinedOther(i, old(i.jids), old(ledger), User(k, j), Holder(IconsOf(j), k), item, t, jid,
                        Lookup(old(jidToIcons), jid));
          } else {
            JoinedFits(i, old(i.jids), old(ledger), k, item, t, jid, Lookup(old(jidToIcons), jid));
          }
        }
      }
    }

    twostate lemma TalliedNew(new item: FileCacheItem, new t: IconType, new jid: string)
      requires old(Sound(jidToIcons)) && jid in old(jidToIcons) && item !in old(items.Values)
      requires CanAdd(old(jidToIcons)[jid], t) && old(Settled(t))
      requires item.jids == [User(t, jid)]
      requires forall i :: i in items.Values && i != item ==> i in old(items.Values) && i.jids == old(i.jids)
      requires jidToIcons == old(jidToIcons)[jid := WithItem(old(jidToIcons)[jid], item, t)]
      requires ledger == Pending(old(ledger), Slot(old(jidToIcons)[jid], t), t, jid)
      requires old(ledger.leaving) != item
      ensures AllTallied(jidToIcons)
    {
      forall j | j in old(jidToIcons)
        ensures var icons := old(jidToIcons)[j]; item !in {icons.vcard, icons.avatar, icons.customAvatar}
      {
        assert old(Backed(jidToIcons[j], j));
      }
      forall k | k in {VCardType, CustomType, AvatarType} && old(Tallied(k, jidToIcons))
        ensures Tallied(k, jidToIcons)
      {
        forall i, j | i in items.Values
          ensures Fits(i, i.jids, ledger, User(k, j), Holder(IconsOf(j), k))
        {
          if i == item {
            FirstFits(i, k, j, ledger, t, jid, Lookup(old(jidToIcons), j));
          } else {
            assert old(Fits(i, i.jids, ledger, User(k, j), Holder(IconsOf(j), k)));
            if j != jid {
              JoinedOther(i, old(i.jids), old(ledger), User(k, j), Holder(IconsOf(j), k), item, t, jid,
                          Lookup(old(jidToIcons), jid));
            } else {
              JoinedFits(i, old(i.jids), old(ledger), k, item, t, jid, Lookup(old(jidToIcons), jid));
            }
          }
        }
      }
    }

    twostate lemma SwappedIn(new item: FileCacheItem, new t: IconType, new jid: string)
      requires old(Valid()) && Filed() && Kept({}) && jid in old(jidToIcons)
      requires Lists(item, User(t, jid)) && t != NoneType && old(Slot(jidToIcons[jid], t)) != item
      requires jidToIcons == old(jidToIcons)[jid := WithItem(old(jidToIcons)[jid], item, t)]
      requires AllTallied(jidToIcons) && ledger == Pending(old(ledger), old(Slot(jidToIcons[jid], t)), t, jid)
      ensures Swapped(old(Slot(jidToIcons[jid], t)), t, jid)
    {
      hide AllTallied;
      var before := old(jidToIcons);
      assert old(Backed(before[jid], jid));
      KeptBacked(before[jid], jid, {});
      assert Backed(jidToIcons[jid], jid);
      forall j | j in jidToIcons && j != jid
        ensures Backed(jidToIcons[j], j)
      {
        assert old(Backed(before[j], j));
        KeptBacked(before[j], j, {});
      }
    }

    method SetIcon(t: IconType, jid: string, data: Bytes, given: Hash) returns (r: OpResult)
      requires Valid() && Settled(t)
      modifies this, items.Values
      ensures Valid() && fresh(items.Values - old(items.Values))
      ensures ledger == old(ledger)
      ensures OthersKept(jid) && Kept(Lost(old(IconsOf(jid)), t, jid))
      ensures r == NoData <==> !known(data) || (t != VCardType && scale(data).None?)
      ensures r == NoData ==> items == old(items) && jidToIcons == old(jidToIcons)
      ensures r != NoData ==> jid in jidToIcons
      ensures r == NotChanged ==> IconsOf(jid) == old(IconsOf(jid))
      ensures r == NoData || r == NotChanged ==> items == old(items) && unchanged(old(items.Values))
      ensures r == NotChanged <==>
                known(data) && (t == VCardType || scale(data).Some?) &&
                (t == NoneType ||
                 (t == AvatarFromVCardType && old(IconsOf(jid)).avatar != null && !old(IconsOf(jid)).avatarFromVCard) ||
                 (var hash := if given != "" then given else sha1(if t == VCardType then data else scale(data).value);
                  hash in old(items) && Slot(old(IconsOf(jid)), t) == old(items)[hash]))
      ensures r == Changed || r == UserUpdateRequired ==>
                var kept, item := if t == VCardType then data else scale(data).value, Slot(IconsOf(jid), t);
                && item != null && item in items.Values && item.hash == (if given != "" then given else sha1(kept))
                && (if item.hash in old(items) then item == old(items)[item.hash] else fresh(item) && item.data == kept)
                && Regenerated(WithoutGenerated(WithItem(old(IconsOf(jid)), item, t), t), IconsOf(jid))
                && SlotsAfter(old(IconsOf(jid)), t, item, IconsOf(jid))
      ensures r == UserUpdateRequired <==> Active(IconsOf(jid)) != old(Active(IconsOf(jid)))
      ensures t == CustomType && (r == Changed || r == UserUpdateRequired) ==>
                (r == Changed <==>
                   old(IconsOf(jid)).customAvatar == null && old(IconsOf(jid)).avatar == IconsOf(jid).customAvatar)
      ensures t != CustomType && old(IconsOf(jid)).customAvatar != null ==> r != UserUpdateRequired
      ensures t != CustomType && old(IconsOf(jid)).customAvatar == null ==>
                (r == UserUpdateRequired <==> IconsOf(jid).avatar != old(IconsOf(jid)).avatar)
      decreases if t == AvatarFromVCardType then 1 else 3, 2
    {
      hide Filed, AllBacked, AllTallied, Backed, Regenerated, LostTo, WithItem, WithoutGenerated;
      hide SlotsAfter, Active, Slot, Lost, Lookup;
      var newData := Stored(t, data);
      if newData.None? {
        return NoData;
      }
      Entry(jid);
      if !CanAdd(jidToIcons[jid], t) {
        return NotChanged;
      }
      var hash := HashFor(t, data, given);
      FiledUnder(hash);
      r := AppendUser(hash, t, jid);
      if r == NoData {
        r := FileNew(hash, newData.value, t, jid);
      } else if r != NotChanged {
        SlotStays(old(IconsOf(jid)), old(items)[hash], t, IconsOf(jid));
        SlotCached(t, jid);
      }
    }

    /** The image is new to the cache. */
    method FileNew(hash: Hash, data: Bytes, t: IconType, jid: string) returns (r: OpResult)
      requires Valid() && jid in jidToIcons && hash !in items && CanAdd(jidToIcons[jid], t) && Settled(t)
      modifies this, items.Values
      ensures Valid() && fresh(items.Values - old(items.Values))
      ensures ledger == old(ledger)
      ensures jid in jidToIcons && OthersKept(jid) && Kept(Lost(old(IconsOf(jid)), t, jid))
      ensures r == Changed || r == UserUpdateRequired
      ensures var item := Slot(IconsOf(jid), t);
              && item != null && item in items.Values && fresh(item) && item.hash == hash && item.data == data
              && Regenerated(WithoutGenerated(WithItem(old(IconsOf(jid)), item, t), t), IconsOf(jid))
              && SlotsAfter(old(IconsOf(jid)), t, item, IconsOf(jid))
      ensures r == UserUpdateRequired <==> Active(IconsOf(jid)) != old(Active(IconsOf(jid)))
      ensures t == CustomType && (r == Changed || r == UserUpdateRequired) ==>
                (r == Changed <==>
                   old(IconsOf(jid)).customAvatar == null && old(IconsOf(jid)).avatar == IconsOf(jid).customAvatar)
      ensures t != CustomType && old(IconsOf(jid)).customAvatar != null ==> r != UserUpdateRequired
      ensures t != CustomType && old(IconsOf(jid)).customAvatar == null ==>
                (r == UserUpdateRequired <==> IconsOf(jid).avatar != old(IconsOf(jid)).avatar)
      decreases if t == AvatarFromVCardType then 1 else 3, 1
    {
      hide Filed, AllBacked, AllTallied, Backed, Regenerated, MadeFrom, LostTo, WithItem, WithoutGenerated;
      var oldActive := Active(jidToIcons[jid]);
      var prev := Slot(jidToIcons[jid], t);
      var item := PutInNew(hash, data, t, jid);
      var newActive := AfterSwap(prev, t, jid);
      SlotsPut(old(IconsOf(jid)), item, t, IconsOf(jid));
      SlotStays(old(IconsOf(jid)), item, t, IconsOf(jid));
      SlotCached(t, jid);
      r := if oldActive == newActive then Changed else UserUpdateRequired;
    }

    /** What is kept of an image: a photo as it is, anything else made small. */
    function Stored(t: IconType, data: Bytes): Option<Bytes> {
      if !known(data) then None else if t == VCardType then Some(data) else scale(data)
    }

    function HashFor(t: IconType, data: Bytes, given: Hash): Hash
      requires Stored(t, data).Some?
    {
      if given == "" then sha1(Stored(t, data).value) else given
    }

    // ---- Removing icons -----------------------------------------------------------------------

    /** No icon of `jid` depends on an entry that goes with slot `t`. */
    ghost predicate Independent(icons: JidIcons, t: IconType, jid: string) {
      && (icons.vcard != null ==> t != VCardType)
      && (icons.customAvatar != null ==> t != CustomType)
      && (icons.avatar != null ==> AvatarUser(icons, jid) !in LostTo(t, jid))
    }

    twostate lemma WithdrawnBacked(new t: IconType, new jid: string)
      requires old(AllBacked(jidToIcons)) && Kept(LostTo(t, jid)) && jidToIcons == old(jidToIcons)
      requires Independent(IconsOf(jid), t, jid)
      ensures AllBacked(jidToIcons)
    {
      forall j | j in jidToIcons
        ensures Backed(jidToIcons[j], j)
      {
        assert old(Backed(jidToIcons[j], j));
        if j != jid {
          KeptBacked(jidToIcons[j], j, LostTo(t, jid));
        } else {
          KeptOwn(jidToIcons[j], t, j);
        }
      }
    }

    twostate lemma KeptOwn(icons: JidIcons, new t: IconType, new jid: string)
      requires old(Backed(icons, jid)) && Kept(LostTo(t, jid)) && Independent(icons, t, jid)
      ensures Backed(icons, jid)
    {
      if icons.vcard != null {
        KeptLists(icons.vcard, User(VCardType, jid), LostTo(t, jid));
      }
      if icons.customAvatar != null {
        KeptLists(icons.customAvatar, User(CustomType, jid), LostTo(t, jid));
      }
      if icons.avatar != null {
        KeptLists(icons.avatar, AvatarUser(icons, jid), LostTo(t, jid));
      }
    }

    /** The image pushed out of a slot loses the user that the slot was. */
    method Withdraw(prev: FileCacheItem, t: IconType, jid: string)
      requires Valid() && prev in items.Values && Independent(IconsOf(jid), t, jid)
      requires ledger == Pending(ledger, prev, t, jid)
      modifies this`items, this`ledger, items.Values
      ensures Valid() && items.Values <= old(items.Values) && Kept(LostTo(t, jid)) && ledger == Done(old(ledger), t)
    {
      hide Filed, AllBacked, AllTallied, Backed, Independent, LostTo, Remaining;
      RemoveUser(prev, t, jid);
      WithdrawnBacked(t, jid);
      ledger := Done(ledger, t);
      IndependentHolder(IconsOf(jid), t, jid);
      DroppedTallied(prev, t, jid);
    }

    lemma IndependentHolder(icons: JidIcons, t: IconType, jid: string)
      requires Independent(icons, t, jid)
      ensures Holder(icons, t) == null
    {
    }

    lemma ClearedSlot(t: IconType, jid: string)
      requires Valid() && jid in jidToIcons && CanDel(IconsOf(jid), t)
      requires Slot(IconsOf(jid), t) != null ==> ledger == Pending(ledger, Slot(IconsOf(jid), t), t, jid)
      ensures Sound(jidToIcons[jid := WithItem(jidToIcons[jid], null, t)])
      ensures var prev := Slot(IconsOf(jid), t); prev != null ==> Lists(prev, User(t, jid))
      ensures var icons := WithItem(IconsOf(jid), null, t);
              && Slot(icons, t) == null && (t == AvatarType ==> !icons.avatarFromVCard)
              && (Slot(IconsOf(jid), t) == null ==> icons == IconsOf(jid))
    {
      assert Backed(jidToIcons[jid], jid);
      ClearedTallied(t, jid);
    }

    lemma ClearedTallied(t: IconType, jid: string)
      requires AllTallied(jidToIcons) && jid in jidToIcons && CanDel(IconsOf(jid), t)
      requires Slot(IconsOf(jid), t) != null ==> ledger == Pending(ledger, Slot(IconsOf(jid), t), t, jid)
      ensures AllTallied(jidToIcons[jid := WithItem(jidToIcons[jid], null, t)])
    {
      var after := jidToIcons[jid := WithItem(jidToIcons[jid], null, t)];
      forall i, k, j | i in items.Values && k in {VCardType, CustomType, AvatarType} && Tallied(k, jidToIcons)
        ensures Fits(i, i.jids, ledger, User(k, j), Holder(Lookup(after, j), k))
      {
        assert Fits(i, i.jids, ledger, User(k, j), Holder(IconsOf(j), k));
      }
    }

    /** From here on the image in slot `t` of `jid` may have an entry too many. */
    ghost method StartLeaving(prev: FileCacheItem, t: IconType, jid: string)
      requires Valid() && Settled(t)
      modifies this`ledger
      ensures Valid() && ledger == Pending(old(ledger), prev, t, jid)
    {
      ledger := Pending(ledger, prev, t, jid);
      StartedTallied(prev, t, jid);
    }

    twostate lemma StartedTallied(prev: FileCacheItem, new t: IconType, new jid: string)
      requires old(AllTallied(jidToIcons)) && old(Settled(t)) && items == old(items) && jidToIcons == old(jidToIcons)
      requires forall i :: i in items.Values ==> i.jids == old(i.jids)
      requires ledger == Pending(old(ledger), prev, t, jid)
      ensures AllTallied(jidToIcons)
    {
      forall k | k in {VCardType, CustomType, AvatarType} && old(Tallied(k, jidToIcons))
        ensures Tallied(k, jidToIcons)
      {
        forall i, j | i in items.Values
          ensures Fits(i, i.jids, ledger, User(k, j), Holder(IconsOf(j), k))
        {
          assert old(Fits(i, i.jids, ledger, User(k, j), Holder(IconsOf(j), k)));
        }
      }
    }

    method RemoveIcon(t: IconType, jid: string, keepEmptyIcons: bool) returns (r: OpResult)
      requires Valid() && Settled(t)
      modifies this, items.Values
      ensures Valid() && fresh(items.Values - old(items.Values))
      ensures ledger == old(ledger)
      ensures OthersKept(jid) && Kept(LostTo(t, jid))
      ensures r == NoData <==> jid !in old(jidToIcons)
      ensures r == NotChanged <==>
                jid in old(jidToIcons) &&
                (t == NoneType || Slot(old(IconsOf(jid)), t) == null ||
                 (t == AvatarType && old(IconsOf(jid)).avatarFromVCard) ||
                 (t == AvatarFromVCardType && !old(IconsOf(jid)).avatarFromVCard))
      ensures r == NoData || r == NotChanged ==>
                items == old(items) && jidToIcons == old(jidToIcons) && unchanged(old(items.Values))
      ensures r == Changed || r == UserUpdateRequired ==>
                var left := Cleared(old(IconsOf(jid)), t);
                if !keepEmptyIcons && Empty(left) then jid !in jidToIcons
                else && jid in jidToIcons
                     && if t == AvatarFromVCardType then IconsOf(jid) == left else Regenerated(left, IconsOf(jid))
      ensures r == Changed || r == UserUpdateRequired ==>
                && SlotsLeft(old(IconsOf(jid)), t, IconsOf(jid))
                && (jid in jidToIcons <==> keepEmptyIcons || IconsOf(jid).(avatarFromVCard := false) != NO_ICONS)
      ensures r == UserUpdateRequired <==> Active(IconsOf(jid)) != old(Active(IconsOf(jid)))
      ensures t == CustomType && (r == Changed || r == UserUpdateRequired) ==>
                (r == UserUpdateRequired <==> IconsOf(jid).avatar != old(IconsOf(jid)).customAvatar)
      ensures t != CustomType && old(IconsOf(jid)).customAvatar != null ==> r != UserUpdateRequired
      ensures t != CustomType && old(IconsOf(jid)).customAvatar == null ==>
                (r == UserUpdateRequired <==> IconsOf(jid).avatar != old(IconsOf(jid)).avatar)
      decreases if t == AvatarFromVCardType then 4 else 5, 1
    {
      hide Filed, AllBacked, AllTallied, Backed, LostTo, Taken, Independent, Regenerated, WithItem, WithoutMade;
      hide MadeFrom;
      if jid !in jidToIcons {
        return NoData;
      }
      if !CanDel(jidToIcons[jid], t) {
        return NotChanged;
      }
      var oldActive := Active(jidToIcons[jid]);
      var prev := Vacate(t, jid);
      if prev == null {
        return NotChanged;
      }
      var newActive := Refill(t, jid);
      StillListed(prev, t, jid);
      NothingMade(WithItem(old(IconsOf(jid)), null, t));
      EmptyStays(Cleared(old(IconsOf(jid)), t), IconsOf(jid));
      TakenLost(t, jid);
      Leave(prev, t, jid, keepEmptyIcons);
      SlotsEmptied(old(IconsOf(jid)), t, IconsOf(jid));
      r := if oldActive == newActive then Changed else UserUpdateRequired;
    }

    /** Slot `t` of `jid` is emptied; the image that was in it still lists it. */
    method Vacate(t: IconType, jid: string) returns (prev: FileCacheItem?)
      requires Valid() && Settled(t) && jid in jidToIcons && CanDel(IconsOf(jid), t)
      modifies this`jidToIcons, this`ledger
      ensures Valid() && OthersKept(jid) && Kept({})
      ensures prev == old(Slot(jidToIcons[jid], t))
      ensures jidToIcons == old(jidToIcons)[jid := WithItem(old(jidToIcons)[jid], null, t)]
      ensures Slot(IconsOf(jid), t) == null && (t == AvatarType ==> !IconsOf(jid).avatarFromVCard)
      ensures prev == null ==> jidToIcons == old(jidToIcons) && ledger == old(ledger)
      ensures prev != null ==> Lists(prev, User(t, jid)) && ledger == Pending(old(ledger), prev, t, jid)
    {
      hide Filed, AllBacked, AllTallied, Backed, WithItem, CanDel;
      prev := Slot(jidToIcons[jid], t);
      if prev != null {
        StartLeaving(prev, t, jid);
      }
      ClearedSlot(t, jid);
      Rewrite(jid, WithItem(jidToIcons[jid], null, t));
    }

    /** A JID without icons is forgotten, unless it is to be kept; then the image loses its entry. */
    method Leave(prev: FileCacheItem, t: IconType, jid: string, keepEmptyIcons: bool)
      requires Valid() && prev in items.Values && jid in jidToIcons && Independent(IconsOf(jid), t, jid)
      requires ledger == Pending(ledger, prev, t, jid)
      modifies this`items, this`jidToIcons, this`ledger, items.Values
      ensures Valid() && items.Values <= old(items.Values) && Kept(LostTo(t, jid)) && OthersKept(jid)
      ensures ledger == Done(old(ledger), t)
      ensures jidToIcons ==
              if !keepEmptyIcons && Empty(old(IconsOf(jid))) then old(jidToIcons) - {jid} else old(jidToIcons)
    {
      hide Filed, AllBacked, AllTallied, Backed, Independent, LostTo, Pending, Done;
      if !keepEmptyIcons && Empty(jidToIcons[jid]) {
        Erase(jid);
      }
      Withdraw(prev, t, jid);
    }

    twostate lemma StillListed(prev: FileCacheItem, new t: IconType, new jid: string)
      requires old(Lists(prev, User(t, jid)))
      requires Kept(Taken(t, jid))
      ensures prev in items.Values
    {
      KeptLists(prev, User(t, jid), Taken(t, jid));
    }

    method Erase(jid: string)
      requires Valid() && Empty(IconsOf(jid))
      modifies this`jidToIcons
      ensures Valid() && jidToIcons == old(jidToIcons) - {jid} && Kept({}) && OthersKept(jid)
      ensures forall t :: Independent(IconsOf(jid), t, jid)
    {
      jidToIcons := jidToIcons - {jid};
      SameTallied();
    }

    lemma EmptyStays(icons: JidIcons, after: JidIcons)
      requires after == icons || Regenerated(icons, after)
      ensures Empty(after) <==> Empty(icons)
    {
    }

    lemma TakenLost(t: IconType, jid: string)
      ensures forall u :: u in Taken(t, jid) ==> u in LostTo(t, jid)
    {
    }

    /** What goes along with slot `t`: a generated avatar with its photo. */
    ghost function Taken(t: IconType, jid: string): set<User> {
      if t == VCardType then {User(AvatarFromVCardType, jid)} else {}
    }

    /** With slot `t` empty: a generated avatar goes with its photo, and another is made if it is missed. */
    method Refill(t: IconType, jid: string) returns (newActive: FileCacheItem?)
      requires Valid() && jid in jidToIcons && t != NoneType && Slot(IconsOf(jid), t) == null
      requires t == AvatarType ==> !IconsOf(jid).avatarFromVCard
      modifies this, items.Values
      ensures Valid() && fresh(items.Values - old(items.Values))
      ensures ledger == old(ledger)
      ensures jid in jidToIcons && OthersKept(jid)
      ensures Kept(Taken(t, jid))
      ensures if t == AvatarFromVCardType then IconsOf(jid) == old(IconsOf(jid))
              else Regenerated(WithoutMade(old(IconsOf(jid)), t), IconsOf(jid))
      ensures newActive == Active(IconsOf(jid))
      ensures Independent(IconsOf(jid), t, jid)
      decreases if t == AvatarFromVCardType then 4 else 5, 0
    {
      hide Filed, AllBacked, AllTallied, Backed;
      if t == VCardType && jidToIcons[jid].avatarFromVCard {
        var _ := RemoveIcon(AvatarFromVCardType, jid, true);
      }
      if t == AvatarFromVCardType {
        newActive := Active(jidToIcons[jid]);
      } else {
        newActive := EnsureHasAvatar(jid);
      }
    }

    // ---- An image leaves the cache for reasons of its own -----------------------------------------

    /** No published avatar is at stake: where the image is listed as a generated one, no other is published. */
    ghost predicate SparesPublished(item: FileCacheItem)
      reads this`jidToIcons, item`jids
    {
      forall j :: User(AvatarFromVCardType, j) in item.jids ==> Holder(IconsOf(j), AvatarType) in {null, item}
    }

    method RemoveItem(item: FileCacheItem)
      requires Valid() && Settled(AvatarType) && item in items.Values
      modifies this
      ensures Valid() && items == old(items) - {item.hash}
      ensures jidToIcons == Purged(old(jidToIcons), item.jids)
      ensures ledger == old(ledger).(tidy := Tallied(AvatarType, jidToIcons))
      ensures old(ledger.tidy) ==> (ledger.tidy <==> old(SparesPublished(item)))
    {
      hide Filed, AllBacked, AllTallied, Tallied;
      for k := 0 to |item.jids|
        invariant jidToIcons == Purged(old(jidToIcons), item.jids[..k])
        invariant items == old(items) && ledger == old(ledger)
      {
        var u := item.jids[k];
        assert item.jids[..k + 1][..k] == item.jids[..k];
        if u.jid in jidToIcons {
          var left := WithItem(jidToIcons[u.jid], null, u.kind);
          jidToIcons := jidToIcons[u.jid := left];
          if Empty(left) {
            jidToIcons := jidToIcons - {u.jid};
          }
          assert jidToIcons == PurgedOf(Purged(old(jidToIcons), item.jids[..k]), u);
        }
      }
      assert item.jids[..|item.jids|] == item.jids;
      items := items - {item.hash};
      PurgedBacked(item);
      PurgedTallied(item);
      if !old(SparesPublished(item)) {
        PublishedLost(item);
      }
      Assess();
    }

    /** It is seen to whether the lists of published avatars are exact now. */
    ghost method Assess()
      requires Filed() && AllBacked(jidToIcons)
      requires Tallied(VCardType, jidToIcons) && Tallied(CustomType, jidToIcons)
      modifies this`ledger
      ensures Valid() && ledger == old(ledger).(tidy := old(Tallied(AvatarType, jidToIcons)))
      ensures Tallied(AvatarType, jidToIcons) == old(Tallied(AvatarType, jidToIcons))
    {
      hide Filed, AllBacked, Tallied;
      ledger := ledger.(tidy := Tallied(AvatarType, jidToIcons));
      SameLeaver(VCardType);
      SameLeaver(CustomType);
      SameLeaver(AvatarType);
    }

    twostate lemma SameLeaver(new k: IconType)
      requires ledger == old(ledger).(tidy := ledger.tidy) && items == old(items) && jidToIcons == old(jidToIcons)
      requires forall i :: i in items.Values ==> i.jids == old(i.jids)
      ensures Tallied(k, jidToIcons) == old(Tallied(k, jidToIcons))
    {
      forall i, j | i in items.Values
        ensures Fits(i, i.jids, ledger, User(k, j), Holder(IconsOf(j), k))
                == old(Fits(i, i.jids, ledger, User(k, j), Holder(IconsOf(j), k)))
      {
      }
    }

    /** A published avatar that was another image is gone from its slot, but its image lists the JID still. */
    twostate lemma PublishedLost(item: FileCacheItem)
      requires old(Valid()) && item in old(items.Values) && !old(SparesPublished(item)) && ledger.leaving == null
      requires forall i :: i in items.Values <==> i in old(items.Values) && i != item
      requires forall i :: i in old(items.Values) ==> i.jids == old(i.jids)
      requires jidToIcons == Purged(old(jidToIcons), item.jids)
      ensures !Tallied(AvatarType, jidToIcons)
    {
      var j :| User(AvatarFromVCardType, j) in item.jids && Holder(old(IconsOf(j)), AvatarType) !in {null, item};
      var lost := Holder(old(IconsOf(j)), AvatarType);
      assert old(Backed(IconsOf(j), j));
      PurgedSlots(old(jidToIcons), item.jids, j);
      assert lost in items.Values && User(AvatarType, j) in lost.jids;
      assert multiset(lost.jids)[User(AvatarType, j)] > 0;
      assert !Fits(lost, lost.jids, ledger, User(AvatarType, j), Holder(IconsOf(j), AvatarType));
    }

    twostate lemma PurgedBacked(item: FileCacheItem)
      requires old(Valid()) && item in old(items.Values) && items == old(items) - {item.hash}
      requires forall i :: i in old(items.Values) ==> i.jids == old(i.jids)
      requires jidToIcons == Purged(old(jidToIcons), item.jids)
      ensures Filed() && AllBacked(jidToIcons)
      ensures forall i :: i in items.Values <==> i in old(items.Values) && i != item
    {
      assert old(items)[item.hash] == item;
      forall i | i in old(items.Values) && i != item
        ensures i in items.Values
      {
        assert old(items)[i.hash] == i && items[i.hash] == i;
      }
      forall j | j in jidToIcons
        ensures Backed(jidToIcons[j], j)
      {
        PurgedSlots(old(jidToIcons), item.jids, j);
        assert old(Backed(jidToIcons[j], j));
      }
    }

    twostate lemma PurgedTallied(item: FileCacheItem)
      requires old(AllTallied(jidToIcons)) && old(Settled(AvatarType)) && item in old(items.Values)
      requires forall i :: i in items.Values <==> i in old(items.Values) && i != item
      requires forall i :: i in old(items.Values) ==> i.jids == old(i.jids)
      requires jidToIcons == Purged(old(jidToIcons), item.jids)
      requires ledger == old(ledger)
      ensures Tallied(VCardType, jidToIcons) && Tallied(CustomType, jidToIcons)
      ensures old(ledger.tidy && SparesPublished(item)) ==> Tallied(AvatarType, jidToIcons)
    {
      forall k | k in {VCardType, CustomType, AvatarType} && old(Tallied(k, jidToIcons))
                 && (k == AvatarType ==> old(SparesPublished(item)))
        ensures Tallied(k, jidToIcons)
      {
        forall i, j | i in items.Values
          ensures Fits(i, i.jids, ledger, User(k, j), Holder(IconsOf(j), k))
        {
          PurgedSlots(old(jidToIcons), item.jids, j);
          assert old(Fits(i, i.jids, ledger, User(k, j), Holder(IconsOf(j), k)));
          assert old(Fits(item, item.jids, ledger, User(k, j), Holder(IconsOf(j), k)));
        }
      }
    }

    method Icons(jid: string) returns (icons: JidIcons)
      requires Valid()
      modifies this, items.Values
      ensures Valid() && fresh(items.Values - old(items.Values)) && ledger == old(ledger)
      ensures icons == IconsOf(jid) && OthersKept(jid) && Kept({})
      ensures if jid in old(jidToIcons) then Regenerated(old(IconsOf(jid)), icons) else jidToIcons == old(jidToIcons)
    {
      if jid !in jidToIcons {
        return NO_ICONS;
      }
      var _ := EnsureHasAvatar(jid);
      icons := jidToIcons[jid];
    }
  }

  /**
   * A published avatar can be taken away by the removal of another image: replacing a generated
   * avatar leaves its entry behind, since it is the published kind that is looked for.
   */
  method StaleRemoval(known: Bytes -> bool, scale: Bytes -> Option<Bytes>, sha1: Bytes -> Hash,
                      photo: Bytes, picture: Bytes, jid: string) returns (cache: AvatarCache, lost: FileCacheItem)
    requires known(photo) && known(picture) && scale(photo).Some? && scale(picture).Some?
    requires sha1(scale(photo).value) != sha1(scale(picture).value)
    ensures fresh(cache) && cache.Valid() && !cache.ledger.tidy
    ensures lost in cache.items.Values && User(AvatarType, jid) in lost.jids
    ensures cache.IconsOf(jid).avatar == null
  {
    hide AvatarCache.Filed, AvatarCache.AllBacked, AvatarCache.AllTallied, AvatarCache.Regenerated;
    var generated;
    cache, generated := GeneratedAvatar(known, scale, sha1, photo, jid);
    lost := Publish(cache, generated, picture, jid);
    PurgedSlots(cache.jidToIcons, generated.jids, jid);
    assert cache.items[lost.hash] == lost && cache.items[generated.hash] == generated by {
      cache.FiledUnderOwn(lost);
      cache.FiledUnderOwn(generated);
    }
    cache.RemoveItem(generated);
    assert cache.items[lost.hash] == lost;
  }

  /** A JID with a photo and the avatar made from it. */
  method GeneratedAvatar(known: Bytes -> bool, scale: Bytes -> Option<Bytes>, sha1: Bytes -> Hash,
                         photo: Bytes, jid: string)
    returns (cache: AvatarCache, generated: FileCacheItem)
    requires known(photo) && scale(photo).Some?
    ensures fresh(cache) && fresh(cache.items.Values) && cache.Valid() && cache.ledger == Ledger(true, null, NOBODY)
    ensures cache.known == known && cache.scale == scale && cache.sha1 == sha1
    ensures cache.IconsOf(jid).avatar == generated && cache.IconsOf(jid).avatarFromVCard
    ensures cache.Lists(generated, User(AvatarFromVCardType, jid)) && generated.hash == sha1(scale(photo).value)
  {
    hide AvatarCache.Filed, AvatarCache.AllBacked, AvatarCache.AllTallied, AvatarCache.Backed;
    cache := new AvatarCache(known, scale, sha1);
    var r := cache.SetIcon(VCardType, jid, photo, "");
    generated := cache.jidToIcons[jid].avatar;
    cache.AvatarListed(jid);
  }

  /** Over a generated avatar another image is published; the generated one lists the JID for good. */
  method Publish(cache: AvatarCache, generated: FileCacheItem, picture: Bytes, jid: string)
    returns (published: FileCacheItem)
    requires cache.Valid() && cache.ledger == Ledger(true, null, NOBODY)
    requires cache.known(picture) && cache.scale(picture).Some?
    requires generated.hash != cache.sha1(cache.scale(picture).value)
    requires cache.IconsOf(jid).avatar == generated && cache.IconsOf(jid).avatarFromVCard
    requires cache.Lists(generated, User(AvatarFromVCardType, jid))
    modifies cache, cache.items.Values
    ensures cache.Valid() && cache.ledger == old(cache.ledger)
    ensures cache.Lists(generated, User(AvatarFromVCardType, jid)) && cache.Lists(published, User(AvatarType, jid))
    ensures generated.hash != published.hash && Holder(cache.IconsOf(jid), AvatarType) == published
  {
    hide AvatarCache.Filed, AvatarCache.AllBacked, AvatarCache.AllTallied, AvatarCache.Backed, AvatarCache.Regenerated;
    cache.FiledUnder(cache.HashFor(AvatarType, picture, ""));
    var r := cache.SetIcon(AvatarType, jid, picture, "");
    published := Slot(cache.jidToIcons[jid], AvatarType);
    cache.Showing(old(cache.IconsOf(jid)), published, cache.IconsOf(jid));
    cache.AvatarListed(jid);
    cache.KeptLists(generated, User(AvatarFromVCardType, jid), LostTo(AvatarType, jid));
  }
}
