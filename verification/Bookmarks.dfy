/**
 * Conference bookmarks kept on the server (XEP-0048 in XEP-0049 private storage), with the two
 * join types that concern one computer only kept in local lists.
 */
module Bookmarks {
  import opened Jids
  import opened Options

  datatype JoinType = Never | Always | OnlyThisComputer | ExceptThisComputer

  datatype ConferenceBookmark =
    ConferenceBookmark(name: string, jid: Jid, autoJoin: JoinType, nick: string, password: string)

  datatype URLBookmark = URLBookmark(name: string, url: string)

  predicate IsNull(b: ConferenceBookmark) {
    b.name == "" && !Valid(b.jid)
  }

  // ---- XML ---------------------------------------------------------------------------------------

  datatype Node =
    | Element(tag: string, ns: string, attributes: map<string, string>, children: seq<Node>)
    | Text(text: string)

  function Attribute(e: Node, name: string): string {
    if e.Element? && name in e.attributes then e.attributes[name] else ""
  }

  /** All text below a node. */
  function TextOf(n: Node): string {
    match n
    case Text(t) => t
    case Element(_, _, _, children) => TextOfAll(children)
  }

  function TextOfAll(ns: seq<Node>): string {
    if ns == [] then "" else TextOf(ns[0]) + TextOfAll(ns[1..])
  }

  function TextTag(name: string, content: string): Node {
    Element(name, "", map[], [Text(content)])
  }

  function ToXml(b: ConferenceBookmark): Node {
    Element("conference", "",
            map["jid" := Full(b.jid), "name" := b.name]
            + (if b.autoJoin == Always || b.autoJoin == ExceptThisComputer then map["autojoin" := "true"] else map[]),
            (if b.nick != "" then [TextTag("nick", b.nick)] else [])
            + if b.password != "" then [TextTag("password", b.password)] else [])
  }

  function UrlToXml(u: URLBookmark): Node {
    Element("url", "", (if u.name != "" then map["name" := u.name] else map[])
                       + (if u.url != "" then map["url" := u.url] else map[]), [])
  }

  function UrlFromXml(e: Node): URLBookmark {
    URLBookmark(Attribute(e, "name"), Attribute(e, "url"))
  }

  /** The text of the last child element of that name. */
  function LastText(children: seq<Node>, tag: string): string {
    if children == [] then ""
    else
      var n := children[|children| - 1];
      if n.Element? && n.tag == tag then TextOf(n) else LastText(children[..|children| - 1], tag)
  }

  ghost predicate Named(n: Node, tag: string) {
    n.Element? && n.tag == tag
  }

  /** `t` is the text of the last child of that name, or empty if there is none. */
  ghost predicate Says(children: seq<Node>, tag: string, t: string) {
    || (t == "" && forall i :: 0 <= i < |children| ==> !Named(children[i], tag))
    || (exists k :: 0 <= k < |children| && Named(children[k], tag) && t == TextOf(children[k])
                    && forall i :: k < i < |children| ==> !Named(children[i], tag))
  }

  lemma {:induction false} LastSays(children: seq<Node>, tag: string)
    ensures Says(children, tag, LastText(children, tag))
  {
    if children != [] && !Named(children[|children| - 1], tag) {
      var init := children[..|children| - 1];
      LastSays(init, tag);
      if k :| 0 <= k < |init| && Named(init[k], tag) && LastText(init, tag) == TextOf(init[k])
              && forall i :: k < i < |init| ==> !Named(init[i], tag) {
        assert Named(children[k], tag) && children[k] == init[k];
        assert forall i :: k < i < |init| ==> children[i] == init[i];
      } else {
        assert forall i :: 0 <= i < |init| ==> children[i] == init[i];
      }
    }
  }

  function FromXml(p: Profiles, e: Node): ConferenceBookmark {
    ConferenceBookmark(Attribute(e, "name"), Parse(p, Attribute(e, "jid")),
                       if Attribute(e, "autojoin") == "true" || Attribute(e, "autojoin") == "1" then Always else Never,
                       if e.Element? then LastText(e.children, "nick") else "",
                       if e.Element? then LastText(e.children, "password") else "")
  }

  method ReadConference(p: Profiles, e: Node) returns (b: ConferenceBookmark)
    requires e.Element?
    ensures b == FromXml(p, e)
    ensures b.name == if "name" in e.attributes then e.attributes["name"] else ""
    ensures b.jid == Parse(p, if "jid" in e.attributes then e.attributes["jid"] else "")
    ensures b.autoJoin == if "autojoin" in e.attributes && e.attributes["autojoin"] in {"true", "1"} then Always
                          else Never
    ensures Says(e.children, "nick", b.nick) && Says(e.children, "password", b.password)
  {
    LastSays(e.children, "nick");
    LastSays(e.children, "password");
    b := ConferenceBookmark(Attribute(e, "name"), Parse(p, Attribute(e, "jid")), Never, "", "");
    if Attribute(e, "autojoin") == "true" || Attribute(e, "autojoin") == "1" {
      b := b.(autoJoin := Always);
    }
    var start := b;
    for k := 0 to |e.children|
      invariant b == start.(nick := LastText(e.children[..k], "nick"),
                            password := LastText(e.children[..k], "password"))
    {
      var i := e.children[k];
      assert e.children[..k + 1][..k] == e.children[..k];
      if i.Element? {
        if i.tag == "nick" {
          b := b.(nick := TextOf(i));
        } else if i.tag == "password" {
          b := b.(password := TextOf(i));
        }
      }
    }
    assert e.children[..|e.children|] == e.children;
  }

  /** What the server can keep of a join type. */
  function Shared(t: JoinType): JoinType {
    if t == Always || t == ExceptThisComputer then Always else Never
  }

  /** The server keeps everything but on which computers to join, and the address as it reads. */
  lemma XmlRoundTrip(p: Profiles, b: ConferenceBookmark)
    ensures FromXml(p, ToXml(b)) == b.(jid := Parse(p, Full(b.jid)), autoJoin := Shared(b.autoJoin))
  {
    hide Parse, Full, LastText;
    ChildrenRead(b);
    AttributesRead(b);
  }

  lemma AttributesRead(b: ConferenceBookmark)
    ensures var e := ToXml(b);
            && Attribute(e, "jid") == Full(b.jid) && Attribute(e, "name") == b.name
            && Attribute(e, "autojoin") == if Shared(b.autoJoin) == Always then "true" else ""
  {
    hide Full;
  }

  lemma ChildrenRead(b: ConferenceBookmark)
    ensures LastText(ToXml(b).children, "nick") == b.nick && LastText(ToXml(b).children, "password") == b.password
  {
    hide Full, TextOf;
    TextTagText("nick", b.nick);
    TextTagText("password", b.password);
    var nick := if b.nick != "" then [TextTag("nick", b.nick)] else [];
    LastTextSnoc([], TextTag("nick", b.nick));
    assert [] + [TextTag("nick", b.nick)] == [TextTag("nick", b.nick)];
    LastTextSnoc(nick, TextTag("password", b.password));
    assert nick + [] == nick;
  }

  lemma LastTextSnoc(children: seq<Node>, n: Node)
    ensures forall tag :: LastText(children + [n], tag) ==
                          if n.Element? && n.tag == tag then TextOf(n) else LastText(children, tag)
  {
    assert (children + [n])[..|children|] == children;
  }

  lemma TextTagText(name: string, content: string)
    ensures TextOf(TextTag(name, content)) == content
  {
    assert TextOfAll([Text(content)]) == content + TextOfAll([Text(content)][1..]);
  }

  lemma UrlRoundTrip(u: URLBookmark)
    ensures UrlFromXml(UrlToXml(u)) == u
  {
  }

  // ---- The storage element --------------------------------------------------------------------------

  const STORAGE := "storage:bookmarks"

  function Conferences(p: Profiles, items: seq<Node>): seq<ConferenceBookmark> {
    if items == [] then []
    else
      var f := items[|items| - 1];
      Conferences(p, items[..|items| - 1])
      + if f.Element? && f.tag == "conference" && !IsNull(FromXml(p, f)) then [FromXml(p, f)] else []
  }

  function Urls(items: seq<Node>): seq<URLBookmark> {
    if items == [] then []
    else
      var f := items[|items| - 1];
      Urls(items[..|items| - 1])
      + if f.Element? && f.tag == "url" && UrlFromXml(f) != URLBookmark("", "") then [UrlFromXml(f)] else []
  }

  function Items(urls: seq<URLBookmark>, conferences: seq<ConferenceBookmark>): seq<Node> {
    seq(|urls|, k requires 0 <= k < |urls| => UrlToXml(urls[k]))
    + seq(|conferences|, k requires 0 <= k < |conferences| => ToXml(conferences[k]))
  }

  function Storage(urls: seq<URLBookmark>, conferences: seq<ConferenceBookmark>): Node {
    Element("storage", STORAGE, map[], Items(urls, conferences))
  }

  method MakeStorage(urls: seq<URLBookmark>, conferences: seq<ConferenceBookmark>) returns (storage: Node)
    ensures storage == Storage(urls, conferences)
    ensures storage.Element? && storage.tag == "storage" && storage.ns == "storage:bookmarks"
    ensures |storage.children| == |urls| + |conferences|
    ensures forall k :: 0 <= k < |urls| ==> Named(storage.children[k], "url")
    ensures forall k :: |urls| <= k < |urls| + |conferences| ==> Named(storage.children[k], "conference")
  {
    var items := [];
    for k := 0 to |urls|
      invariant items == Items(urls[..k], [])
    {
      items := items + [UrlToXml(urls[k])];
    }
    for k := 0 to |conferences|
      invariant items == Items(urls, conferences[..k])
    {
      items := items + [ToXml(conferences[k])];
    }
    assert conferences[..|conferences|] == conferences;
    storage := Element("storage", STORAGE, map[], items);
  }

  predicate IsStorage(e: Node) {
    e.Element? && e.tag == "storage" && e.ns == STORAGE
  }

  /** Everything in the storage elements of a reply. */
  function Stored(reply: seq<Node>): seq<Node> {
    if reply == [] then []
    else
      var e := reply[|reply| - 1];
      Stored(reply[..|reply| - 1]) + if IsStorage(e) then e.children else []
  }

  lemma {:induction false} ConferencesConcat(p: Profiles, a: seq<Node>, b: seq<Node>)
    ensures Conferences(p, a + b) == Conferences(p, a) + Conferences(p, b)
    ensures Urls(a + b) == Urls(a) + Urls(b)
  {
    hide FromXml, UrlFromXml, IsNull;
    if b == [] {
      assert a + b == a;
    } else {
      assert (a + b)[..|a + b| - 1] == a + b[..|b| - 1];
      ConferencesConcat(p, a, b[..|b| - 1]);
    }
  }

  method TakeItems(p: Profiles, items: seq<Node>) returns (urls: seq<URLBookmark>, conferences: seq<ConferenceBookmark>)
    ensures urls == Urls(items) && conferences == Conferences(p, items)
  {
    urls, conferences := [], [];
    for k := 0 to |items|
      invariant urls == Urls(items[..k]) && conferences == Conferences(p, items[..k])
    {
      var f := items[k];
      assert items[..k + 1][..k] == items[..k];
      if f.Element? {
        if f.tag == "url" {
          var u := UrlFromXml(f);
          if u != URLBookmark("", "") {
            urls := urls + [u];
          }
        } else if f.tag == "conference" {
          var c := ReadConference(p, f);
          if !IsNull(c) {
            conferences := conferences + [c];
          }
        }
      }
    }
    assert items[..|items|] == items;
  }

  method Take(p: Profiles, reply: seq<Node>) returns (urls: seq<URLBookmark>, conferences: seq<ConferenceBookmark>)
    ensures urls == Urls(Stored(reply)) && conferences == Conferences(p, Stored(reply))
  {
    urls, conferences := [], [];
    for k := 0 to |reply|
      invariant urls == Urls(Stored(reply[..k])) && conferences == Conferences(p, Stored(reply[..k]))
    {
      assert reply[..k + 1][..k] == reply[..k];
      if IsStorage(reply[k]) {
        var us, cs := TakeItems(p, reply[k].children);
        ConferencesConcat(p, Stored(reply[..k]), reply[k].children);
        urls, conferences := urls + us, conferences + cs;
      } else {
        assert Stored(reply[..k]) + [] == Stored(reply[..k]);
      }
    }
    assert reply[..|reply|] == reply;
  }

  /** What comes back of a list: each bookmark without what concerns one computer only. */
  function AllShared(bs: seq<ConferenceBookmark>): seq<ConferenceBookmark> {
    seq(|bs|, k requires 0 <= k < |bs| => bs[k].(autoJoin := Shared(bs[k].autoJoin)))
  }

  ghost predicate AllNormal(p: Profiles, bs: seq<ConferenceBookmark>) {
    forall b :: b in bs ==> Normal(p, b.jid)
  }

  lemma NoItems(p: Profiles)
    ensures Urls([]) == [] && Conferences(p, []) == []
  {
  }

  lemma OneUrl(p: Profiles, u: URLBookmark)
    ensures Urls([UrlToXml(u)]) == if u == URLBookmark("", "") then [] else [u]
    ensures Conferences(p, [UrlToXml(u)]) == []
  {
    UrlRoundTrip(u);
    assert [UrlToXml(u)][..0] == [];
  }

  lemma OneConference(p: Profiles, b: ConferenceBookmark)
    ensures var r := b.(jid := Parse(p, Full(b.jid)), autoJoin := Shared(b.autoJoin));
            Conferences(p, [ToXml(b)]) == if IsNull(r) then [] else [r]
    ensures Urls([ToXml(b)]) == []
  {
    hide Parse, FromXml, IsNull;
    XmlRoundTrip(p, b);
    assert [ToXml(b)][..0] == [];
  }

  /** What is read of a list that was put in the storage element, whatever its addresses. */
  function AllRead(p: Profiles, bs: seq<ConferenceBookmark>): seq<ConferenceBookmark> {
    if bs == [] then []
    else
      var b := bs[|bs| - 1];
      var r := b.(jid := Parse(p, Full(b.jid)), autoJoin := Shared(b.autoJoin));
      AllRead(p, bs[..|bs| - 1]) + if IsNull(r) then [] else [r]
  }

  lemma NormalRead(p: Profiles, b: ConferenceBookmark)
    requires Sane(p) && Normal(p, b.jid)
    ensures Parse(p, Full(b.jid)) == b.jid && !IsNull(b.(autoJoin := Shared(b.autoJoin)))
  {
    hide Parse;
    ParseFull(p, b.jid);
    NodeFree(p, b.jid);
  }

  lemma {:induction false} AllReadNormal(p: Profiles, bs: seq<ConferenceBookmark>)
    requires Sane(p) && AllNormal(p, bs)
    ensures AllRead(p, bs) == AllShared(bs)
  {
    hide Sane, Normal, Parse, Full, IsNull;
    if bs != [] {
      var init, b := bs[..|bs| - 1], bs[|bs| - 1];
      assert b in bs;
      AllReadNormal(p, init);
      NormalRead(p, b);
      assert AllShared(bs) == AllShared(init) + [b.(autoJoin := Shared(b.autoJoin))];
    }
  }

  /** Nothing is added, and if nothing is missing every bookmark is read in its place. */
  lemma {:induction false} AllReadLength(p: Profiles, bs: seq<ConferenceBookmark>)
    ensures |AllRead(p, bs)| <= |bs|
    ensures |AllRead(p, bs)| == |bs| ==>
              forall k :: 0 <= k < |bs| ==> AllRead(p, bs)[k].jid == Parse(p, Full(bs[k].jid))
  {
    hide Parse, IsNull;
    if bs != [] {
      AllReadLength(p, bs[..|bs| - 1]);
    }
  }

  lemma {:induction false} NoConferences(p: Profiles, urls: seq<URLBookmark>)
    ensures Conferences(p, Items(urls, [])) == []
    ensures URLBookmark("", "") !in urls ==> Urls(Items(urls, [])) == urls
  {
    hide UrlToXml, UrlFromXml, ToXml, FromXml, Conferences, Urls;
    if urls == [] {
      assert Items([], []) == [];
      NoItems(p);
    } else {
      var init, u := urls[..|urls| - 1], urls[|urls| - 1];
      NoConferences(p, init);
      assert Items(urls, []) == Items(init, []) + [UrlToXml(u)];
      ConferencesConcat(p, Items(init, []), [UrlToXml(u)]);
      OneUrl(p, u);
      assert init + [u] == urls;
    }
  }

  lemma {:induction false} FetchedConferences(p: Profiles, urls: seq<URLBookmark>, bs: seq<ConferenceBookmark>)
    ensures Conferences(p, Items(urls, bs)) == AllRead(p, bs) && Urls(Items(urls, bs)) == Urls(Items(urls, []))
  {
    hide UrlToXml, UrlFromXml, ToXml, FromXml, Conferences, Urls, Parse, IsNull;
    if bs == [] {
      NoConferences(p, urls);
    } else {
      var init, b := bs[..|bs| - 1], bs[|bs| - 1];
      FetchedConferences(p, urls, init);
      assert Items(urls, bs) == Items(urls, init) + [ToXml(b)];
      ConferencesConcat(p, Items(urls, init), [ToXml(b)]);
      OneConference(p, b);
    }
  }

  // ---- The local lists -------------------------------------------------------------------------------

  function LocalMucs(p: Profiles, bs: seq<ConferenceBookmark>): seq<string> {
    if bs == [] then []
    else
      var b := bs[|bs| - 1];
      LocalMucs(p, bs[..|bs| - 1])
      + if b.autoJoin == OnlyThisComputer then [Full(WithResource(p, b.jid, b.nick))] else []
  }

  function IgnoreMucs(bs: seq<ConferenceBookmark>): seq<string> {
    if bs == [] then []
    else
      var b := bs[|bs| - 1];
      IgnoreMucs(bs[..|bs| - 1]) + if b.autoJoin == ExceptThisComputer then [Bare(b.jid)] else []
  }

  function Stripped(p: Profiles, mucs: seq<string>): set<string> {
    set m | m in mucs && Valid(Parse(p, m)) :: Bare(Parse(p, m))
  }

  function Adjusted(b: ConferenceBookmark, here: set<string>, ignored: seq<string>): ConferenceBookmark {
    if Bare(b.jid) in ignored then b.(autoJoin := ExceptThisComputer)
    else if Bare(b.jid) in here then b.(autoJoin := OnlyThisComputer)
    else b
  }

  predicate GoodNick(p: Profiles, b: ConferenceBookmark) {
    b.nick == b.jid.resource || p.resource(b.nick).Some?
  }

  /** A room is among the local ones exactly if a bookmark with a usable nick says so. */
  lemma {:induction false} LocalRooms(p: Profiles, bs: seq<ConferenceBookmark>, room: string)
    requires Sane(p) && AllNormal(p, bs)
    ensures room in Stripped(p, LocalMucs(p, bs)) <==>
              exists b :: b in bs && b.autoJoin == OnlyThisComputer && GoodNick(p, b) && Bare(b.jid) == room
  {
    if bs != [] {
      var init, last := bs[..|bs| - 1], bs[|bs| - 1];
      assert last in bs && forall b :: b in bs <==> b in init || b == last;
      LocalRooms(p, init, room);
      if last.autoJoin == OnlyThisComputer {
        var m := Full(WithResource(p, last.jid, last.nick));
        RoomRead(p, last.jid, last.nick);
        assert LocalMucs(p, bs) == LocalMucs(p, init) + [m];
        assert Stripped(p, LocalMucs(p, bs)) ==
               Stripped(p, LocalMucs(p, init)) + if Valid(Parse(p, m)) then {Bare(Parse(p, m))} else {};
      } else {
        assert LocalMucs(p, bs) == LocalMucs(p, init);
      }
    }
  }

  lemma {:induction false} IgnoredRooms(bs: seq<ConferenceBookmark>, room: string)
    ensures room in IgnoreMucs(bs) <==>
              exists b :: b in bs && b.autoJoin == ExceptThisComputer && Bare(b.jid) == room
  {
    if bs != [] {
      var init, last := bs[..|bs| - 1], bs[|bs| - 1];
      assert last in bs && forall b :: b in bs <==> b in init || b == last;
      IgnoredRooms(init, room);
    }
  }

  // ---- Saving and fetching ------------------------------------------------------------------------------

  /** What a computer with these local lists makes of the bookmarks fetched. */
  function Fetched(p: Profiles, bs: seq<ConferenceBookmark>, localMucs: seq<string>, ignoreMucs: seq<string>)
    : seq<ConferenceBookmark>
  {
    seq(|bs|, k requires 0 <= k < |bs| => Adjusted(bs[k], Stripped(p, localMucs), ignoreMucs))
  }

  /** Saved here and fetched again. */
  function Restored(p: Profiles, bs: seq<ConferenceBookmark>): seq<ConferenceBookmark> {
    Fetched(p, AllRead(p, bs), LocalMucs(p, bs), IgnoreMucs(bs))
  }

  /** The join type that comes back for the room of `b` when `bs` was saved. */
  ghost predicate Comes(p: Profiles, bs: seq<ConferenceBookmark>, b: ConferenceBookmark, t: JoinType) {
    var ignored := exists x :: x in bs && x.autoJoin == ExceptThisComputer && Bare(x.jid) == Bare(b.jid);
    var here := exists x :: x in bs && x.autoJoin == OnlyThisComputer && GoodNick(p, x) && Bare(x.jid) == Bare(b.jid);
    t == if ignored then ExceptThisComputer else if here then OnlyThisComputer else Shared(b.autoJoin)
  }

  /** Whatever the list, everything comes back but perhaps the join type, and that is known. */
  lemma RestoredAt(p: Profiles, bs: seq<ConferenceBookmark>, k: nat)
    requires Sane(p) && AllNormal(p, bs) && k < |bs|
    ensures |Restored(p, bs)| == |bs|
    ensures var r := Restored(p, bs)[k]; r == bs[k].(autoJoin := r.autoJoin) && Comes(p, bs, bs[k], r.autoJoin)
  {
    AllReadNormal(p, bs);
    LocalRooms(p, bs, Bare(bs[k].jid));
    IgnoredRooms(bs, Bare(bs[k].jid));
  }

  ghost predicate DistinctRooms(bs: seq<ConferenceBookmark>) {
    forall i, j :: 0 <= i < j < |bs| ==> Bare(bs[i].jid) != Bare(bs[j].jid)
  }

  lemma RestoredNormal(p: Profiles, bs: seq<ConferenceBookmark>)
    requires Sane(p) && AllNormal(p, bs) && DistinctRooms(bs)
    ensures Restored(p, bs) == bs <==> forall b :: b in bs && b.autoJoin == OnlyThisComputer ==> GoodNick(p, b)
  {
    AllReadNormal(p, bs);
    forall k | 0 <= k < |bs|
      ensures Restored(p, bs)[k] == bs[k] <==> (bs[k].autoJoin == OnlyThisComputer ==> GoodNick(p, bs[k]))
    {
      RestoredAt(p, bs, k);
      OwnRoom(bs, k);
    }
  }

  /**
   * With every room bookmarked once the list comes back as it was exactly if every address can be
   * read again and every room for this computer only has a usable nick.
   */
  lemma RestoredExactly(p: Profiles, bs: seq<ConferenceBookmark>)
    requires Sane(p) && Hereditary(p) && DistinctRooms(bs) && forall b :: b in bs ==> Prepared(p, b.jid)
    ensures Restored(p, bs) == bs <==>
              forall b :: b in bs ==> Readable(b.jid) && (b.autoJoin == OnlyThisComputer ==> GoodNick(p, b))
  {
    hide Sane, Hereditary, Prepared, Readable, GoodNick, Restored, DistinctRooms;
    if forall b :: b in bs ==> Readable(b.jid) {
      AllPrepared(p, bs);
      RestoredNormal(p, bs);
    } else if Restored(p, bs) == bs {
      RestoredReadable(p, bs);
    }
  }

  lemma AllPrepared(p: Profiles, bs: seq<ConferenceBookmark>)
    requires forall b :: b in bs ==> Prepared(p, b.jid) && Readable(b.jid)
    ensures AllNormal(p, bs)
  {
  }

  lemma RestoredReadable(p: Profiles, bs: seq<ConferenceBookmark>)
    requires Sane(p) && Hereditary(p) && forall b :: b in bs ==> Prepared(p, b.jid)
    requires Restored(p, bs) == bs
    ensures forall b :: b in bs ==> Readable(b.jid)
  {
    hide Sane, Hereditary, Prepared, Readable, Parse, Full, AllRead, LocalMucs, IgnoreMucs, Stripped;
    AllReadLength(p, bs);
    forall b | b in bs
      ensures Readable(b.jid)
    {
      var k :| 0 <= k < |bs| && bs[k] == b;
      assert Restored(p, bs)[k].jid == Parse(p, Full(b.jid));
      ReadExactly(p, b.jid);
    }
  }

  lemma OwnRoom(bs: seq<ConferenceBookmark>, k: nat)
    requires DistinctRooms(bs) && k < |bs|
    ensures bs[k] in bs && forall x :: x in bs && Bare(x.jid) == Bare(bs[k].jid) ==> x == bs[k]
  {
    forall x | x in bs && Bare(x.jid) == Bare(bs[k].jid)
      ensures x == bs[k]
    {
      var i :| 0 <= i < |bs| && bs[i] == x;
    }
  }

  /** On a computer with no local lists: here only is never, except here is always. */
  lemma Elsewhere(p: Profiles, bs: seq<ConferenceBookmark>)
    ensures Fetched(p, AllRead(p, bs), [], []) == AllRead(p, bs)
    ensures Sane(p) && AllNormal(p, bs) ==> AllRead(p, bs) == AllShared(bs)
    ensures forall k :: 0 <= k < |bs| ==>
              AllShared(bs)[k] == bs[k].(autoJoin := match bs[k].autoJoin
                                                      case Never => Never
                                                      case Always => Always
                                                      case OnlyThisComputer => Never
                                                      case ExceptThisComputer => Always)
  {
    hide AllRead, Sane, AllNormal;
    assert Stripped(p, []) == {};
    if Sane(p) && AllNormal(p, bs) {
      AllReadNormal(p, bs);
    }
  }

  class BookmarkManager {
    const profiles: Profiles
    var urls: seq<URLBookmark>
    var conferences: seq<ConferenceBookmark>
    var isAvailable: bool
    /** Kept by the account. */
    var localMucs: seq<string>
    var ignoreMucs: seq<string>

    constructor (profiles: Profiles, localMucs: seq<string>, ignoreMucs: seq<string>)
      ensures this.profiles == profiles && urls == [] && conferences == [] && !isAvailable
      ensures this.localMucs == localMucs && this.ignoreMucs == ignoreMucs
    {
      this.profiles, this.localMucs, this.ignoreMucs := profiles, localMucs, ignoreMucs;
      urls, conferences, isAvailable := [], [], false;
    }

    method GetBookmarksFinished(success: bool, reply: seq<Node>)
      modifies this`urls, this`conferences, this`isAvailable
      ensures isAvailable == success
      ensures !success ==> urls == old(urls) && conferences == old(conferences)
      ensures success ==> urls == Urls(Stored(reply))
      ensures success ==> conferences == Fetched(profiles, Conferences(profiles, Stored(reply)), localMucs, ignoreMucs)
    {
      if success {
        var us, cs := Take(profiles, reply);
        urls := us;
        var strippedMucs := {};
        for k := 0 to |localMucs|
          invariant strippedMucs == Stripped(profiles, localMucs[..k])
        {
          var j := Parse(profiles, localMucs[k]);
          assert localMucs[..k + 1] == localMucs[..k] + [localMucs[k]];
          if Valid(j) {
            strippedMucs := strippedMucs + {Bare(j)};
          }
        }
        assert localMucs[..|localMucs|] == localMucs;
        conferences := cs;
        for k := 0 to |conferences|
          invariant |conferences| == |cs| && urls == us
          invariant forall i :: 0 <= i < k ==> conferences[i] == Adjusted(cs[i], strippedMucs, ignoreMucs)
          invariant forall i :: k <= i < |cs| ==> conferences[i] == cs[i]
        {
          if Bare(conferences[k].jid) in strippedMucs {
            conferences := conferences[k := conferences[k].(autoJoin := OnlyThisComputer)];
          }
          if Bare(conferences[k].jid) in ignoreMucs {
            conferences := conferences[k := conferences[k].(autoJoin := ExceptThisComputer)];
          }
        }
      }
      isAvailable := success;
    }

    /** The server has the new lists; the join types it cannot keep are kept here. */
    method SetBookmarksFinished(success: bool, newUrls: seq<URLBookmark>, newConferences: seq<ConferenceBookmark>)
      modifies this`urls, this`conferences, this`localMucs, this`ignoreMucs
      ensures success ==> urls == newUrls && conferences == newConferences
      ensures success ==> localMucs == LocalMucs(profiles, newConferences) && ignoreMucs == IgnoreMucs(newConferences)
      ensures !success ==> urls == old(urls) && conferences == old(conferences)
                           && localMucs == old(localMucs) && ignoreMucs == old(ignoreMucs)
    {
      if success {
        conferences := newConferences;
        urls := newUrls;
        var local, ignore := [], [];
        for k := 0 to |conferences|
          invariant local == LocalMucs(profiles, conferences[..k]) && ignore == IgnoreMucs(conferences[..k])
          invariant conferences == newConferences && urls == newUrls
        {
          var cb := conferences[k];
          assert conferences[..k + 1][..k] == conferences[..k];
          if cb.autoJoin == OnlyThisComputer {
            local := local + [Full(WithResource(profiles, cb.jid, cb.nick))];
          }
          if cb.autoJoin == ExceptThisComputer {
            ignore := ignore + [Bare(cb.jid)];
          }
        }
        assert conferences[..|conferences|] == conferences;
        localMucs := local;
        ignoreMucs := ignore;
      }
    }

    /** Saving a list and fetching it again, with whatever else the server puts in its reply. */
    method SaveAndFetch(newUrls: seq<URLBookmark>, newConferences: seq<ConferenceBookmark>,
                        before: seq<Node>, after: seq<Node>)
      requires forall n :: n in before + after ==> !IsStorage(n)
      modifies this
      ensures conferences == Restored(profiles, newConferences) && isAvailable
      ensures URLBookmark("", "") !in newUrls ==> urls == newUrls
    {
      var storage := MakeStorage(newUrls, newConferences);
      SetBookmarksFinished(true, newUrls, newConferences);
      OnlyStorage(before, storage, after);
      FetchedConferences(profiles, newUrls, newConferences);
      NoConferences(profiles, newUrls);
      GetBookmarksFinished(true, before + [storage] + after);
    }

    lemma {:induction false} OnlyStorage(before: seq<Node>, storage: Node, after: seq<Node>)
      requires IsStorage(storage) && forall n :: n in before + after ==> !IsStorage(n)
      ensures Stored(before + [storage] + after) == storage.children
    {
      var all := before + [storage] + after;
      if after != [] {
        OnlyStorage(before, storage, after[..|after| - 1]);
        assert all[..|all| - 1] == before + [storage] + after[..|after| - 1];
        assert after[|after| - 1] in before + after;
      } else {
        assert all[..|all| - 1] == before;
        NoStorage(before);
      }
    }

    lemma {:induction false} NoStorage(ns: seq<Node>)
      requires forall n :: n in ns ==> !IsStorage(n)
      ensures Stored(ns) == []
    {
      if ns != [] {
        NoStorage(ns[..|ns| - 1]);
        assert ns[|ns| - 1] in ns;
      }
    }

    /** The list to be saved when a room is added, if any. */
    method AddConference(newb: ConferenceBookmark) returns (saved: Option<seq<ConferenceBookmark>>)
      ensures saved == if (!isAvailable && (newb.name != "" || Valid(newb.jid)))
                          || exists c :: c in conferences && SameRoom(newb.jid, c.jid)
                       then None else Some(conferences + [newb])
    {
      hide SameBare, SameRoom;
      SameRooms();
      if !isAvailable && !IsNull(newb) {
        return None;
      }
      for k := 0 to |conferences|
        invariant forall c :: c in conferences[..k] ==> !SameBare(newb.jid, c.jid)
      {
        if SameBare(newb.jid, conferences[k].jid) {
          return None;
        }
      }
      assert conferences[..|conferences|] == conferences;
      saved := Some(conferences + [newb]);
    }

    lemma SameRooms()
      ensures forall a, b :: SameRoom(a, b) <==> SameBare(a, b)
    {
    }

    /** The list to be saved when a room is removed. */
    method RemoveConference(j: Jid) returns (saved: Option<seq<ConferenceBookmark>>)
      ensures saved == if isAvailable then Some(Others(conferences, j)) else None
      ensures isAvailable ==> forall c :: c in saved.value <==> c in conferences && !SameRoom(c.jid, j)
    {
      if !isAvailable {
        return None;
      }
      var confs := [];
      for k := 0 to |conferences|
        invariant confs == Others(conferences[..k], j)
      {
        assert conferences[..k + 1][..k] == conferences[..k];
        if !SameBare(conferences[k].jid, j) {
          confs := confs + [conferences[k]];
        }
      }
      assert conferences[..|conferences|] == conferences;
      saved := Some(confs);
      OthersKept(conferences, j);
    }
  }

  function Others(bs: seq<ConferenceBookmark>, j: Jid): seq<ConferenceBookmark> {
    if bs == [] then []
    else Others(bs[..|bs| - 1], j) + if SameBare(bs[|bs| - 1].jid, j) then [] else [bs[|bs| - 1]]
  }

  /** Adding keeps every room bookmarked once, and removing what was added gives the list back. */
  lemma {:induction false} AddedRemoved(bs: seq<ConferenceBookmark>, newb: ConferenceBookmark)
    requires forall c :: c in bs ==> !SameBare(newb.jid, c.jid)
    ensures Others(bs + [newb], newb.jid) == bs
    ensures DistinctRooms(bs) && Valid(newb.jid) && (forall c :: c in bs ==> Valid(c.jid)) ==>
              DistinctRooms(bs + [newb])
  {
    assert (bs + [newb])[..|bs|] == bs;
    assert forall c: ConferenceBookmark :: SameBare(c.jid, newb.jid) <==> SameBare(newb.jid, c.jid);
    NoneRemoved(bs, newb.jid);
  }

  lemma {:induction false} NoneRemoved(bs: seq<ConferenceBookmark>, j: Jid)
    requires forall c :: c in bs ==> !SameBare(c.jid, j)
    ensures Others(bs, j) == bs
  {
    hide SameBare;
    if bs != [] {
      assert bs[|bs| - 1] in bs;
      NoneRemoved(bs[..|bs| - 1], j);
    }
  }

  /** Both are addresses, and of one room, or neither is one. */
  ghost predicate SameRoom(a: Jid, b: Jid) {
    (Valid(a) && Valid(b) && Bare(a) == Bare(b)) || (!Valid(a) && !Valid(b))
  }

  /** After removing a room it is not bookmarked any more, and all others are, as often as before. */
  lemma {:induction false} OthersKept(bs: seq<ConferenceBookmark>, j: Jid)
    ensures forall c :: c in Others(bs, j) <==> c in bs && !SameRoom(c.jid, j)
    ensures forall c :: c in Others(bs, j) ==> multiset(Others(bs, j))[c] == multiset(bs)[c]
  {
    if bs != [] {
      var init, last := bs[..|bs| - 1], bs[|bs| - 1];
      OthersKept(init, j);
      assert bs == init + [last];
      assert forall c :: c in bs <==> c in init || c == last;
    }
  }
}
