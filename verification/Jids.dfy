/** XMPP addresses: node@domain/resource, each part normalised by its string preparation profile. */
module Jids {
  import opened Options

  /** The three profiles; a part may be unacceptable. */
  datatype Profiles = Profiles(node: string -> Option<string>, domain: string -> Option<string>,
                               resource: string -> Option<string>)

  /**
   * An empty node or resource is fine, an empty domain is not; a prepared resource prepares to
   * itself, and a prepared node is free of separators.
   */
  ghost predicate Sane(p: Profiles) {
    && p.node("") == p.resource("") == Some("") && p.domain("") == None
    && (forall s :: p.resource(s).Some? ==> p.resource(p.resource(s).value) == p.resource(s))
    && (forall s :: p.node(s).Some? ==> '@' !in p.node(s).value && '/' !in p.node(s).value)
  }

  /** A part of a prepared domain is prepared, unless it is refused. */
  ghost predicate Hereditary(p: Profiles) {
    forall s, i, k :: p.domain(s) == Some(s) && 0 <= i <= k <= |s| && p.domain(s[i..k]).Some? ==>
      p.domain(s[i..k]) == Some(s[i..k])
  }

  /** An address that is not valid has all its parts empty. */
  datatype Jid = Jid(node: string, domain: string, resource: string)

  const INVALID := Jid("", "", "")

  function Bare(j: Jid): string {
    if j.node == "" then j.domain else j.node + "@" + j.domain
  }

  function Full(j: Jid): string {
    if j.resource == "" then Bare(j) else Bare(j) + "/" + j.resource
  }

  predicate Valid(j: Jid) {
    Full(j) != ""
  }

  /** The position of the first `c`, or the length. */
  function Find(s: string, c: char): (k: nat)
    ensures k <= |s| && c !in s[..k] && (k < |s| ==> s[k] == c)
  {
    if s == "" || s[0] == c then 0
    else
      assert s[..1 + Find(s[1..], c)] == [s[0]] + s[1..][..Find(s[1..], c)];
      1 + Find(s[1..], c)
  }

  function Made(p: Profiles, node: string, domain: string, resource: string): Jid {
    var n, d, r := p.node(node), p.domain(domain), p.resource(resource);
    if n.Some? && d.Some? && r.Some? then Jid(n.value, d.value, r.value) else INVALID
  }

  function Parse(p: Profiles, s: string): Jid {
    var x := Find(s, '/');
    var rest, resource := s[..x], if x < |s| then s[x + 1..] else "";
    var y := Find(rest, '@');
    if y < |rest| then Made(p, rest[..y], rest[y + 1..], resource) else Made(p, "", rest, resource)
  }

  function WithResource(p: Profiles, j: Jid, s: string): Jid {
    if j.resource == s || !Valid(j) then j
    else match p.resource(s)
         case None => INVALID
         case Some(r) => j.(resource := r)
  }

  /** Equal bare addresses; two invalid ones compare equal as well. */
  predicate SameBare(a: Jid, b: Jid) {
    if !Valid(a) || !Valid(b) then !Valid(a) && !Valid(b) else Bare(a) == Bare(b)
  }

  ghost predicate Prepared(p: Profiles, j: Jid) {
    p.node(j.node) == Some(j.node) && p.domain(j.domain) == Some(j.domain) && p.resource(j.resource) == Some(j.resource)
  }

  /** The parts can be told again when they are written one after the other. */
  predicate Readable(j: Jid) {
    '/' !in j.domain && (j.node == "" ==> '@' !in j.domain)
  }

  ghost predicate Normal(p: Profiles, j: Jid) {
    Prepared(p, j) && Readable(j)
  }

  lemma FindUnique(s: string, c: char, k: nat)
    requires k <= |s| && c !in s[..k] && (k < |s| ==> s[k] == c)
    ensures Find(s, c) == k
  {
    var f := Find(s, c);
    assert forall i :: 0 <= i < k ==> s[..k][i] == s[i];
    assert forall i :: 0 <= i < f ==> s[..f][i] == s[i];
  }

  /** Written out and read in again, a normal address is the same. */
  lemma ParseFull(p: Profiles, j: Jid)
    requires Sane(p) && Normal(p, j)
    ensures Parse(p, Full(j)) == j
    ensures Full(j) == (if j.node == "" then "" else j.node + "@") + j.domain
                       + (if j.resource == "" then "" else "/" + j.resource)
  {
    var b, s := Bare(j), Full(j);
    assert '/' !in j.node && '@' !in j.node by { assert p.node(j.node) == Some(j.node); }
    assert '/' !in b;
    assert s[..|b|] == b;
    FindUnique(s, '/', |b|);
    assert j.resource != "" ==> s[|b| + 1..] == j.resource;
    if j.node == "" {
      assert b[..|b|] == b;
      FindUnique(b, '@', |b|);
    } else {
      assert b[..|j.node|] == j.node && b[|j.node| + 1..] == j.domain;
      FindUnique(b, '@', |j.node|);
    }
  }

  /** Reading only part of the domain never gives the address back. */
  lemma PartDiffers(p: Profiles, j: Jid, node: string, i: nat, k: nat, resource: string)
    requires Sane(p) && Hereditary(p) && Prepared(p, j)
    requires i <= k <= |j.domain| && k - i < |j.domain|
    ensures Made(p, node, j.domain[i..k], resource) != j
  {
    assert j.domain != "";
  }

  /** A prepared address written out and read in again is the same exactly if its parts can be told again. */
  lemma ReadExactly(p: Profiles, j: Jid)
    requires Sane(p) && Hereditary(p) && Prepared(p, j)
    ensures Parse(p, Full(j)) == j <==> Readable(j)
  {
    if Readable(j) {
      ParseFull(p, j);
    } else {
      Unreadable(p, j);
    }
  }

  lemma NodeFree(p: Profiles, j: Jid)
    requires Sane(p) && Prepared(p, j)
    ensures '/' !in j.node && '@' !in j.node && j.domain != ""
  {
    assert p.node(j.node) == Some(j.node);
  }

  lemma Unreadable(p: Profiles, j: Jid)
    requires Sane(p) && Hereditary(p) && Prepared(p, j) && !Readable(j)
    ensures Parse(p, Full(j)) != j
  {
    hide Made, Hereditary, Find, Sane, Prepared;
    NodeFree(p, j);
    var s, k := Full(j), Find(j.domain, '/');
    var before := if j.node == "" then "" else j.node + "@";
    SlashAt(j, before, k);
    var x := Find(s, '/');
    var resource := if x < |s| then s[x + 1..] else "";
    var rest := before + j.domain[..k];
    if j.node == "" {
      var y := Find(rest, '@');
      assert rest == j.domain[..k] == j.domain[0..k];
      if y < k {
        assert rest[y + 1..] == j.domain[y + 1..k];
        PartDiffers(p, j, rest[..y], y + 1, k, resource);
      } else {
        Separated(j.domain, k);
        PartDiffers(p, j, "", 0, k, resource);
      }
    } else {
      assert rest[..|j.node|] == j.node && rest[|j.node| + 1..] == j.domain[..k] == j.domain[0..k];
      FindUnique(rest, '@', |j.node|);
      PartDiffers(p, j, j.node, 0, k, resource);
    }
  }

  lemma Separated(domain: string, k: nat)
    requires k <= |domain| && '/' !in domain[..k] && '@' !in domain[..k] && ('/' in domain || '@' in domain)
    ensures k < |domain|
  {
    assert domain[..|domain|] == domain;
  }

  /** The first slash of an address is in its domain, or else behind it. */
  lemma SlashAt(j: Jid, before: string, k: nat)
    requires '/' !in j.node && before == (if j.node == "" then "" else j.node + "@") && k == Find(j.domain, '/')
    ensures var s := Full(j);
            && Find(s, '/') == |before| + k && s[..|before| + k] == before + j.domain[..k]
            && (|before| + k < |s| <==> k < |j.domain| || j.resource != "")
  {
    var s := Full(j);
    assert Bare(j) == before + j.domain;
    assert s[..|before| + k] == before + j.domain[..k];
    FindUnique(s, '/', |before| + k);
  }

  /** As with an empty node before a domain with an at sign. */
  lemma ParseFullFails()
    ensures var p := Profiles(s => if '@' in s || '/' in s then None else Some(s),
                              s => if s == "" then None else Some(s), s => Some(s));
            && Sane(p) && Hereditary(p)
            && Parse(p, "@b@c") == Jid("", "b@c", "") && Parse(p, Full(Parse(p, "@b@c"))) == Jid("b", "c", "")
  {
    FindUnique("@b@c", '/', 4);
    assert "@b@c"[..4] == "@b@c";
    FindUnique("@b@c", '@', 0);
    assert "@b@c"[1..] == "b@c" && "@b@c"[..0] == "";
    FindUnique("b@c", '/', 3);
    assert "b@c"[..3] == "b@c";
    FindUnique("b@c", '@', 1);
    assert "b@c"[..1] == "b" && "b@c"[2..] == "c";
  }

  /** An address with a nick for its resource still reads as the same room. */
  lemma RoomRead(p: Profiles, j: Jid, nick: string)
    requires Sane(p) && Normal(p, j)
    ensures var read := Parse(p, Full(WithResource(p, j, nick)));
            if nick == j.resource || p.resource(nick).Some? then Valid(read) && Bare(read) == Bare(j) else !Valid(read)
  {
    assert Valid(j);
    if nick == j.resource || p.resource(nick).Some? {
      ParseFull(p, WithResource(p, j, nick));
    } else {
      assert Full(INVALID) == "";
      FindUnique("", '/', 0);
      FindUnique("", '@', 0);
      assert Parse(p, "") == INVALID;
    }
  }
}
