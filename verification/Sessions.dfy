/** Which chat window a web request belongs to: by its header, else by the beginning of its path. */
module Sessions {
  import opened Options
  import opened Strings
  import Numerals

  type Handler = nat

  /** A registered session; a handler may have been none from the start. */
  datatype Entry = Entry(key: string, handler: Option<Handler>)

  datatype Request = Request(psiId: Option<string>, path: string)

  /** Who gets the request, with what path, and the base path when it was found by path. */
  datatype Routing = Unhandled | Handled(handler: Handler, basePath: Option<string>, path: string)

  // ---- Keys in order -------------------------------------------------------------------------------

  ghost predicate Ascending(entries: seq<Entry>) {
    forall i, j :: 0 <= i < j < |entries| ==> Before(entries[i].key, entries[j].key)
  }

  function Find(entries: seq<Entry>, key: string): Option<Handler> {
    if entries == [] then None
    else if entries[0].key == key then entries[0].handler
    else Find(entries[1..], key)
  }

  lemma {:induction false} FindFirst(entries: seq<Entry>, key: string)
    ensures match Find(entries, key)
            case Some(h) => Entry(key, Some(h)) in entries
            case None => Ascending(entries) ==> forall e :: e in entries && e.key == key ==> e.handler == None
  {
    if entries != [] {
      FindFirst(entries[1..], key);
      if entries[0].key == key {
        assert entries[0] in entries;
        forall e | e in entries && e.key == key && Ascending(entries)
          ensures e == entries[0]
        {
          var k :| 0 <= k < |entries| && entries[k] == e;
          BeforeTotal(key, key);
        }
      } else {
        assert Ascending(entries) ==> Ascending(entries[1..]);
      }
    }
  }

  // ---- The rule ----------------------------------------------------------------------------------

  predicate Matches(isLetter: char -> bool, key: string, path: string) {
    key <= path && (|path| == |key| || !isLetter(path[|key|]))
  }

  function Live(entries: seq<Entry>): (r: seq<Entry>)
    ensures forall e :: e in r <==> e in entries && e.handler.Some?
  {
    if entries == [] then []
    else
      var last := entries[|entries| - 1];
      assert entries == entries[..|entries| - 1] + [last];
      Live(entries[..|entries| - 1]) + if last.handler.Some? then [last] else []
  }

  lemma {:induction false} LiveAscending(entries: seq<Entry>)
    requires Ascending(entries)
    ensures Ascending(Live(entries))
  {
    if entries != [] {
      LiveAscending(entries[..|entries| - 1]);
      assert forall e :: e in entries[..|entries| - 1] ==> Before(e.key, entries[|entries| - 1].key);
    }
  }

  /** The longest live key that the path begins with, if any. */
  ghost predicate Longest(isLetter: char -> bool, entries: seq<Entry>, path: string, found: Option<Entry>) {
    match found
    case None => forall e :: e in entries && e.handler.Some? ==> !Matches(isLetter, e.key, path)
    case Some(f) =>
      && f in entries && f.handler.Some? && Matches(isLetter, f.key, path)
      && forall e :: e in entries && e.handler.Some? && Matches(isLetter, e.key, path) ==> |e.key| <= |f.key|
  }

  /** The session found gets what follows its key. */
  function ByPath(found: Option<Entry>, path: string): Routing {
    if found.None? || found.value.handler.None? || |found.value.key| > |path| then Unhandled
    else Handled(found.value.handler.value, Some("/" + found.value.key), path[|found.value.key|..])
  }

  /** The session is live, and the path begins with its key, with no letter next. */
  ghost predicate Answers(isLetter: char -> bool, e: Entry, path: string) {
    e.handler.Some? && e.key <= path && (path == e.key || !isLetter(path[|e.key|]))
  }

  /**
   * Nobody answers `path` and it is unhandled, or it is cut in two: a live session's key behind a
   * slash, the longest there is, and what that session's handler gets.
   */
  ghost predicate Divided(isLetter: char -> bool, entries: seq<Entry>, path: string, r: Routing) {
    match r
    case Unhandled => forall e :: e in entries ==> !Answers(isLetter, e, path)
    case Handled(handler, None, _) => false
    case Handled(handler, Some(base), rest) =>
      && base + rest == "/" + path && (rest == "" || !isLetter(rest[0]))
      && base != "" && Entry(base[1..], Some(handler)) in entries
      && forall e :: e in entries && Answers(isLetter, e, path) ==> |e.key| < |base|
  }

  lemma ByPathDivides(isLetter: char -> bool, entries: seq<Entry>, path: string, found: Option<Entry>)
    requires Longest(isLetter, entries, path, found)
    ensures Divided(isLetter, entries, path, ByPath(found, path))
  {
    forall e | e in entries
      ensures Answers(isLetter, e, path) <==> e.handler.Some? && Matches(isLetter, e.key, path)
    {
      if e.key <= path && |e.key| == |path| {
        assert path[..|e.key|] == path;
      }
    }
    if found.Some? {
      var base := "/" + found.value.key;
      assert base[1..] == found.value.key;
      assert path == found.value.key + path[|found.value.key|..];
    }
  }

  /** Of two keys that match one path, the later is the longer. */
  lemma LaterIsLonger(isLetter: char -> bool, a: string, b: string, path: string)
    requires Matches(isLetter, a, path) && Matches(isLetter, b, path) && Before(a, b)
    ensures a < b
  {
    assert a == path[..|a|] && b == path[..|b|];
    if |b| <= |a| {
      assert b == a[..|b|];
      if |b| < |a| { PrefixBefore(b, a); }
      BeforeTotal(a, b);
    }
  }

  lemma LongestStep(isLetter: char -> bool, entries: seq<Entry>, n: nat, path: string, found: Option<Entry>)
    requires Ascending(entries) && n < |entries| && Longest(isLetter, entries[..n], path, found)
    ensures var e := entries[n];
            Longest(isLetter, entries[..n + 1], path,
                    if e.handler.Some? && Matches(isLetter, e.key, path) then Some(e) else found)
  {
    var e := entries[n];
    assert entries[..n + 1] == entries[..n] + [e];
    if e.handler.Some? && Matches(isLetter, e.key, path) && found.Some? {
      assert Before(found.value.key, e.key);
      LaterIsLonger(isLetter, found.value.key, e.key, path);
    }
  }

  lemma Shifted(kept: seq<Entry>, entries: seq<Entry>, n: nat)
    requires n < |entries|
    ensures var s, k := kept + entries[n..], |kept|;
            && s[k] == entries[n] && s[..k] + s[k + 1..] == kept + entries[n + 1..]
            && s == kept + [entries[n]] + entries[n + 1..] && kept + [] == kept
  {
  }

  lemma LongestOfNone(isLetter: char -> bool, path: string)
    ensures Longest(isLetter, [], path, None) && Live([]) == []
  {
  }

  lemma LiveStep(entries: seq<Entry>, n: nat)
    requires n < |entries|
    ensures Live(entries[..n + 1]) == Live(entries[..n]) + if entries[n].handler.Some? then [entries[n]] else []
  {
    assert entries[..n + 1][..n] == entries[..n];
  }

  // ---- Session ids ---------------------------------------------------------------------------------

  const STEP := 0x10
  const MAX_INT := 0x7fff_ffff

  function SessionId(seed: nat): string {
    "t" + Numerals.Numeral(seed, 16)
  }

  lemma SessionIdsDiffer(m: nat, n: nat)
    requires SessionId(m) == SessionId(n)
    ensures m == n
  {
    assert SessionId(m)[1..] == Numerals.Numeral(m, 16) && SessionId(n)[1..] == Numerals.Numeral(n, 16);
    Numerals.Injective(m, n, 16);
  }

  predicate Issued(key: string, seed: nat) {
    exists n :: 0 <= n < seed && n % STEP == 0 && key == SessionId(n)
  }

  lemma NoSlash(key: string, seed: nat)
    requires Issued(key, seed)
    ensures '/' !in key
  {
    var n :| 0 <= n < seed && n % STEP == 0 && key == SessionId(n);
  }

  class ChatViewCon {
    const isLetter: char -> bool
    var sessionHandlers: seq<Entry>
    var handlerSeed: nat

    ghost predicate Valid()
      reads this
    {
      && Ascending(sessionHandlers) && !isLetter('/')
      && handlerSeed % STEP == 0 && handlerSeed <= MAX_INT
      && forall e :: e in sessionHandlers ==> Issued(e.key, handlerSeed)
    }

    constructor (isLetter: char -> bool)
      requires !isLetter('/')
      ensures Valid() && sessionHandlers == [] && this.isLetter == isLetter
    {
      this.isLetter := isLetter;
      sessionHandlers, handlerSeed := [], 0;
    }

    /** QMap::insert, for a key that is not there yet. */
    method Insert(key: string, handler: Option<Handler>)
      requires Ascending(sessionHandlers) && forall e :: e in sessionHandlers ==> e.key != key
      modifies this`sessionHandlers
      ensures Ascending(sessionHandlers)
      ensures forall e :: e in sessionHandlers <==> e in old(sessionHandlers) || e == Entry(key, handler)
      ensures exists k :: 0 <= k <= |old(sessionHandlers)| &&
                          sessionHandlers == old(sessionHandlers[..k] + [Entry(key, handler)] + sessionHandlers[k..])
    {
      var k := 0;
      while k < |sessionHandlers| && Before(sessionHandlers[k].key, key)
        invariant 0 <= k <= |sessionHandlers|
        invariant forall i :: 0 <= i < k ==> Before(sessionHandlers[i].key, key)
      {
        k := k + 1;
      }
      forall i | k <= i < |sessionHandlers|
        ensures Before(key, sessionHandlers[i].key)
      {
        assert sessionHandlers[i] in sessionHandlers && sessionHandlers[k] in sessionHandlers;
        BeforeTotal(key, sessionHandlers[k].key);
        if k < i {
          BeforeTransitive(key, sessionHandlers[k].key, sessionHandlers[i].key);
        }
      }
      sessionHandlers := sessionHandlers[..k] + [Entry(key, handler)] + sessionHandlers[k..];
    }

    /** Issues an id that nobody has, nor ever had. */
    method RegisterSessionHandler(handler: Option<Handler>) returns (s: string)
      requires Valid() && handlerSeed + STEP <= MAX_INT
      modifies this
      ensures Valid() && handlerSeed == old(handlerSeed) + STEP
      ensures s == "t" + Numerals.Numeral(old(handlerSeed), 16) && !Issued(s, old(handlerSeed))
      ensures forall e :: e in old(sessionHandlers) ==> e.key != s
      ensures forall e :: e in sessionHandlers <==> e in old(sessionHandlers) || e == Entry(s, handler)
    {
      s := SessionId(handlerSeed);
      Fresh(handlerSeed);
      Insert(s, handler);
      forall e | e in sessionHandlers
        ensures Issued(e.key, handlerSeed + STEP)
      {
        if e in old(sessionHandlers) {
          var n :| 0 <= n < handlerSeed && n % STEP == 0 && e.key == SessionId(n);
        }
      }
      handlerSeed := handlerSeed + STEP;
    }

    lemma Fresh(seed: nat)
      ensures !Issued(SessionId(seed), seed)
    {
      if Issued(SessionId(seed), seed) {
        var n :| 0 <= n < seed && n % STEP == 0 && SessionId(seed) == SessionId(n);
        SessionIdsDiffer(n, seed);
      }
    }

    method UnregisterSessionHandler(key: string)
      requires Valid()
      modifies this`sessionHandlers
      ensures Valid()
      ensures forall e :: e in sessionHandlers <==> e in old(sessionHandlers) && e.key != key
    {
      var k := 0;
      while k < |sessionHandlers| && sessionHandlers[k].key != key
        invariant 0 <= k <= |sessionHandlers| && forall i :: 0 <= i < k ==> sessionHandlers[i].key != key
      {
        k := k + 1;
      }
      if k < |sessionHandlers| {
        assert sessionHandlers == sessionHandlers[..k] + [sessionHandlers[k]] + sessionHandlers[k + 1..];
        forall i | k < i < |sessionHandlers|
          ensures sessionHandlers[i].key != key
        {
          BeforeTotal(key, key);
        }
        sessionHandlers := sessionHandlers[..k] + sessionHandlers[k + 1..];
      }
    }

    /** Finds who a request is for; sessions without a handler are cleared away on the way. */
    method Route(req: Request) returns (r: Routing, ghost found: Option<Entry>)
      requires Valid()
      modifies this`sessionHandlers
      ensures Valid()
      ensures var named := if req.psiId.Some? then Find(old(sessionHandlers), req.psiId.value) else None;
              if named.Some? then r == Handled(named.value, None, req.path) && sessionHandlers == old(sessionHandlers)
              else if |req.path| <= 1 then r == Unhandled && sessionHandlers == old(sessionHandlers)
              else && Longest(isLetter, old(sessionHandlers), req.path[1..], found)
                   && r == ByPath(found, req.path[1..]) && sessionHandlers == Live(old(sessionHandlers))
      ensures forall h: Handler :: req.psiId.Some? && Entry(req.psiId.value, Some(h)) in old(sessionHandlers) ==>
                r == Handled(h, None, req.path)
      ensures (forall h: Handler :: req.psiId.Some? ==> Entry(req.psiId.value, Some(h)) !in old(sessionHandlers)) ==>
                && (if |req.path| <= 1 then r == Unhandled
                    else Divided(isLetter, old(sessionHandlers), req.path[1..], r))
                && forall e :: e in old(sessionHandlers) && e.handler.Some? && "/" + e.key <= req.path
                               && (|req.path| == 1 + |e.key| || req.path[1 + |e.key|] == '/') ==>
                     r == Handled(e.handler.value, Some("/" + e.key), req.path[1 + |e.key|..])
    {
      hide Longest, Live, Divided, Issued, ByPath;
      if req.psiId.Some? {
        NamedOnly(sessionHandlers, req.psiId.value);
      }
      found := None;
      var handler: Option<Handler> := None;
      if req.psiId.Some? {
        handler := Find(sessionHandlers, req.psiId.value);
      }
      r := if handler.Some? then Handled(handler.value, None, req.path) else Unhandled;
      if handler == None && |req.path| > 1 {
        r, found := RouteByPath(req.path[1..]);
      }
      if handler == None {
        forall e | e in old(sessionHandlers) && e.handler.Some? && "/" + e.key <= req.path
                   && (|req.path| == 1 + |e.key| || req.path[1 + |e.key|] == '/')
          ensures r == Handled(e.handler.value, Some("/" + e.key), req.path[1 + |e.key|..])
        {
          OwnRequest(isLetter, old(sessionHandlers), handlerSeed, e, req.path, found);
        }
      }
    }

    method RouteByPath(baPath: string) returns (r: Routing, ghost found: Option<Entry>)
      requires Valid()
      modifies this`sessionHandlers
      ensures Valid() && sessionHandlers == Live(old(sessionHandlers))
      ensures Longest(isLetter, old(sessionHandlers), baPath, found)
      ensures r == ByPath(found, baPath) && Divided(isLetter, old(sessionHandlers), baPath, r)
    {
      hide Longest, Live, Ascending, Issued, Divided;
      r, found := Unhandled, None;
      LongestOfNone(isLetter, baPath);
      var k := 0;
      ghost var n := 0;
      ghost var all := sessionHandlers;
      while k < |sessionHandlers|
        invariant 0 <= n <= |all| && k == |Live(all[..n])|
        invariant sessionHandlers == Live(all[..n]) + all[n..]
        invariant Longest(isLetter, all[..n], baPath, found)
        invariant r == ByPath(found, baPath)
        decreases |all| - n
      {
        var e := sessionHandlers[k];
        assert e == all[n];
        LiveStep(all, n);
        Shifted(Live(all[..n]), all, n);
        LongestStep(isLetter, all, n, baPath, found);
        if e.handler == None {
          sessionHandlers := sessionHandlers[..k] + sessionHandlers[k + 1..];
          assert sessionHandlers == Live(all[..n + 1]) + all[n + 1..];
        } else {
          assert sessionHandlers == Live(all[..n + 1]) + all[n + 1..];
          if Matches(isLetter, e.key, baPath) {
            r := Handled(e.handler.value, Some("/" + e.key), baPath[|e.key|..]);
            found := Some(e);
            assert r == ByPath(found, baPath);
          }
          k := k + 1;
        }
        n := n + 1;
      }
      assert all[..n] == all;
      assert sessionHandlers == Live(all);
      LiveKeys(all, handlerSeed);
      ByPathDivides(isLetter, all, baPath, found);
    }

    lemma LiveKeys(entries: seq<Entry>, seed: nat)
      requires Ascending(entries) && forall e :: e in entries ==> Issued(e.key, seed)
      ensures Ascending(Live(entries)) && forall e :: e in Live(entries) ==> Issued(e.key, seed)
    {
      hide Issued;
      LiveAscending(entries);
    }
  }

  // ---- Windows get their own requests ------------------------------------------------------------------

  /** A path naming a live session, and maybe more behind a slash, is that session's, whatever prefixes are live too. */
  lemma OwnPath(isLetter: char -> bool, entries: seq<Entry>, seed: nat, e: Entry, rest: string, found: Option<Entry>)
    requires Ascending(entries) && !isLetter('/') && forall x :: x in entries ==> Issued(x.key, seed)
    requires e in entries && e.handler.Some? && (rest == "" || rest[0] == '/')
    requires Longest(isLetter, entries, e.key + rest, found)
    ensures found == Some(e)
  {
    var path := e.key + rest;
    assert Matches(isLetter, e.key, path);
    var f := found.value;
    if |f.key| > |e.key| {
      assert f.key[|e.key|] == path[|e.key|] == '/';
      NoSlash(f.key, seed);
    } else {
      assert f.key == path[..|e.key|] == e.key;
      var i :| 0 <= i < |entries| && entries[i] == e;
      var j :| 0 <= j < |entries| && entries[j] == f;
      BeforeTotal(e.key, e.key);
    }
  }

  /** And the session is given what stands behind its key. */
  lemma OwnRequest(isLetter: char -> bool, entries: seq<Entry>, seed: nat, e: Entry, path: string, found: Option<Entry>)
    requires Ascending(entries) && !isLetter('/') && forall x :: x in entries ==> Issued(x.key, seed)
    requires e in entries && e.handler.Some? && "/" + e.key <= path
    requires |path| == 1 + |e.key| || path[1 + |e.key|] == '/'
    requires |path| > 1 ==> Longest(isLetter, entries, path[1..], found)
    ensures |path| > 1
    ensures ByPath(found, path[1..]) == Handled(e.handler.value, Some("/" + e.key), path[1 + |e.key|..])
  {
    var n :| 0 <= n < seed && n % STEP == 0 && e.key == SessionId(n);
    var rest := path[1 + |e.key|..];
    assert ("/" + e.key)[1..] == e.key;
    assert path[1..] == e.key + rest;
    OwnPath(isLetter, entries, seed, e, rest, found);
    assert (e.key + rest)[|e.key|..] == rest;
  }

  lemma NamedOnly(entries: seq<Entry>, key: string)
    requires Ascending(entries)
    ensures forall h: Handler :: Entry(key, Some(h)) in entries <==> Find(entries, key) == Some(h)
  {
    FindFirst(entries, key);
    forall h: Handler | Entry(key, Some(h)) in entries
      ensures Find(entries, key) == Some(h)
    {
      var k :| 0 <= k < |entries| && entries[k] == Entry(key, Some(h));
      match Find(entries, key)
      case Some(g) =>
        var j :| 0 <= j < |entries| && entries[j] == Entry(key, Some(g));
        BeforeTotal(key, key);
      case None =>
    }
  }

  /**
   * A path naming no live session still goes to another, exactly if that is a live beginning of
   * the name with no letter next: t100 is answered by t10.
   */
  lemma StrayPath(isLetter: char -> bool, entries: seq<Entry>, seed: nat, id: string, rest: string,
                  found: Option<Entry>)
    requires !isLetter('/') && forall x :: x in entries ==> Issued(x.key, seed)
    requires '/' !in id && (rest == "" || rest[0] == '/')
    requires forall x :: x in entries && x.handler.Some? ==> x.key != id
    requires Longest(isLetter, entries, id + rest, found)
    ensures found.Some? <==>
            exists x :: x in entries && x.handler.Some? && x.key < id && !isLetter(id[|x.key|])
  {
    var path := id + rest;
    forall x | x in entries && x.handler.Some?
      ensures Matches(isLetter, x.key, path) <==> x.key < id && !isLetter(id[|x.key|])
    {
      if x.key <= path {
        assert x.key == path[..|x.key|];
        if |x.key| <= |id| {
          assert path[..|x.key|] == id[..|x.key|];
        } else {
          assert x.key[|id|] == path[|id|] == '/';
          NoSlash(x.key, seed);
        }
      }
      if x.key < id {
        assert path[|x.key|] == id[|x.key|];
      }
    }
  }

  /** It does happen with the ids that are issued. */
  lemma Stray()
    ensures SessionId(0x10) == "t10" && SessionId(0x100) == "t100"
    ensures SessionId(0x10) < SessionId(0x100) && SessionId(0x100)[|SessionId(0x10)|] == '0'
  {
    assert Numerals.Numeral(0x1, 16) == "1";
    assert Numerals.Numeral(0x10, 16) == "10";
    assert Numerals.Numeral(0x100, 16) == "100";
  }
}
