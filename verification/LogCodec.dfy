/** History files hold one event a line with fields between bars; text is escaped to fit in. */
module LogCodec {

  /** QString::replace of a single character. */
  function Replaced(s: string, c: char, after: string): string {
    if s == "" then "" else Replaced(s[..|s| - 1], c, after) + if s[|s| - 1] == c then after else [s[|s| - 1]]
  }

  function Escape(c: char): string {
    if c == '\\' then "\\\\" else if c == '|' then "\\p" else if c == '\n' then "\\n" else [c]
  }

  /** Character by character. */
  function Escaped(s: string): string {
    if s == "" then "" else Escaped(s[..|s| - 1]) + Escape(s[|s| - 1])
  }

  lemma ReplacedLast(s: string, x: char, c: char, after: string)
    ensures Replaced(s + [x], c, after) == Replaced(s, c, after) + if x == c then after else [x]
    ensures Replaced("", c, after) == ""
  {
    assert (s + [x])[..|s|] == s;
  }

  lemma {:induction false} ReplacedConcat(a: string, b: string, c: char, after: string)
    ensures Replaced(a + b, c, after) == Replaced(a, c, after) + Replaced(b, c, after)
  {
    hide Replaced;
    if b == "" {
      assert a + b == a;
      ReplacedLast("", c, c, after);
    } else {
      var init, x := b[..|b| - 1], b[|b| - 1];
      ReplacedConcat(a, init, c, after);
      ReplacedLast(init, x, c, after);
      ReplacedLast(a + init, x, c, after);
      assert b == init + [x] && a + b == a + init + [x];
    }
  }

  lemma ReplacedOne(x: char, c: char, after: string)
    ensures Replaced([x], c, after) == if x == c then after else [x]
  {
    assert [x][..0] == "";
  }

  /** The three replacements one after the other escape each character once. */
  lemma {:induction false} ThreeReplacements(s: string)
    ensures Replaced(Replaced(Replaced(s, '\\', "\\\\"), '|', "\\p"), '\n', "\\n") == Escaped(s)
  {
    if s != "" {
      hide Replaced;
      var init, x := s[..|s| - 1], s[|s| - 1];
      ThreeReplacements(init);
      assert s == init + [x];
      ReplacedConcat(init, [x], '\\', "\\\\");
      var one := Replaced([x], '\\', "\\\\");
      ReplacedConcat(Replaced(init, '\\', "\\\\"), one, '|', "\\p");
      var two := Replaced(one, '|', "\\p");
      ReplacedConcat(Replaced(Replaced(init, '\\', "\\\\"), '|', "\\p"), two, '\n', "\\n");
      OneCharacter(x);
    }
  }

  lemma OneCharacter(x: char)
    ensures Replaced(Replaced(Replaced([x], '\\', "\\\\"), '|', "\\p"), '\n', "\\n") == Escape(x)
  {
    hide Replaced;
    ReplacedOne(x, '\\', "\\\\");
    if x == '\\' {
      assert "\\\\" == ['\\'] + ['\\'];
      ReplacedConcat(['\\'], ['\\'], '|', "\\p");
      ReplacedConcat(['\\'], ['\\'], '\n', "\\n");
      ReplacedOne('\\', '|', "\\p");
      ReplacedOne('\\', '\n', "\\n");
    } else {
      ReplacedOne(x, '|', "\\p");
      if x == '|' {
        assert "\\p" == ['\\'] + ['p'];
        ReplacedConcat(['\\'], ['p'], '\n', "\\n");
        ReplacedOne('\\', '\n', "\\n");
        ReplacedOne('p', '\n', "\\n");
      } else {
        ReplacedOne(x, '\n', "\\n");
      }
    }
  }

  method LogEncode(s: string) returns (str: string)
    ensures str == Escaped(s)
  {
    str := Replaced(s, '\\', "\\\\");
    str := Replaced(str, '|', "\\p");
    str := Replaced(str, '\n', "\\n");
    ThreeReplacements(s);
  }

  function Unescape(c: char): string {
    if c == 'n' then "\n" else if c == 'p' then "|" else if c == '\\' then "\\" else ""
  }

  function Decoded(s: string): string {
    if s == "" then ""
    else if s[0] == '\\' then if |s| == 1 then "" else Unescape(s[1]) + Decoded(s[2..])
    else [s[0]] + Decoded(s[1..])
  }

  lemma DecodedNext(str: string, n: nat)
    requires n < |str|
    ensures str[n] != '\\' ==> Decoded(str[n..]) == [str[n]] + Decoded(str[n + 1..])
    ensures str[n] == '\\' && n + 1 < |str| ==> Decoded(str[n..]) == Unescape(str[n + 1]) + Decoded(str[n + 2..])
    ensures str[n] == '\\' && n + 1 == |str| ==> Decoded(str[n..]) == ""
  {
    hide Unescape;
    assert str[n..][1..] == str[n + 1..];
    assert n + 1 < |str| ==> str[n..][2..] == str[n + 2..];
  }

  method LogDecode(str: string) returns (ret: string)
    ensures ret == Decoded(str)
  {
    hide Decoded;
    ret := "";
    var n := 0;
    assert str[0..] == str;
    while n < |str|
      invariant 0 <= n <= |str| && ret + Decoded(str[n..]) == Decoded(str)
    {
      DecodedNext(str, n);
      ghost var before := ret;
      if str[n] == '\\' {
        n := n + 1;
        if n >= |str| {
          return;
        }
        if str[n] == 'n' {
          ret := ret + "\n";
        }
        if str[n] == 'p' {
          ret := ret + "|";
        }
        if str[n] == '\\' {
          ret := ret + "\\";
        }
        assert ret == before + Unescape(str[n]);
      } else {
        ret := ret + [str[n]];
      }
      n := n + 1;
    }
    NothingLeft(str);
  }

  lemma NothingLeft(str: string)
    ensures Decoded(str[|str|..]) == ""
  {
  }

  predicate Plain(s: string) {
    '\n' !in s && '|' !in s
  }

  lemma {:induction false} EscapedConcat(a: string, b: string)
    ensures Escaped(a + b) == Escaped(a) + Escaped(b)
  {
    if b == "" {
      assert a + b == a;
    } else {
      assert (a + b)[..|a + b| - 1] == a + b[..|b| - 1];
      EscapedConcat(a, b[..|b| - 1]);
    }
  }

  lemma EscapedFront(s: string)
    requires s != ""
    ensures Escaped(s) == Escape(s[0]) + Escaped(s[1..])
    ensures Escape(s[0]) == match s[0]
                            case '\\' => ['\\', '\\']
                            case '|' => ['\\', 'p']
                            case '\n' => ['\\', 'n']
                            case c => [c]
  {
    assert s == [s[0]] + s[1..];
    EscapedConcat([s[0]], s[1..]);
    assert [s[0]][..0] == "";
    assert Escaped([s[0]]) == Escape(s[0]);
  }

  lemma DecodedEscape(x: char, rest: string)
    ensures Decoded(Escape(x) + rest) == [x] + Decoded(rest)
    ensures Plain(Escape(x))
  {
    var e := Escape(x);
    assert (e + rest)[|e|..] == rest;
    assert [x] == if |e| == 2 then Unescape(e[1]) else e;
  }

  /** Text comes back as it was, and what is stored fits in one field of one line. */
  lemma {:induction false} RoundTrip(s: string)
    ensures Decoded(Escaped(s)) == s && Plain(Escaped(s))
  {
    hide Decoded, Escape, Escaped;
    if s == "" {
      NothingEscaped();
    } else {
      RoundTrip(s[1..]);
      EscapedFront(s);
      DecodedEscape(s[0], Escaped(s[1..]));
      assert s == [s[0]] + s[1..];
    }
  }

  lemma NothingEscaped()
    ensures Escaped("") == Decoded("") == "" && Plain("") && WellEscaped("")
  {
  }

  /** Every backslash begins one of the three escapes. */
  predicate WellEscaped(s: string) {
    if s == "" then true
    else if s[0] == '\\' then |s| > 1 && s[1] in "np\\" && WellEscaped(s[2..])
    else s[0] != '\n' && s[0] != '|' && WellEscaped(s[1..])
  }

  /** Decoding loses nothing exactly if the text could have been written by the encoder. */
  lemma WrittenExactly(s: string)
    ensures Escaped(Decoded(s)) == s <==> WellEscaped(s)
  {
    if Escaped(Decoded(s)) == s {
      EscapedWell(Decoded(s));
    }
    if WellEscaped(s) {
      WellRewritten(s);
    }
  }

  lemma WellEscape(x: char, rest: string)
    requires WellEscaped(rest)
    ensures WellEscaped(Escape(x) + rest)
  {
    var e := Escape(x);
    assert (e + rest)[|e|..] == rest;
  }

  lemma {:induction false} EscapedWell(s: string)
    ensures WellEscaped(Escaped(s))
  {
    hide Escape, WellEscaped, Escaped;
    if s == "" {
      NothingEscaped();
    } else {
      EscapedFront(s);
      EscapedWell(s[1..]);
      WellEscape(s[0], Escaped(s[1..]));
    }
  }

  lemma WellFront(s: string) returns (k: nat)
    requires WellEscaped(s) && s != ""
    ensures 1 <= k <= |s| && WellEscaped(s[k..])
    ensures Decoded(s) != "" && Decoded(s)[1..] == Decoded(s[k..]) && Escape(Decoded(s)[0]) == s[..k]
  {
    k := if s[0] == '\\' then 2 else 1;
    assert s[..k] == if k == 2 then [s[0], s[1]] else [s[0]];
  }

  lemma {:induction false} WellRewritten(s: string)
    requires WellEscaped(s)
    ensures Escaped(Decoded(s)) == s
    decreases |s|
  {
    hide WellEscaped, Decoded, Escape, Escaped;
    if s == "" {
      NothingEscaped();
    } else {
      var k := WellFront(s);
      WellRewritten(s[k..]);
      EscapedFront(Decoded(s));
      assert s == s[..k] + s[k..];
    }
  }
}
