/** Passwords as they are stored: each 16-bit unit combined with one of the key and written in hexadecimal. */
module Passwords {

  /** A UTF-16 code unit. */
  type Unit = bv16

  function HexUnit(n: Unit): Unit
    requires n < 16
  {
    if n < 10 then 0x30 + n else 0x61 + (n - 10)
  }

  /** The value of a hexadecimal digit of either case; anything else counts nothing. */
  function HexValue(c: Unit): Unit {
    if 0x30 <= c <= 0x39 then c - 0x30
    else if 0x61 <= c <= 0x66 then c - 0x61 + 10
    else if 0x41 <= c <= 0x46 then c - 0x41 + 10
    else 0
  }

  predicate LowerHex(c: Unit) {
    0x30 <= c <= 0x39 || 0x61 <= c <= 0x66
  }

  /** Four digits, padded with zeros. */
  function Hex4(x: Unit): (s: seq<Unit>)
    ensures |s| == 4
  {
    [HexUnit(x >> 12), HexUnit((x >> 8) & 0xf), HexUnit((x >> 4) & 0xf), HexUnit(x & 0xf)]
  }

  function Read4(a: Unit, b: Unit, c: Unit, d: Unit): Unit {
    Plus(Plus(Plus(HexAt(a, 4096), HexAt(b, 256)), HexAt(c, 16)), HexAt(d, 1))
  }

  /** Sum of unsigned 16-bit numbers. */
  function Plus(x: Unit, y: Unit): Unit {
    x + y
  }

  /** A digit's value at its place. */
  function HexAt(c: Unit, place: Unit): Unit {
    HexValue(c) * place
  }

  lemma HexDigit(n: Unit)
    requires n < 16
    ensures HexValue(HexUnit(n)) == n && LowerHex(HexUnit(n))
  {
  }

  lemma DigitHex(c: Unit)
    ensures HexValue(c) < 16 && (LowerHex(c) ==> HexUnit(HexValue(c)) == c)
  {
  }

  lemma Nibbles(x: Unit)
    ensures x >> 12 < 16 && (x >> 8) & 0xf < 16 && (x >> 4) & 0xf < 16 && x & 0xf < 16
    ensures (x >> 12) * 4096 + ((x >> 8) & 0xf) * 256 + ((x >> 4) & 0xf) * 16 + (x & 0xf) == x
  {
  }

  lemma Assembled(a: Unit, b: Unit, c: Unit, d: Unit)
    requires a < 16 && b < 16 && c < 16 && d < 16
    ensures var x := a * 4096 + b * 256 + c * 16 + d;
            x >> 12 == a && (x >> 8) & 0xf == b && (x >> 4) & 0xf == c && x & 0xf == d
  {
  }

  /** The digits are 0 to 9 and a to f; A to F are read as well. */
  lemma HexTable()
    ensures [HexUnit(0), HexUnit(1), HexUnit(2), HexUnit(3), HexUnit(4), HexUnit(5), HexUnit(6), HexUnit(7)]
            == [0x30, 0x31, 0x32, 0x33, 0x34, 0x35, 0x36, 0x37]
    ensures [HexUnit(8), HexUnit(9), HexUnit(10), HexUnit(11), HexUnit(12), HexUnit(13), HexUnit(14), HexUnit(15)]
            == [0x38, 0x39, 0x61, 0x62, 0x63, 0x64, 0x65, 0x66]
    ensures [HexValue(0x41), HexValue(0x42), HexValue(0x43), HexValue(0x44), HexValue(0x45), HexValue(0x46)]
            == [10, 11, 12, 13, 14, 15]
    ensures forall c :: HexValue(c) != 0 ==> LowerHex(c) || 0x41 <= c <= 0x46
  {
  }

  /** Four digits are read back, the highest first, and only lower-case digits are written. */
  lemma HexRoundTrip(x: Unit)
    ensures var s := Hex4(x);
            && Read4(s[0], s[1], s[2], s[3]) == x
            && s[0] == HexUnit(x >> 12) && s[1] == HexUnit((x >> 8) & 0xf)
            && s[2] == HexUnit((x >> 4) & 0xf) && s[3] == HexUnit(x & 0xf)
            && forall k :: 0 <= k < 4 ==> LowerHex(s[k])
  {
    hide HexUnit, HexValue, LowerHex;
    Nibbles(x);
    HexDigit(x >> 12);
    HexDigit((x >> 8) & 0xf);
    HexDigit((x >> 4) & 0xf);
    HexDigit(x & 0xf);
  }

  /** Any four units are read as their digits' values: written again they are the digits in lower case. */
  lemma HexWritten(a: Unit, b: Unit, c: Unit, d: Unit)
    ensures HexValue(a) < 16 && HexValue(b) < 16 && HexValue(c) < 16 && HexValue(d) < 16
    ensures Hex4(Read4(a, b, c, d)) ==
            [HexUnit(HexValue(a)), HexUnit(HexValue(b)), HexUnit(HexValue(c)), HexUnit(HexValue(d))]
    ensures LowerHex(a) && LowerHex(b) && LowerHex(c) && LowerHex(d) ==> Hex4(Read4(a, b, c, d)) == [a, b, c, d]
  {
    hide HexUnit, HexValue, LowerHex;
    DigitHex(a);
    DigitHex(b);
    DigitHex(c);
    DigitHex(d);
    Assembled(HexValue(a), HexValue(b), HexValue(c), HexValue(d));
  }

  function Mixed(x: Unit, k: Unit): Unit {
    x ^ k
  }

  lemma MixedTwice(x: Unit, k: Unit)
    ensures Mixed(Mixed(x, k), k) == x
  {
  }

  // ---- The two codecs --------------------------------------------------------------------------

  /** The key goes round. */
  function KeyUnit(key: seq<Unit>, n: nat): Unit
    requires key != []
  {
    key[n % |key|]
  }

  /** The first `n` units of a password, encoded. */
  function EncodedUnits(pass: seq<Unit>, key: seq<Unit>, n: nat): (r: seq<Unit>)
    requires key != [] && n <= |pass|
    ensures |r| == 4 * n
  {
    if n == 0 then [] else EncodedUnits(pass, key, n - 1) + Hex4(Mixed(pass[n - 1], KeyUnit(key, n - 1)))
  }

  function Encoded(pass: seq<Unit>, key: seq<Unit>): seq<Unit> {
    if key == [] then pass else EncodedUnits(pass, key, |pass|)
  }

  /** The value of the `n`th group of four digits. */
  function Group(code: seq<Unit>, n: nat): Unit
    requires 4 * n + 4 <= |code|
  {
    Read4(code[4 * n], code[4 * n + 1], code[4 * n + 2], code[4 * n + 3])
  }

  /** The first `n` groups, decoded. */
  function DecodedGroups(code: seq<Unit>, key: seq<Unit>, n: nat): (r: seq<Unit>)
    requires key != [] && 4 * n <= |code|
    ensures |r| == n
  {
    if n == 0 then [] else DecodedGroups(code, key, n - 1) + [Mixed(Group(code, n - 1), KeyUnit(key, n - 1))]
  }

  /** Whole groups only; what is left over is dropped. */
  function Decoded(code: seq<Unit>, key: seq<Unit>): seq<Unit> {
    if key == [] then code else DecodedGroups(code, key, |code| / 4)
  }

  lemma {:induction false} EncodedGroup(pass: seq<Unit>, key: seq<Unit>, n: nat, k: nat)
    requires key != [] && n <= |pass| && k < n
    ensures var h, code := Hex4(Mixed(pass[k], KeyUnit(key, k))), EncodedUnits(pass, key, n);
            code[4 * k] == h[0] && code[4 * k + 1] == h[1] && code[4 * k + 2] == h[2] && code[4 * k + 3] == h[3]
  {
    hide Hex4, KeyUnit, Mixed;
    if k < n - 1 {
      EncodedGroup(pass, key, n - 1, k);
    }
  }

  lemma DecodedNone(code: seq<Unit>, key: seq<Unit>)
    requires key != []
    ensures DecodedGroups(code, key, 0) == []
  {
  }

  lemma DecodedStep(code: seq<Unit>, key: seq<Unit>, n: nat)
    requires key != [] && 4 * n + 4 <= |code|
    ensures DecodedGroups(code, key, n + 1) == DecodedGroups(code, key, n) + [Mixed(Group(code, n), KeyUnit(key, n))]
  {
    hide Group, KeyUnit, Mixed;
  }

  lemma GroupRead(code: seq<Unit>, n: nat)
    requires 4 * n + 4 <= |code|
    ensures Group(code, n) == Read4(code[4 * n], code[4 * n + 1], code[4 * n + 2], code[4 * n + 3])
  {
    hide Read4;
  }

  lemma {:induction false} DecodedUnits(pass: seq<Unit>, key: seq<Unit>, n: nat)
    requires key != [] && n <= |pass|
    ensures DecodedGroups(EncodedUnits(pass, key, |pass|), key, n) == pass[..n]
  {
    hide Hex4, KeyUnit, Mixed, EncodedUnits, Read4, DecodedGroups, Group;
    var code := EncodedUnits(pass, key, |pass|);
    if n == 0 {
      DecodedNone(code, key);
    } else {
      var u, k := pass[n - 1], KeyUnit(key, n - 1);
      DecodedUnits(pass, key, n - 1);
      assert Group(code, n - 1) == Mixed(u, k) by {
        EncodedGroup(pass, key, |pass|, n - 1);
        GroupRead(code, n - 1);
        HexRoundTrip(Mixed(u, k));
      }
      assert Mixed(Group(code, n - 1), k) == u by { MixedTwice(u, k); }
      assert DecodedGroups(code, key, n) == pass[..n - 1] + [u] by { DecodedStep(code, key, n - 1); }
      assert pass[..n] == pass[..n - 1] + [u];
    }
  }

  predicate AllLowerHex(code: seq<Unit>) {
    forall k :: 0 <= k < |code| ==> LowerHex(code[k])
  }

  lemma {:induction false} EncodedHex(pass: seq<Unit>, key: seq<Unit>, n: nat)
    requires key != [] && n <= |pass|
    ensures AllLowerHex(EncodedUnits(pass, key, n))
  {
    hide Hex4, KeyUnit, Mixed, LowerHex;
    if n > 0 {
      EncodedHex(pass, key, n - 1);
      HexRoundTrip(Mixed(pass[n - 1], KeyUnit(key, n - 1)));
    }
  }

  /** Every password comes back under the key it was stored with, and is stored as four digits a unit. */
  lemma RoundTrip(pass: seq<Unit>, key: seq<Unit>)
    ensures Decoded(Encoded(pass, key), key) == pass
    ensures key != [] ==> |Encoded(pass, key)| == 4 * |pass| && AllLowerHex(Encoded(pass, key))
  {
    hide Hex4, KeyUnit, Mixed, EncodedUnits, DecodedGroups;
    if key != [] {
      DecodedUnits(pass, key, |pass|);
      EncodedHex(pass, key, |pass|);
    }
  }

  lemma {:induction false} Rewritten(code: seq<Unit>, key: seq<Unit>, m: nat, n: nat)
    requires key != [] && 4 * m <= |code| && AllLowerHex(code) && n <= m
    ensures EncodedUnits(DecodedGroups(code, key, m), key, n) == code[..4 * n]
  {
    hide Hex4, KeyUnit, Mixed, Read4, HexValue, HexUnit;
    if n > 0 {
      var k := n - 1;
      Rewritten(code, key, m, k);
      DecodedGroup(code, key, m, k);
      HexWritten(code[4 * k], code[4 * k + 1], code[4 * k + 2], code[4 * k + 3]);
      MixedTwice(Group(code, k), KeyUnit(key, k));
      assert code[..4 * n] == code[..4 * k] + [code[4 * k], code[4 * k + 1], code[4 * k + 2], code[4 * k + 3]];
    }
  }

  lemma {:induction false} DecodedGroup(code: seq<Unit>, key: seq<Unit>, n: nat, k: nat)
    requires key != [] && 4 * n <= |code| && k < n
    ensures DecodedGroups(code, key, n)[k] == Mixed(Group(code, k), KeyUnit(key, k))
  {
    hide KeyUnit, Mixed, Group;
    if k < n - 1 {
      DecodedGroup(code, key, n - 1, k);
    }
  }

  /** What was stored comes back from decoding and encoding exactly if it could have been stored. */
  lemma StoredExactly(code: seq<Unit>, key: seq<Unit>)
    requires key != []
    ensures Encoded(Decoded(code, key), key) == code <==> |code| % 4 == 0 && AllLowerHex(code)
  {
    hide KeyUnit, Mixed, EncodedUnits, DecodedGroups, LowerHex;
    RoundTrip(Decoded(code, key), key);
    if |code| % 4 == 0 && AllLowerHex(code) {
      Rewritten(code, key, |code| / 4, |code| / 4);
      assert code[..|code|] == code;
    }
  }

  method EncodePassword(pass: seq<Unit>, key: seq<Unit>) returns (result: seq<Unit>)
    ensures result == Encoded(pass, key)
    ensures key == [] ==> result == pass
    ensures key != [] ==>
              && |result| == 4 * |pass|
              && forall n :: 0 <= n < |pass| ==> result[4 * n..4 * n + 4] == Hex4(pass[n] ^ key[n % |key|])
  {
    hide Hex4, Mixed;
    result := [];
    if |key| == 0 {
      return pass;
    }
    var n1, n2 := 0, 0;
    while n1 < |pass|
      invariant 0 <= n1 <= |pass| && n2 == n1 % |key|
      invariant result == EncodedUnits(pass, key, n1)
    {
      var x := Mixed(pass[n1], key[n2]);
      Cycle(n1, |key|);
      n2 := n2 + 1;
      result := result + Hex4(x);
      if n2 >= |key| {
        n2 := 0;
      }
      n1 := n1 + 1;
    }
    forall n | 0 <= n < |pass|
      ensures result[4 * n..4 * n + 4] == Hex4(pass[n] ^ key[n % |key|])
    {
      EncodedAt(pass, key, n);
    }
  }

  lemma EncodedAt(pass: seq<Unit>, key: seq<Unit>, n: nat)
    requires key != [] && n < |pass|
    ensures EncodedUnits(pass, key, |pass|)[4 * n..4 * n + 4] == Hex4(pass[n] ^ key[n % |key|])
  {
    hide Hex4, Mixed, KeyUnit, EncodedUnits;
    EncodedSlice(pass, key, n);
    MixedAt(pass[n], key, n);
  }

  lemma EncodedSlice(pass: seq<Unit>, key: seq<Unit>, n: nat)
    requires key != [] && n < |pass|
    ensures EncodedUnits(pass, key, |pass|)[4 * n..4 * n + 4] == Hex4(Mixed(pass[n], KeyUnit(key, n)))
  {
    hide Hex4, Mixed, KeyUnit, EncodedUnits;
    EncodedGroup(pass, key, |pass|, n);
    FourUnits(EncodedUnits(pass, key, |pass|), 4 * n, Hex4(Mixed(pass[n], KeyUnit(key, n))));
  }

  lemma FourUnits(code: seq<Unit>, at: nat, h: seq<Unit>)
    requires |h| == 4 && at + 4 <= |code|
    requires code[at] == h[0] && code[at + 1] == h[1] && code[at + 2] == h[2] && code[at + 3] == h[3]
    ensures code[at..at + 4] == h
  {
  }

  lemma MixedAt(u: Unit, key: seq<Unit>, n: nat)
    requires key != []
    ensures Mixed(u, KeyUnit(key, n)) == u ^ key[n % |key|]
  {
  }

  lemma DecodedAt(code: seq<Unit>, key: seq<Unit>, n: nat)
    requires key != [] && 4 * n + 4 <= |code|
    ensures DecodedGroups(code, key, |code| / 4)[n] ==
            Read4(code[4 * n], code[4 * n + 1], code[4 * n + 2], code[4 * n + 3]) ^ key[n % |key|]
  {
    hide Read4;
    DecodedGroup(code, key, |code| / 4, n);
  }

  lemma Cycle(n: nat, m: nat)
    requires m > 0
    ensures (n + 1) % m == if n % m + 1 >= m then 0 else n % m + 1
  {
    var q, r := n / m, n % m;
    assert n == m * q + r;
    if r + 1 == m {
      assert m * (q + 1) == m * q + m;
      Remainder(n + 1, m, q + 1, 0);
    } else {
      Remainder(n + 1, m, q, r + 1);
    }
  }

  lemma Remainder(n: nat, m: nat, q: nat, r: nat)
    requires n == m * q + r && r < m
    ensures n % m == r
  {
    var p, s := n / m, n % m;
    assert n == m * p + s;
    assert m * (p - q) == m * p - m * q;
    assert p == q by {
      if p > q { Multiple(m, p - q); }
      assert m * (q - p) == m * q - m * p;
      if q > p { Multiple(m, q - p); }
    }
  }

  lemma Multiple(m: nat, k: nat)
    requires k >= 1
    ensures m * k >= m
  {
    assert m * k == m + m * (k - 1);
  }

  method DecodePassword(pass: seq<Unit>, key: seq<Unit>) returns (result: seq<Unit>)
    ensures result == Decoded(pass, key)
    ensures key == [] ==> result == pass
    ensures key != [] ==>
              && |result| == |pass| / 4
              && forall n :: 0 <= n < |result| ==>
                   result[n] == Read4(pass[4 * n], pass[4 * n + 1], pass[4 * n + 2], pass[4 * n + 3]) ^ key[n % |key|]
  {
    hide HexValue, Read4, Group, DecodedGroups, KeyUnit, Mixed;
    result := [];
    if |key| == 0 {
      return pass;
    }
    DecodedNone(pass, key);
    var n1, n2 := 0, 0;
    ghost var n := 0;
    while n1 < |pass|
      invariant n1 == 4 * n && n1 <= |pass| && n2 == n % |key|
      invariant result == DecodedGroups(pass, key, n)
    {
      if n1 + 4 > |pass| {
        break;
      }
      var x := ReadFour(pass[n1], pass[n1 + 1], pass[n1 + 2], pass[n1 + 3]);
      GroupRead(pass, n);
      DecodedStep(pass, key, n);
      KeyAt(key, n);
      Cycle(n, |key|);
      result := result + [Mixed(x, key[n2])];
      assert result == DecodedGroups(pass, key, n + 1);
      n2 := n2 + 1;
      if n2 >= |key| {
        n2 := 0;
      }
      n1 := n1 + 4;
      n := n + 1;
    }
    forall k | 0 <= k < |result|
      ensures result[k] ==
                Read4(pass[4 * k], pass[4 * k + 1], pass[4 * k + 2], pass[4 * k + 3]) ^ key[k % |key|]
    {
      DecodedAt(pass, key, k);
    }
  }

  lemma KeyAt(key: seq<Unit>, n: nat)
    requires key != []
    ensures KeyUnit(key, n) == key[n % |key|]
  {
  }

  /** The unit written in four digits, added up from the first. */
  method ReadFour(a: Unit, b: Unit, c: Unit, d: Unit) returns (x: Unit)
    ensures x == Read4(a, b, c, d)
  {
    hide HexAt, Plus;
    PlusNought(HexAt(a, 4096));
    x := 0;
    x := Plus(x, HexAt(a, 4096));
    x := Plus(x, HexAt(b, 256));
    x := Plus(x, HexAt(c, 16));
    x := Plus(x, HexAt(d, 1));
  }

  lemma PlusNought(x: Unit)
    ensures Plus(0, x) == x
  {
  }
}
