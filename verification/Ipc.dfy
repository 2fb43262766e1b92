/** Commands between two running instances: a list of strings packed into one buffer of bytes. */
module Ipc {
  import opened Options

  type Byte = x: int | 0 <= x < 0x100

  type Bytes = seq<Byte>

  /** The strings one after the other, each followed by a zero byte. */
  function Packed(list: seq<Bytes>): Bytes {
    if list == [] then [] else Packed(list[..|list| - 1]) + list[|list| - 1] + [0]
  }

  ghost predicate NulFree(list: seq<Bytes>) {
    forall s :: s in list ==> 0 !in s
  }

  /** The list sent to another instance: nothing to nobody, and not an empty list. */
  method SendStringList(to: Bytes, list: seq<Bytes>) returns (data: Option<Bytes>)
    ensures data == if to == [] || list == [] then None else Some(Packed(list))
  {
    if to == [] || list == [] {
      return None;
    }
    var ba := list[0];
    assert list[..1] == [list[0]] && list[..1][..0] == [] && Packed([]) == [];
    assert Packed(list[..1]) == ba + [0];
    for i := 1 to |list|
      invariant ba + [0] == Packed(list[..i])
    {
      assert list[..i + 1][..i] == list[..i];
      var z := |ba|;
      ghost var before := ba;
      ba := ba + ([0x20] + list[i]);
      ba := ba[z := 0];
      assert ba == before + [0] + list[i];
    }
    assert list[..|list|] == list;
    // The buffer ends with the zero byte that a QByteArray keeps behind its data.
    data := Some(ba + [0]);
  }

  /** The bytes up to the first zero. */
  function FirstString(data: Bytes): (s: Bytes)
    ensures |s| <= |data| && s == data[..|s|] && 0 !in s && (|s| < |data| ==> data[|s|] == 0)
  {
    if data == [] || data[0] == 0 then [] else [data[0]] + FirstString(data[1..])
  }

  /** The strings that begin before the last byte. */
  function Unpacked(data: Bytes): seq<Bytes> {
    if |data| <= 1 then []
    else
      var s := FirstString(data);
      if |s| == |data| then [s] else [s] + Unpacked(data[|s| + 1..])
  }

  /** strlen from `p`; the last byte being zero keeps it within the buffer. */
  method StrLen(data: Bytes, p: nat) returns (n: nat)
    requires p < |data| && data[|data| - 1] == 0
    ensures p + n < |data| && data[p..p + n] == FirstString(data[p..]) && data[p + n] == 0
  {
    n := 0;
    while data[p + n] != 0
      invariant p + n < |data| && 0 !in data[p..p + n]
      decreases |data| - n
    {
      n := n + 1;
    }
    FirstIs(data[p..], n);
  }

  lemma FirstIs(data: Bytes, n: nat)
    requires n < |data| && 0 !in data[..n] && data[n] == 0
    ensures FirstString(data) == data[..n]
  {
    var s := FirstString(data);
    assert forall i :: 0 <= i < n ==> data[..n][i] == data[i];
    assert forall i :: 0 <= i < |s| ==> s[i] == data[i];
  }

  lemma UnpackedNext(data: Bytes, p: nat, n: nat)
    requires p + n < |data| && p < |data| - 1 && data[p..p + n] == FirstString(data[p..]) && data[p + n] == 0
    ensures Unpacked(data[p..]) == [data[p..p + n]] + Unpacked(data[p + n + 1..])
  {
    hide FirstString;
    assert data[p..][n + 1..] == data[p + n + 1..];
  }

  lemma UnpackedLast(data: Bytes)
    ensures |data| <= 1 ==> Unpacked(data) == []
  {
  }

  /**
   * What arrives: nothing unless the last byte is zero. Of an empty buffer the byte in front of it
   * is taken for the last one.
   */
  method Unpack(front: Byte, data: Bytes) returns (list: Option<seq<Bytes>>)
    ensures data != [] ==> list == if data[|data| - 1] != 0 then None else Some(Unpacked(data))
    ensures data == [] ==> list == if front != 0 then None else Some([])
  {
    hide Unpacked, FirstString;
    var end := |data| - 1;
    if (if end < 0 then front else data[end]) != 0 {
      return None;
    }
    var l: seq<Bytes> := [];
    var p := 0;
    assert data[0..] == data;
    while p < end
      invariant 0 <= p <= |data|
      invariant l + Unpacked(data[p..]) == Unpacked(data)
      invariant data == [] ==> l == []
    {
      var n := StrLen(data, p);
      var s := data[p..p + n];
      UnpackedNext(data, p, n);
      l := l + [s];
      p := p + n + 1;
    }
    UnpackedLast(data[p..]);
    assert l + [] == l;
    list := Some(l);
  }

  /** And what is unpacked of a buffer that ends in zero is its strings: packed again they are the buffer. */
  lemma {:induction false} UnpackedExactly(data: Bytes)
    requires data != [] && data[|data| - 1] == 0
    ensures NulFree(Unpacked(data))
    ensures data == Packed(Unpacked(data)) + if |data| == 1 || data[|data| - 2] == 0 then [0] else []
  {
    hide Packed, Unpacked, FirstString;
    UnpackedLast(data);
    PackedLast([], []);
    if |data| > 1 {
      var s := FirstString(data);
      UnpackedFirst(data, s);
      var rest, list := data[|s| + 1..], Unpacked(data);
      assert data == s + [0] + rest;
      UnpackedLast(rest);
      PackedFront(list);
      if rest == [] {
        assert data[|data| - 2] == s[|s| - 1];
      } else {
        assert rest[|rest| - 1] == data[|data| - 1];
        UnpackedExactly(rest);
        assert data[|data| - 2] == if |rest| == 1 then 0 else rest[|rest| - 2];
      }
    }
  }

  lemma UnpackedFirst(data: Bytes, s: Bytes)
    requires |data| > 1 && data[|data| - 1] == 0 && s == FirstString(data)
    ensures |s| < |data| && s == data[..|s|] && data[|s|] == 0 && 0 !in s
    ensures Unpacked(data)[..1] == [s] && Unpacked(data)[1..] == Unpacked(data[|s| + 1..])
    ensures Unpacked(data) == [s] + Unpacked(data[|s| + 1..])
  {
    hide FirstString;
    assert data[|data| - 1] in data && (|s| == |data| ==> data == s);
  }

  /** What of a list gets across: an empty last string does not. */
  function Delivered(list: seq<Bytes>): seq<Bytes> {
    if list != [] && list[|list| - 1] == [] then list[..|list| - 1] else list
  }

  lemma PackedLast(list: seq<Bytes>, x: Bytes)
    ensures Packed(list + [x]) == Packed(list) + x + [0] && Packed([]) == []
  {
    assert (list + [x])[..|list|] == list;
  }

  lemma {:induction false} PackedFront(list: seq<Bytes>)
    requires list != []
    ensures Packed(list) == list[0] + [0] + Packed(list[1..])
  {
    hide Packed;
    var n := |list| - 1;
    var x := list[n];
    PackedLast(list[..n], x);
    assert list == list[..n] + [x];
    if n == 0 {
      assert [] + x + [0] == x + [0] + [];
      assert list[..n] == list[1..] == [];
    } else {
      PackedFront(list[..n]);
      PackedLast(list[..n][1..], x);
      assert list[1..] == list[..n][1..] + [x];
      var mid := Packed(list[..n][1..]);
      assert list[0] + [0] + mid + x + [0] == list[0] + [0] + (mid + x + [0]);
    }
  }

  lemma {:induction false} PackedLonger(list: seq<Bytes>)
    ensures |Packed(list)| >= |list| && (list != [] ==> Packed(list)[|Packed(list)| - 1] == 0)
  {
    if list != [] {
      PackedLonger(list[..|list| - 1]);
    }
  }

  /** A packed list is unpacked again, but for one empty string at its end. */
  lemma {:induction false} RoundTrip(list: seq<Bytes>)
    requires NulFree(list)
    ensures Unpacked(Packed(list)) == Delivered(list)
  {
    if list != [] {
      var data, first := Packed(list), list[0];
      PackedFront(list);
      assert first in list;
      assert data[..|first|] == first && data[|first|] == 0;
      FirstIs(data, |first|);
      assert data[|first| + 1..] == Packed(list[1..]);
      PackedLonger(list[1..]);
      RoundTrip(list[1..]);
      assert list == [first] + list[1..];
      if |list| == 1 {
        assert Packed(list[1..]) == [];
      } else {
        assert Delivered(list) == [first] + Delivered(list[1..]);
      }
    }
  }

  // ---- Commands ---------------------------------------------------------------------------------------

  datatype Command = OpenUri(uri: Bytes) | SetStatus(status: Bytes, message: Bytes) | RecvNextEvent | Quit | Unknown

  const OPEN_URI: Bytes := [0x6f, 0x70, 0x65, 0x6e, 0x55, 0x72, 0x69]
  const SET_STATUS: Bytes := [0x73, 0x65, 0x74, 0x53, 0x74, 0x61, 0x74, 0x75, 0x73]
  const RECV_NEXT_EVENT: Bytes := [0x72, 0x65, 0x63, 0x76, 0x4e, 0x65, 0x78, 0x74, 0x45, 0x76, 0x65, 0x6e, 0x74]
  const QUIT: Bytes := [0x71, 0x75, 0x69, 0x74]

  /** QList::value: empty beyond the end. */
  function At(list: seq<Bytes>, k: nat): Bytes {
    if k < |list| then list[k] else []
  }

  function Dispatch(list: seq<Bytes>): Command {
    if |list| > 1 then
      if list[0] == OPEN_URI then OpenUri(At(list, 1))
      else if list[0] == SET_STATUS then SetStatus(At(list, 1), At(list, 2))
      else Unknown
    else if |list| == 1 then
      if list[0] == RECV_NEXT_EVENT then RecvNextEvent
      else if list[0] == QUIT then Quit
      else Unknown
    else Unknown
  }

  function Ascii(s: string): Bytes {
    seq(|s|, k requires 0 <= k < |s| => if s[k] < 128 as char then s[k] as int else 0)
  }

  /** Which list is which command; two names stand alone, and two have something with them. */
  lemma DispatchMeans(list: seq<Bytes>)
    ensures Dispatch(list) == Quit <==> list == [Ascii("quit")]
    ensures Dispatch(list) == RecvNextEvent <==> list == [Ascii("recvNextEvent")]
    ensures Dispatch(list).OpenUri? <==> |list| > 1 && list[0] == Ascii("openUri")
    ensures Dispatch(list).SetStatus? <==> |list| > 1 && list[0] == Ascii("setStatus")
    ensures Dispatch(list).OpenUri? ==> Dispatch(list).uri == list[1]
    ensures Dispatch(list).SetStatus? ==>
              Dispatch(list).status == list[1] && Dispatch(list).message == if |list| > 2 then list[2] else []
  {
    NamesDiffer();
    assert Ascii("quit") == QUIT && Ascii("recvNextEvent") == RECV_NEXT_EVENT;
    assert Ascii("openUri") == OPEN_URI && Ascii("setStatus") == SET_STATUS;
  }

  /** Reading with a default at any position gives what was sent. */
  lemma ReadsAgree(list: seq<Bytes>)
    requires NulFree(list)
    ensures forall k: nat :: At(Unpacked(Packed(list)), k) == At(list, k)
  {
    hide Unpacked, Packed;
    RoundTrip(list);
  }

  lemma NamesDiffer()
    ensures |OPEN_URI| == 7 && |SET_STATUS| == 9 && |RECV_NEXT_EVENT| == 13 && |QUIT| == 4
  {
  }

  /** The other side does what the list says, unless the list is a command name and one empty string. */
  lemma DispatchedExactly(list: seq<Bytes>)
    requires NulFree(list)
    ensures Dispatch(Unpacked(Packed(list))) == Dispatch(list) <==>
            !(|list| == 2 && list[1] == [] && list[0] in [OPEN_URI, SET_STATUS, RECV_NEXT_EVENT, QUIT])
  {
    hide Unpacked, Packed, Dispatch, Delivered, OPEN_URI, SET_STATUS, RECV_NEXT_EVENT, QUIT;
    RoundTrip(list);
    if |list| == 2 && list[1] == [] {
      DeliveredAlone(list);
      Alone(list[0]);
    } else {
      SameCommand(list);
    }
  }

  lemma DeliveredAlone(list: seq<Bytes>)
    requires |list| == 2 && list[1] == []
    ensures Delivered(list) == [list[0]] && list == [list[0], []]
  {
  }

  /** A name alone and a name with an empty string are never the same command. */
  lemma Alone(name: Bytes)
    ensures Dispatch([name]) == Dispatch([name, []]) <==> name !in [OPEN_URI, SET_STATUS, RECV_NEXT_EVENT, QUIT]
  {
    hide OPEN_URI, SET_STATUS, RECV_NEXT_EVENT, QUIT;
    NamesDiffer();
    assert [name][0] == [name, []][0] == name;
  }

  lemma SameCommand(list: seq<Bytes>)
    requires !(|list| == 2 && list[1] == [])
    ensures Dispatch(Delivered(list)) == Dispatch(list)
  {
    hide OPEN_URI, SET_STATUS, RECV_NEXT_EVENT, QUIT;
    var l := Delivered(list);
    assert forall k :: At(l, k) == At(list, k);
    if |list| == 1 && list[0] == [] {
      NamesDiffer();
    }
  }
}
