/** The code point ranges of the emoji table. */
module Ranges {

  type Range = (nat, nat)

  predicate NonDecreasing(s: seq<nat>) {
    forall i, j :: 0 <= i < j < |s| ==> s[i] <= s[j]
  }

  function InsertSorted(s: seq<nat>, x: nat): seq<nat> {
    if s == [] || x <= s[0] then [x] + s else [s[0]] + InsertSorted(s[1..], x)
  }

  lemma InsertedFirst(s: seq<nat>, x: nat)
    ensures s == [] || x <= s[0] ==> InsertSorted(s, x) == [x] + s
  {
  }

  lemma InsertedLater(s: seq<nat>, x: nat)
    requires s != [] && x > s[0]
    ensures InsertSorted(s, x) == [s[0]] + InsertSorted(s[1..], x)
  {
  }

  /** Python's sorted, on first code points. */
  function Sorted(s: seq<nat>): seq<nat> {
    if s == [] then [] else InsertSorted(Sorted(s[1..]), s[0])
  }

  lemma {:induction false} InsertSortedSorts(s: seq<nat>, x: nat)
    requires NonDecreasing(s)
    ensures NonDecreasing(InsertSorted(s, x)) && multiset(InsertSorted(s, x)) == multiset(s) + multiset{x}
  {
    hide InsertSorted;
    InsertedFirst(s, x);
    if s != [] && x > s[0] {
      InsertSortedSorts(s[1..], x);
      InsertedLater(s, x);
      assert s == [s[0]] + s[1..];
      var rest := InsertSorted(s[1..], x);
      forall j | 0 <= j < |rest|
        ensures s[0] <= rest[j]
      {
        assert rest[j] in multiset(rest);
        assert rest[j] in s[1..] || rest[j] == x;
      }
    }
  }

  lemma {:induction false} SortedSorts(s: seq<nat>)
    ensures NonDecreasing(Sorted(s)) && multiset(Sorted(s)) == multiset(s)
  {
    if s != [] {
      SortedSorts(s[1..]);
      InsertSortedSorts(Sorted(s[1..]), s[0]);
      assert s == [s[0]] + s[1..];
    }
  }

  /** What the loop knows after the codes of `s`: the ranges closed, and where the open one began and is. */
  datatype State = State(closed: seq<Range>, start: nat, cur: nat)

  function Next(st: State, code: nat): State {
    if code != st.cur && code != st.cur + 1 then
      State(if st.start != 0 then st.closed + [(st.start, st.cur)] else st.closed, code, code)
    else State(st.closed, st.start, code)
  }

  function Scanned(s: seq<nat>): State {
    if s == [] then State([], 0, 0) else Next(Scanned(s[..|s| - 1]), s[|s| - 1])
  }

  function AllRanges(st: State): seq<Range> {
    st.closed + [(st.start, st.cur)]
  }

  method GenerateRanges(codes: seq<nat>) returns (ranges: seq<Range>)
    ensures ranges == AllRanges(Scanned(Sorted(codes)))
    ensures Exact(ranges, codes) <==> Suitable(codes)
  {
    var sorted := Sorted(codes);
    ranges := [];
    var curCode, rangeStart := 0, 0;
    for k := 0 to |sorted|
      invariant State(ranges, rangeStart, curCode) == Scanned(sorted[..k])
    {
      var newCode := sorted[k];
      assert sorted[..k + 1][..k] == sorted[..k];
      if newCode != curCode && newCode != curCode + 1 {
        if rangeStart != 0 {
          ranges := ranges + [(rangeStart, curCode)];
        }
        rangeStart := newCode;
      }
      curCode := newCode;
    }
    assert sorted[..|sorted|] == sorted;
    ranges := ranges + [(rangeStart, curCode)];
    GeneratedExactly(codes);
  }

  // ---- When the ranges are right ------------------------------------------------------------------

  predicate In(x: nat, r: Range) {
    r.0 <= x <= r.1
  }

  predicate Covered(x: nat, ranges: seq<Range>) {
    exists k :: 0 <= k < |ranges| && In(x, ranges[k])
  }

  /** In order, and between two of them at least one code is missing. */
  predicate Separated(ranges: seq<Range>) {
    && (forall k :: 0 <= k < |ranges| ==> ranges[k].0 <= ranges[k].1)
    && (forall j, k :: 0 <= j < k < |ranges| ==> ranges[j].1 + 1 < ranges[k].0)
  }

  /** Separated ranges of exactly these codes. */
  ghost predicate Exact(ranges: seq<Range>, codes: seq<nat>) {
    Separated(ranges) && forall x :: Covered(x, ranges) <==> x in codes
  }

  /** Some code, and none below two, or all from zero up without a gap. */
  ghost predicate Suitable(codes: seq<nat>) {
    && codes != []
    && ((forall x :: x in codes ==> x >= 2)
        || (0 in codes && forall x, y :: x in codes && 0 <= y <= x ==> y in codes))
  }

  /** From two up: everything seen is in a closed range or the open one. */
  lemma {:induction false} ScannedHigh(s: seq<nat>)
    requires NonDecreasing(s) && s != [] && s[0] >= 2
    ensures Exact(AllRanges(Scanned(s)), s) && Scanned(s).start >= 2 && Scanned(s).cur == s[|s| - 1]
  {
    var n := |s| - 1;
    var init, code := s[..n], s[n];
    assert s == init + [code];
    if n == 0 {
      assert Scanned(init) == State([], 0, 0);
      assert AllRanges(Scanned(s)) == [(code, code)];
      assert Covered(code, [(code, code)]) by { assert In(code, [(code, code)][0]); }
    } else {
      ScannedHigh(init);
      HighStep(Scanned(init), init, code);
    }
  }

  lemma HighStep(st: State, s: seq<nat>, code: nat)
    requires Exact(AllRanges(st), s) && st.start >= 2 && st.cur <= code
    ensures Exact(AllRanges(Next(st, code)), s + [code]) && Next(st, code).start >= 2
  {
    var before, after := AllRanges(st), AllRanges(Next(st, code));
    var n := |before| - 1;
    assert before[n] == (st.start, st.cur);
    if code > st.cur + 1 {
      assert after == before + [(code, code)];
      forall x
        ensures Covered(x, after) <==> Covered(x, before) || x == code
      {
        assert In(x, after[n + 1]) <==> x == code;
        assert forall k :: 0 <= k <= n ==> after[k] == before[k];
      }
    } else {
      assert after == before[n := (st.start, code)];
      forall x
        ensures Covered(x, after) <==> Covered(x, before) || x == code
      {
        assert In(x, after[n]) <==> In(x, before[n]) || x == code;
        assert forall k :: 0 <= k < n ==> after[k] == before[k];
      }
    }
  }

  /** Until the first gap nothing is closed; from then on nothing begins below two. */
  ghost predicate Plausible(s: seq<nat>, st: State) {
    if st.start == 0 then st.closed == [] && (s == [] || s[0] <= 1) && UpTo(s, st.cur)
    else && 2 <= st.start <= st.cur && s != [] && st.cur == s[|s| - 1]
         && (forall k :: 0 <= k < |st.closed| ==> st.closed[k].0 >= 2)
         && exists x :: x >= 2 && Gap(s, x)
  }

  lemma {:induction false} ScannedAny(s: seq<nat>)
    requires NonDecreasing(s)
    ensures Plausible(s, Scanned(s))
  {
    if s != [] {
      hide Plausible, Next;
      var n := |s| - 1;
      ScannedAny(s[..n]);
      PlausibleStep(s[..n], Scanned(s[..n]), s[n]);
      assert s == s[..n] + [s[n]];
    }
  }

  lemma PlausibleStep(s: seq<nat>, st: State, code: nat)
    requires Plausible(s, st) && forall x :: x in s ==> x <= s[|s| - 1] <= code
    ensures Plausible(s + [code], Next(st, code))
  {
    var after := s + [code];
    assert forall x :: x in after <==> x in s || x == code;
    if st.start != 0 {
      var x :| x >= 2 && Gap(s, x);
      assert Gap(after, x);
      assert s[|s| - 1] in s;
    } else if code != st.cur && code != st.cur + 1 {
      assert s != [] ==> s[|s| - 1] in s;
      assert Gap(after, code);
    } else if s != [] {
      assert forall x :: s[0] <= x <= code ==> x in after;
    }
  }

  /** `s` holds all from its least code up to `cur`. */
  predicate UpTo(s: seq<nat>, cur: nat) {
    if s == [] then cur == 0
    else cur == s[|s| - 1] && forall x :: s[0] <= x <= cur ==> x in s
  }

  /** `x` is in `s`, but the code before it is not. */
  predicate Gap(s: seq<nat>, x: nat) {
    x in s && x > 0 && x - 1 !in s
  }

  /** The ranges are exact exactly for suitable codes: none, or some below two, go wrong but for one case. */
  lemma GeneratedExactly(codes: seq<nat>)
    ensures Exact(AllRanges(Scanned(Sorted(codes))), codes) <==> Suitable(codes)
  {
    var s := Sorted(codes);
    SortedSorts(codes);
    assert forall x :: x in s <==> x in codes by {
      assert forall x :: x in s <==> x in multiset(s);
      assert forall x :: x in codes <==> x in multiset(codes);
    }
    ScannedExactly(s);
    assert s == [] <==> codes == [] by { assert |multiset(s)| == |multiset(codes)|; }
    assert Suitable(s) <==> Suitable(codes);
  }

  lemma ScannedExactly(s: seq<nat>)
    requires NonDecreasing(s)
    ensures Exact(AllRanges(Scanned(s)), s) <==> Suitable(s)
  {
    var st := Scanned(s);
    var ranges := AllRanges(st);
    var n := |st.closed|;
    ScannedAny(s);
    assert ranges[n] == (st.start, st.cur);
    if s == [] {
      assert In(0, ranges[n]) && Covered(0, ranges);
    } else if s[0] >= 2 {
      ScannedHigh(s);
      assert s[0] in s;
    } else if st.start == 0 {
      assert ranges == [(0, st.cur)];
      assert forall x: nat :: Covered(x, ranges) <==> x <= st.cur by {
        assert forall x: nat :: In(x, ranges[0]) <==> x <= st.cur;
      }
      assert s[0] in s;
      if 0 in s { LeastFirst(s, 0); }
    } else {
      assert s[0] in s;
      var x :| x >= 2 && Gap(s, x);
      assert !Covered(s[0], ranges);
      assert x - 1 !in s;
    }
  }

  lemma LeastFirst(s: seq<nat>, x: nat)
    requires NonDecreasing(s) && x in s
    ensures s[0] <= x
  {
    var i :| 0 <= i < |s| && s[i] == x;
  }
}
