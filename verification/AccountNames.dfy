/** A name for a new account that no other account has. */
module AccountNames {
  import opened Sequences
  import Numerals

  /** The names tried in turn: the wanted one, then the same with a number. */
  function Candidate(def: string, n: nat): string {
    if n == 0 then def else def + "_" + Numerals.Numeral(n, 10)
  }

  lemma CandidatesDiffer(def: string, m: nat, n: nat)
    requires Candidate(def, m) == Candidate(def, n)
    ensures m == n
  {
    if m != 0 && n != 0 {
      var stem := def + "_";
      assert Candidate(def, m)[|stem|..] == Numerals.Numeral(m, 10);
      assert Candidate(def, n)[|stem|..] == Numerals.Numeral(n, 10);
      Numerals.Injective(m, n, 10);
    }
  }

  /** If the first `n` candidates are all taken there are at least `n` accounts. */
  lemma TakenByAccounts(def: string, n: nat, names: seq<string>)
    requires forall k :: 0 <= k < n ==> Candidate(def, k) in names
    ensures n <= |names|
  {
    var tried := seq(n, k requires 0 <= k => Candidate(def, k));
    forall i, j | 0 <= i < j < n
      ensures tried[i] != tried[j]
    {
      if tried[i] == tried[j] {
        CandidatesDiffer(def, i, j);
      }
    }
    NoLonger(tried, names);
  }

  /** The first free candidate, found among one more than there are accounts. */
  method CreateNewAccountName(def: string, names: seq<string>) returns (aname: string, ghost n: nat)
    ensures aname !in names && n <= |names|
    ensures aname == if n == 0 then def else def + "_" + Numerals.Numeral(n, 10)
    ensures forall k :: 0 <= k < n ==> Candidate(def, k) in names
  {
    hide Numerals.Numeral;
    aname := def;
    var i := 0;
    n := 0;
    while true
      invariant n == i && aname == Candidate(def, i)
      invariant forall k :: 0 <= k < i ==> Candidate(def, k) in names
      decreases |names| + 1 - i
    {
      var taken := false;
      for a := 0 to |names|
        invariant !taken && aname !in names[..a]
      {
        if aname == names[a] {
          taken := true;
          break;
        }
      }
      TakenByAccounts(def, i, names);
      if !taken {
        break;
      }
      i := i + 1;
      n := i;
      aname := def + "_" + Numerals.Numeral(i, 10);
    }
  }
}
