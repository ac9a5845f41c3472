/**
 * The extractor picks fresh names four times with the same loop: it starts
 * from a first choice and, while the current name is taken, tries
 * prefix + decimal(counter) + suffix for counter = 1, 2, ... (profile names
 * "base (n)", dialog names "New Profile n", file keys "name_n", worksheet
 * names "original[:27]_n"). This module states which name that loop chooses
 * and proves that it always stops.
 */
module UniqueNames {
  import opened PyStrings

  /** The n-th alternative name. */
  function Candidate(prefix: string, n: nat, suffix: string): string {
    prefix + NatToString(n) + suffix
  }

  lemma CandidateInjective(prefix: string, m: nat, n: nat, suffix: string)
    requires Candidate(prefix, m, suffix) == Candidate(prefix, n, suffix)
    ensures m == n
  {
    var a, b := Candidate(prefix, m, suffix), Candidate(prefix, n, suffix);
    assert NatToString(m) == a[|prefix|..|a| - |suffix|];
    assert NatToString(n) == b[|prefix|..|b| - |suffix|];
    NatToStringInjective(m, n);
  }

  /** Every alternative numbered below n is already taken. */
  predicate TakenBelow(prefix: string, suffix: string, taken: set<string>, n: nat) {
    forall m {:trigger Candidate(prefix, m, suffix)} ::
      1 <= m < n ==> Candidate(prefix, m, suffix) in taken
  }

  lemma {:induction false} CandidateSetSize(prefix: string, suffix: string, n: nat)
    requires n >= 1
    ensures |set m | 1 <= m < n :: Candidate(prefix, m, suffix)| == n - 1
  {
    if n > 1 {
      CandidateSetSize(prefix, suffix, n - 1);
      var below := set m | 1 <= m < n - 1 :: Candidate(prefix, m, suffix);
      var all := set m | 1 <= m < n :: Candidate(prefix, m, suffix);
      assert all == below + {Candidate(prefix, n - 1, suffix)};
      if Candidate(prefix, n - 1, suffix) in below {
        var m :| 1 <= m < n - 1 && Candidate(prefix, m, suffix) == Candidate(prefix, n - 1, suffix);
        CandidateInjective(prefix, m, n - 1, suffix);
      }
    }
  }

  /** Distinct alternatives cannot all be taken beyond the size of `taken`:
      this is why the loop stops. */
  lemma TakenBound(prefix: string, suffix: string, taken: set<string>, n: nat)
    requires n >= 1 && TakenBelow(prefix, suffix, taken, n)
    ensures n - 1 <= |taken|
  {
    CandidateSetSize(prefix, suffix, n);
    var s := set m | 1 <= m < n :: Candidate(prefix, m, suffix);
    assert s <= taken;
    assert |s| <= |taken| by {
      SubsetSize(s, taken);
    }
  }

  lemma SubsetSize(a: set<string>, b: set<string>)
    requires a <= b
    ensures |a| <= |b|
  {
    assert b == a + (b - a);
  }

  /** The least free alternative number, searching upwards from n. */
  function FreeFrom(prefix: string, suffix: string, taken: set<string>, n: nat): (r: nat)
    requires n >= 1 && TakenBelow(prefix, suffix, taken, n)
    ensures r >= n
    ensures Candidate(prefix, r, suffix) !in taken
    ensures TakenBelow(prefix, suffix, taken, r)
    decreases |taken| + 1 - n
  {
    if Candidate(prefix, n, suffix) in taken then
      TakenBound(prefix, suffix, taken, n + 1);
      FreeFrom(prefix, suffix, taken, n + 1)
    else n
  }

  /** Whatever number is free with all smaller ones taken is the one found. */
  lemma {:induction false} FreeFromIs(prefix: string, suffix: string, taken: set<string>, k: nat, n: nat)
    requires 1 <= k <= n
    requires TakenBelow(prefix, suffix, taken, n)
    requires Candidate(prefix, n, suffix) !in taken
    ensures FreeFrom(prefix, suffix, taken, k) == n
    decreases n - k
  {
    if k < n {
      assert Candidate(prefix, k, suffix) in taken;
      FreeFromIs(prefix, suffix, taken, k + 1, n);
    }
  }

  /** The name the loop settles on: `first` when it is free, otherwise the
      alternative with the least free number. */
  function FreeName(first: string, prefix: string, suffix: string, taken: set<string>): (r: string)
    ensures r !in taken
    ensures first !in taken ==> r == first
    ensures first in taken ==>
      exists n: nat {:trigger Candidate(prefix, n, suffix)} ::
        && n >= 1
        && r == Candidate(prefix, n, suffix)
        && TakenBelow(prefix, suffix, taken, n)
  {
    if first !in taken then first
    else Candidate(prefix, FreeFrom(prefix, suffix, taken, 1), suffix)
  }

  /** The source's loop, proved to compute FreeName. */
  method ChooseFreeName(first: string, prefix: string, suffix: string, taken: set<string>)
    returns (name: string)
    ensures name == FreeName(first, prefix, suffix, taken)
  {
    name := first;
    var counter: nat := 1;
    while name in taken
      invariant counter >= 1
      invariant TakenBelow(prefix, suffix, taken, counter - 1)
      invariant counter == 1 ==> name == first
      invariant counter > 1 ==> first in taken && name == Candidate(prefix, counter - 1, suffix)
      decreases |taken| + 2 - counter
    {
      assert TakenBelow(prefix, suffix, taken, counter);
      TakenBound(prefix, suffix, taken, counter);
      name := Candidate(prefix, counter, suffix);
      counter := counter + 1;
    }
    if counter > 1 {
      FreeFromIs(prefix, suffix, taken, 1, counter - 1);
    }
  }

  /** Numbers below 1000 print with at most three digits. */
  lemma ShortNumber(n: nat)
    requires n < 1000
    ensures |NatToString(n)| <= 3
  {
    if n >= 10 {
      assert |NatToString(n)| == |NatToString(n / 10)| + 1;
      if n / 10 >= 10 {
        assert |NatToString(n / 10)| == |NatToString(n / 100)| + 1;
        assert n / 100 < 10;
      }
    }
  }
}
