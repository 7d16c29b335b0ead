/** Finite histories of transfers and the amounts they add up to. */
module Ledger {
  import opened SubmissionHash
  import opened Collections

  /** The amount moved by the entries that `keep` selects. */
  function Total(s: seq<Submission>, keep: Submission -> bool): nat {
    if s == [] then 0
    else Total(s[..|s| - 1], keep) + if keep(s[|s| - 1]) then s[|s| - 1].amount else 0
  }

  lemma TotalAppend(s: seq<Submission>, x: Submission, keep: Submission -> bool)
    ensures Total(s + [x], keep) == Total(s, keep) + if keep(x) then x.amount else 0
  {
    assert (s + [x])[..|s|] == s;
  }

  lemma {:induction false} TotalConcat(s: seq<Submission>, t: seq<Submission>, keep: Submission -> bool)
    ensures Total(s + t, keep) == Total(s, keep) + Total(t, keep)
  {
    if t == [] {
      assert s + t == s;
    } else {
      var n := |t| - 1;
      TotalConcat(s, t[..n], keep);
      assert (s + t)[..|s + t| - 1] == s + t[..n];
    }
  }

  lemma TotalMiddle(a: seq<Submission>, x: Submission, b: seq<Submission>, keep: Submission -> bool)
    ensures Total(a + [x] + b, keep) == Total(a + b, keep) + if keep(x) then x.amount else 0
  {
    TotalConcat(a, b, keep);
    TotalAppend(a, x, keep);
    TotalConcat(a + [x], b, keep);
  }

  lemma TotalRemoveAt(s: seq<Submission>, i: nat, keep: Submission -> bool)
    requires i < |s|
    ensures Total(s, keep) == Total(RemoveAt(s, i), keep) + if keep(s[i]) then s[i].amount else 0
  {
    SplitAround(s, i);
    TotalMiddle(s[..i], s[i], s[i + 1..], keep);
  }

  lemma SplitAround(s: seq<Submission>, i: nat)
    requires i < |s|
    ensures s == s[..i] + [s[i]] + s[i + 1..]
    ensures RemoveAt(s, i) == s[..i] + s[i + 1..]
  {
  }

  /** Entries drawn without repetition from a history add up to no more than the history. */
  lemma {:induction false} TotalOfSelection(w: seq<Submission>, s: seq<Submission>, keep: Submission -> bool)
    requires NoDup(w) && forall x :: x in w ==> x in s
    ensures Total(w, keep) <= Total(s, keep)
    decreases |w|
  {
    if w != [] {
      var n := |w| - 1;
      var x := w[n];
      assert x in s;
      var i :| 0 <= i < |s| && s[i] == x;
      TotalRemoveAt(s, i, keep);
      forall y | y in w[..n] ensures y in RemoveAt(s, i) {
        var k :| 0 <= k < n && w[k] == y;
        assert w[k] != w[n];
        assert y in s;
        var j :| 0 <= j < |s| && s[j] == y;
        assert RemoveAt(s, i)[if j < i then j else j - 1] == y;
      }
      TotalOfSelection(w[..n], RemoveAt(s, i), keep);
    }
  }
}
