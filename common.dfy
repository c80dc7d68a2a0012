/** Shared vocabulary: an optional value, and selecting elements of a sequence by a
    sequence of indices. The random choices the application makes (a shuffle of the
    deck, a sample of cards, a sample of wrong answers, a shuffle of the options) are
    not modelled as randomness; the caller supplies the indices, and the predicates
    below say which index sequences a shuffle or a sample can produce. */
module Common {

  datatype Option<+T> = None | Some(value: T)

  function Min(a: int, b: int): int
  {
    if a <= b then a else b
  }

  /** No index occurs twice. */
  predicate Distinct(p: seq<nat>)
  {
    forall i, j :: 0 <= i < j < |p| ==> p[i] != p[j]
  }

  /** `picks` could be the result of sampling `k` distinct positions out of `n`
      without replacement. */
  predicate IsSample(picks: seq<nat>, n: nat, k: nat)
  {
    |picks| == k && (forall i :: 0 <= i < |picks| ==> picks[i] < n) && Distinct(picks)
  }

  /** `p` is an ordering of all of 0, 1, ..., n-1 (what shuffling `range(n)` yields). */
  predicate IsPermutation(p: seq<nat>, n: nat)
  {
    IsSample(p, n, n)
  }

  /** The elements of `s` at the positions listed in `idx`, in that order. */
  function Select<T>(s: seq<T>, idx: seq<nat>): (r: seq<T>)
    requires forall i :: 0 <= i < |idx| ==> idx[i] < |s|
    ensures |r| == |idx|
    ensures forall i :: 0 <= i < |idx| ==> r[i] == s[idx[i]]
  {
    seq(|idx|, i requires 0 <= i < |idx| => s[idx[i]])
  }

  /** Every element of a selection comes from the sequence selected from. */
  lemma SelectFrom<T>(s: seq<T>, idx: seq<nat>)
    requires forall i :: 0 <= i < |idx| ==> idx[i] < |s|
    ensures forall x :: x in Select(s, idx) ==> x in s
  {
    forall x | x in Select(s, idx)
      ensures x in s
    {
      var i :| 0 <= i < |idx| && Select(s, idx)[i] == x;
      assert s[idx[i]] == x;
    }
  }

  function Elems(p: seq<nat>): set<nat>
  {
    set i | 0 <= i < |p| :: p[i]
  }

  /** The set {0, ..., n-1}. */
  function Below(n: nat): (r: set<nat>)
    ensures forall v :: v in r <==> 0 <= v < n
    ensures |r| == n
  {
    if n == 0 then {} else Below(n - 1) + {n - 1}
  }

  lemma {:induction false} DistinctElemsCard(p: seq<nat>)
    requires Distinct(p)
    ensures |Elems(p)| == |p|
  {
    if p == [] {
      assert Elems(p) == {};
    } else {
      var t := p[1..];
      assert Distinct(t) by {
        forall i, j | 0 <= i < j < |t| ensures t[i] != t[j] {
          assert t[i] == p[i + 1] && t[j] == p[j + 1];
        }
      }
      DistinctElemsCard(t);
      assert Elems(p) == {p[0]} + Elems(t) by {
        forall x | x in Elems(p) ensures x in {p[0]} + Elems(t) {
          var i :| 0 <= i < |p| && p[i] == x;
          if i > 0 { assert t[i - 1] == x; }
        }
        forall x | x in Elems(t) ensures x in Elems(p) {
          var i :| 0 <= i < |t| && t[i] == x;
          assert p[i + 1] == x;
        }
      }
      assert p[0] !in Elems(t) by {
        forall i | 0 <= i < |t| ensures t[i] != p[0] {
          assert t[i] == p[i + 1];
        }
      }
    }
  }

  /** A permutation of 0..n-1 hits every value below n (pigeonhole). */
  lemma PermutationCovers(p: seq<nat>, n: nat)
    requires IsPermutation(p, n)
    ensures forall v :: 0 <= v < n ==> v in p
  {
    DistinctElemsCard(p);
    assert Elems(p) <= Below(n);
    forall v | 0 <= v < n
      ensures v in p
    {
      if v !in Elems(p) {
        assert Elems(p) <= Below(n) - {v};
        assert |Below(n) - {v}| == n - 1;
        SubsetCard(Elems(p), Below(n) - {v});
        assert false;
      }
    }
  }

  lemma SubsetCard(a: set<nat>, b: set<nat>)
    requires a <= b
    ensures |a| <= |b|
  {
    assert b == a + (b - a);
  }

  /** Removing the position that holds the largest value n-1 from a sample of
      0..n-1 leaves a sample of 0..n-2 (for a permutation, a permutation). */
  lemma DropLargest(ord: seq<nat>, n: nat, j0: nat)
    requires IsSample(ord, n, |ord|) && j0 < |ord| && ord[j0] == n - 1
    ensures IsSample(ord[..j0] + ord[j0 + 1..], n - 1, |ord| - 1)
  {
    var rest := ord[..j0] + ord[j0 + 1..];
    forall k | 0 <= k < |rest| ensures rest[k] < n - 1 {
      DropAt(ord, j0, k);
    }
    forall i, j | 0 <= i < j < |rest| ensures rest[i] != rest[j] {
      DropAt(ord, j0, i);
      DropAt(ord, j0, j);
    }
  }

  /** Position `k` of a sequence with position `j0` removed. */
  lemma DropAt(ord: seq<nat>, j0: nat, k: nat)
    requires j0 < |ord| && k < |ord| - 1
    ensures (ord[..j0] + ord[j0 + 1..])[k] == if k < j0 then ord[k] else ord[k + 1]
  {
  }

  lemma SelectSplit<T>(s: seq<T>, ord: seq<nat>, j0: nat)
    requires |s| > 0 && (forall i :: 0 <= i < |ord| ==> ord[i] < |s|) && j0 < |ord| && ord[j0] == |s| - 1
    requires IsSample(ord[..j0] + ord[j0 + 1..], |s| - 1, |ord| - 1)
    ensures Select(s, ord) == Select(s[..|s| - 1], ord[..j0] + ord[j0 + 1..])[..j0] + [s[|s| - 1]]
                              + Select(s[..|s| - 1], ord[..j0] + ord[j0 + 1..])[j0..]
  {
    var rest := ord[..j0] + ord[j0 + 1..];
    assert forall k :: 0 <= k < |rest| ==> rest[k] == if k < j0 then ord[k] else ord[k + 1];
  }

  lemma InsertMultiset<T>(a: seq<T>, j: nat, x: T)
    requires j <= |a|
    ensures multiset(a[..j] + [x] + a[j..]) == multiset(a) + multiset{x}
  {
    assert a == a[..j] + a[j..];
  }

  /** Shuffling by a permutation keeps every element with its multiplicity. */
  lemma {:induction false} SelectPermutation<T>(s: seq<T>, ord: seq<nat>)
    requires IsPermutation(ord, |s|)
    ensures multiset(Select(s, ord)) == multiset(s)
  {
    var n := |s|;
    if n == 0 {
      assert Select(s, ord) == [];
    } else {
      PermutationCovers(ord, n);
      assert n - 1 in ord;
      var j0 :| 0 <= j0 < |ord| && ord[j0] == n - 1;
      var rest := ord[..j0] + ord[j0 + 1..];
      DropLargest(ord, n, j0);
      SelectPermutation(s[..n - 1], rest);
      SelectPermutationStep(s, ord, j0);
    }
  }

  lemma SelectPermutationStep<T>(s: seq<T>, ord: seq<nat>, j0: nat)
    requires IsPermutation(ord, |s|) && j0 < |s| && ord[j0] == |s| - 1
    requires IsPermutation(ord[..j0] + ord[j0 + 1..], |s| - 1)
    requires multiset(Select(s[..|s| - 1], ord[..j0] + ord[j0 + 1..])) == multiset(s[..|s| - 1])
    ensures multiset(Select(s, ord)) == multiset(s)
  {
    var n := |s|;
    var init := s[..n - 1];
    var a := Select(init, ord[..j0] + ord[j0 + 1..]);
    SelectSplit(s, ord, j0);
    InsertMultiset(a, j0, s[n - 1]);
    assert s == init + [s[n - 1]];
  }

  /** Sampling without replacement takes no element more often than the sequence
      sampled from holds it. */
  lemma {:induction false} SelectSample<T>(s: seq<T>, idx: seq<nat>)
    requires IsSample(idx, |s|, |idx|)
    ensures multiset(Select(s, idx)) <= multiset(s)
    decreases |s|
  {
    if idx == [] {
      assert Select(s, idx) == [];
    } else {
      var n := |s|;
      assert idx[0] < n;
      var init := s[..n - 1];
      assert s == init + [s[n - 1]];
      if n - 1 in idx {
        var j0 :| 0 <= j0 < |idx| && idx[j0] == n - 1;
        var rest := idx[..j0] + idx[j0 + 1..];
        DropLargest(idx, n, j0);
        SelectSample(init, rest);
        SelectSplit(s, idx, j0);
        InsertMultiset(Select(init, rest), j0, s[n - 1]);
      } else {
        assert forall i :: 0 <= i < |idx| ==> idx[i] < n - 1;
        assert Select(s, idx) == Select(init, idx);
        SelectSample(init, idx);
      }
    }
  }
}
