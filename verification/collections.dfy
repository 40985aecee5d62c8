/** Generic facts about sequences and sets used by the tables of the model. */
module Collections {

  /** No element occurs twice. */
  predicate Distinct<T(==)>(s: seq<T>) {
    forall i, j | 0 <= i < j < |s| :: s[i] != s[j]
  }

  /** Strictly ascending integers (hence also free of duplicates). */
  predicate StrictlyAscending(s: seq<int>) {
    forall i, j | 0 <= i < j < |s| :: s[i] < s[j]
  }

  /** `sub` is obtained from `s` by deleting elements, keeping the order. */
  predicate IsSubsequence<T(==)>(sub: seq<T>, s: seq<T>)
    decreases |s|
  {
    if |sub| == 0 then true
    else if |s| == 0 then false
    else if sub[0] == s[0] then IsSubsequence(sub[1..], s[1..])
    else IsSubsequence(sub, s[1..])
  }

  /** The head and tail of a concatenation with a non-empty front. */
  lemma AppendTail<T>(a: seq<T>, b: seq<T>)
    requires |a| > 0
    ensures (a + b)[0] == a[0] && (a + b)[1..] == a[1..] + b
  {
  }

  /** A prefix of length at least one holds the first element. */
  lemma PrefixHoldsHead<T>(s: seq<T>, j: nat)
    requires j < |s|
    ensures s[0] in s[..j + 1]
  {
    assert s[..j + 1][0] == s[0];
  }

  /** What a prefix of the tail holds, the one-longer prefix holds too. */
  lemma PrefixOfTail<T>(s: seq<T>, j: nat, x: T)
    requires 0 < j < |s| && x in s[1..][..j]
    ensures x in s[..j + 1]
  {
    var i :| 0 <= i < j && s[1..][..j][i] == x;
    assert s[..j + 1][i + 1] == x;
  }

  /** A non-empty sequence holds its first element. */
  lemma HeadIsMember<T>(s: seq<T>)
    ensures |s| > 0 ==> s[0] in s
  {
  }

  /** The integers lo..hi, both ends included. */
  function Range(lo: int, hi: int): (r: set<int>)
    ensures forall x :: x in r <==> lo <= x <= hi
    decreases hi - lo
  {
    if lo > hi then {} else Range(lo, hi - 1) + {hi}
  }

  lemma {:induction false} RangeCard(lo: int, hi: int)
    requires lo <= hi + 1
    ensures |Range(lo, hi)| == hi - lo + 1
    decreases hi - lo
  {
    if lo == hi + 1 {
      assert Range(lo, hi) == {};
    } else {
      RangeCard(lo, hi - 1);
      assert Range(lo, hi) == Range(lo, hi - 1) + {hi};
    }
  }

  lemma {:induction false} SetOfSeqCard<T>(s: seq<T>)
    ensures |set x | x in s| <= |s|
    ensures |set x | x in s| == |s| ==> Distinct(s)
  {
    if |s| > 0 {
      var t := s[1..];
      SetOfSeqCard(t);
      var st := set x | x in t;
      assert (set x | x in s) == st + {s[0]};
      if s[0] in st {
        assert (set x | x in s) == st;
      } else {
        if |set x | x in s| == |s| {
          assert |st| == |t|;
          forall i, j | 0 <= i < j < |s| ensures s[i] != s[j] {
            if i == 0 {
              assert s[j] in t;
            } else {
              assert t[i - 1] != t[j - 1];
            }
          }
        }
      }
    }
  }

  /** A sequence of length n holding every integer of 1..n is a permutation of 1..n. */
  lemma PermutationOfRange(s: seq<int>, n: nat)
    requires |s| == n
    requires forall x :: 1 <= x <= n ==> x in s
    ensures Distinct(s)
    ensures forall x :: x in s ==> 1 <= x <= n
  {
    var st := set x | x in s;
    assert Range(1, n) <= st;
    RangeCard(1, n);
    SetOfSeqCard(s);
    assert |Range(1, n)| <= |st| by {
      SubsetCard(Range(1, n), st);
    }
    forall x | x in s ensures 1 <= x <= n {
      if !(1 <= x <= n) {
        assert |Range(1, n) + {x}| == n + 1;
        SubsetCard(Range(1, n) + {x}, st);
        assert false;
      }
    }
  }

  /** Distinct elements: the set of a sequence is as large as the sequence. */
  lemma {:induction false} DistinctCard<T>(s: seq<T>)
    requires Distinct(s)
    ensures |set x | x in s| == |s|
  {
    if |s| > 0 {
      var t := s[1..];
      assert Distinct(t) by {
        forall i, j | 0 <= i < j < |t| ensures t[i] != t[j] {
          assert t[i] == s[i + 1] && t[j] == s[j + 1];
        }
      }
      DistinctCard(t);
      assert s[0] !in t by {
        forall k | 0 <= k < |t| ensures t[k] != s[0] {
          assert t[k] == s[k + 1];
        }
      }
      assert (set x | x in s) == (set x | x in t) + {s[0]};
    }
  }

  /** n distinct numbers from 1..n are all of 1..n. */
  lemma RangeOfPermutation(s: seq<int>, n: nat)
    requires |s| == n && Distinct(s)
    requires forall x :: x in s ==> 1 <= x <= n
    ensures forall x :: 1 <= x <= n ==> x in s
  {
    var st := set x | x in s;
    DistinctCard(s);
    RangeCard(1, n);
    forall y | 1 <= y <= n ensures y in s {
      if y !in s {
        assert st <= Range(1, n) - {y};
        assert |Range(1, n) - {y}| == n - 1;
        SubsetCard(st, Range(1, n) - {y});
        assert false;
      }
    }
  }

  lemma SubsetCard<T>(a: set<T>, b: set<T>)
    requires a <= b
    ensures |a| <= |b|
  {
    assert b == a + (b - a);
  }

  lemma {:induction false} SubsequenceMembership<T>(sub: seq<T>, s: seq<T>, x: T)
    requires IsSubsequence(sub, s)
    requires x in sub
    ensures x in s
    decreases |s|
  {
    if sub[0] == s[0] {
      if x != sub[0] {
        SubsequenceMembership(sub[1..], s[1..], x);
      }
    } else {
      SubsequenceMembership(sub, s[1..], x);
    }
  }

  lemma {:induction false} SubsequenceRefl<T>(s: seq<T>)
    ensures IsSubsequence(s, s)
  {
    if |s| > 0 {
      SubsequenceRefl(s[1..]);
    }
  }

  /** Prepending an element to the larger sequence keeps a subsequence one. */
  lemma {:induction false} SkipHead<T>(x: T, sub: seq<T>, s: seq<T>)
    requires IsSubsequence(sub, s)
    ensures IsSubsequence(sub, [x] + s)
    decreases |s|, 1
  {
    assert ([x] + s)[1..] == s;
    if |sub| > 0 && sub[0] == x {
      TailSubsequence(sub, s);
    }
  }

  /** Dropping the first element of a subsequence keeps it a subsequence. */
  lemma {:induction false} TailSubsequence<T>(sub: seq<T>, s: seq<T>)
    requires |sub| > 0 && IsSubsequence(sub, s)
    ensures IsSubsequence(sub[1..], s)
    decreases |s|, 0
  {
    assert s == [s[0]] + s[1..];
    if sub[0] == s[0] {
      SkipHead(s[0], sub[1..], s[1..]);
    } else {
      TailSubsequence(sub, s[1..]);
      SkipHead(s[0], sub[1..], s[1..]);
    }
  }
}
