/** Order-preserving de-duplication of a list by a key: the first element
    with each key is kept, later ones are dropped. */
module Dedup {
  import opened Collections

  /** Keys of the elements of a list. */
  ghost function KeysOf<T, K>(s: seq<T>, key: T -> K): set<K> {
    set x | x in s :: key(x)
  }

  /** Elements at different positions carry different keys. */
  predicate DistinctKeys<T, K(==)>(s: seq<T>, key: T -> K) {
    forall i, j | 0 <= i < j < |s| :: key(s[i]) != key(s[j])
  }

  /** The filter, given the set of keys already seen. */
  function DedupFrom<T(==), K(==)>(s: seq<T>, key: T -> K, seen: set<K>): (r: seq<T>)
    ensures IsSubsequence(r, s)
    ensures DistinctKeys(r, key)
    ensures KeysOf(r, key) == KeysOf(s, key) - seen
  {
    if |s| == 0 then []
    else
      var k := key(s[0]);
      var rest := DedupFrom(s[1..], key, if k in seen then seen else seen + {k});
      KeysOfCons(s, key);
      if k in seen then
        SkipHead(s[0], rest, s[1..]);
        assert [s[0]] + s[1..] == s;
        rest
      else
        KeptHead(s, key, rest);
        [s[0]] + rest
  }

  lemma KeysOfCons<T, K>(s: seq<T>, key: T -> K)
    requires |s| > 0
    ensures KeysOf(s, key) == {key(s[0])} + KeysOf(s[1..], key)
  {
    assert s == [s[0]] + s[1..];
  }

  lemma KeptHead<T, K>(s: seq<T>, key: T -> K, rest: seq<T>)
    requires |s| > 0
    requires IsSubsequence(rest, s[1..]) && DistinctKeys(rest, key)
    requires key(s[0]) !in KeysOf(rest, key)
    ensures IsSubsequence([s[0]] + rest, s)
    ensures DistinctKeys([s[0]] + rest, key)
    ensures KeysOf([s[0]] + rest, key) == KeysOf(rest, key) + {key(s[0])}
  {
    var r := [s[0]] + rest;
    assert r[0] == s[0] && r[1..] == rest;
    forall i, j | 0 <= i < j < |r| ensures key(r[i]) != key(r[j]) {
      if i == 0 {
        assert r[j] == rest[j - 1];
        assert r[j] in rest;
      } else {
        assert r[i] == rest[i - 1] && r[j] == rest[j - 1];
      }
    }
    assert forall x :: x in r <==> x == s[0] || x in rest;
  }

  /** A kept element carries a key that had not been seen. */
  lemma KeptNotSeen<T, K>(s: seq<T>, key: T -> K, seen: set<K>, x: T)
    requires x in DedupFrom(s, key, seen)
    ensures key(x) !in seen
  {
    assert key(x) in KeysOf(DedupFrom(s, key, seen), key);
  }

  /** A kept element is the first of the input with its key: no element with
      the same key comes before it. */
  lemma {:induction false} KeepsFirst<T, K>(s: seq<T>, key: T -> K, seen: set<K>, x: T, j: nat)
    requires x in DedupFrom(s, key, seen)
    requires j < |s| && key(s[j]) == key(x)
    ensures x in s[..j + 1]
  {
    if x == s[0] {
      PrefixHoldsHead(s, j);
    } else {
      var k := key(s[0]);
      var seen' := if k in seen then seen else seen + {k};
      assert x in DedupFrom(s[1..], key, seen') by {
        DedupStep(s, key, seen);
      }
      assert j != 0 by {
        KeptNotSeen(s[1..], key, seen', x);
      }
      KeepsFirst(s[1..], key, seen', x, j - 1);
      PrefixOfTail(s, j, x);
    }
  }

  /** One step of the filter: the head is kept exactly when its key is new. */
  lemma DedupStep<T, K>(s: seq<T>, key: T -> K, seen: set<K>)
    requires |s| > 0
    ensures var k := key(s[0]);
            DedupFrom(s, key, seen)
            == (if k in seen then [] else [s[0]])
               + DedupFrom(s[1..], key, if k in seen then seen else seen + {k})
  {
  }

  /** A list whose keys are distinct and unseen passes unchanged. */
  lemma {:induction false} DedupOfDistinct<T, K>(s: seq<T>, key: T -> K, seen: set<K>)
    requires DistinctKeys(s, key)
    requires KeysOf(s, key) !! seen
    ensures DedupFrom(s, key, seen) == s
  {
    if |s| > 0 {
      var k := key(s[0]);
      KeysOfCons(s, key);
      forall i | 0 <= i < |s[1..]| ensures key(s[1..][i]) != k {
        assert s[1..][i] == s[i + 1];
      }
      assert k !in KeysOf(s[1..], key);
      assert DistinctKeys(s[1..], key) by {
        forall i, j | 0 <= i < j < |s[1..]| ensures key(s[1..][i]) != key(s[1..][j]) {
          assert s[1..][i] == s[i + 1] && s[1..][j] == s[j + 1];
        }
      }
      DedupOfDistinct(s[1..], key, seen + {k});
    }
  }

  /** Filtering a concatenation: the second part is filtered against the keys
      the first part has already contributed. */
  lemma {:induction false} DedupAppend<T, K>(a: seq<T>, b: seq<T>, key: T -> K, seen: set<K>)
    ensures DedupFrom(a + b, key, seen) == DedupFrom(a, key, seen) + DedupFrom(b, key, seen + KeysOf(a, key))
  {
    if |a| == 0 {
      assert a + b == b;
      assert seen + KeysOf(a, key) == seen;
      assert DedupFrom(a, key, seen) == [];
    } else {
      var k := key(a[0]);
      var seen' := if k in seen then seen else seen + {k};
      DedupAppend(a[1..], b, key, seen');
      SeenAfterHead(a, key, seen);
      AppendAfterHead(a, b, key, seen);
    }
  }

  /** The keys seen after the head, then the rest, of a list. */
  lemma SeenAfterHead<T, K>(a: seq<T>, key: T -> K, seen: set<K>)
    requires |a| > 0
    ensures var k := key(a[0]);
            (if k in seen then seen else seen + {k}) + KeysOf(a[1..], key) == seen + KeysOf(a, key)
  {
    KeysOfCons(a, key);
  }

  /** The inductive step of `DedupAppend`, given the claim for the tail. */
  lemma AppendAfterHead<T, K>(a: seq<T>, b: seq<T>, key: T -> K, seen: set<K>)
    requires |a| > 0
    requires var k := key(a[0]);
             var seen' := if k in seen then seen else seen + {k};
             DedupFrom(a[1..] + b, key, seen')
             == DedupFrom(a[1..], key, seen') + DedupFrom(b, key, seen + KeysOf(a, key))
    ensures DedupFrom(a + b, key, seen) == DedupFrom(a, key, seen) + DedupFrom(b, key, seen + KeysOf(a, key))
  {
    if key(a[0]) in seen {
      AppendHeadSeen(a, b, key, seen, DedupFrom(b, key, seen + KeysOf(a, key)));
    } else {
      AppendHeadNew(a, b, key, seen, DedupFrom(b, key, seen + KeysOf(a, key)));
    }
  }

  lemma AppendHeadSeen<T, K>(a: seq<T>, b: seq<T>, key: T -> K, seen: set<K>, q: seq<T>)
    requires |a| > 0 && key(a[0]) in seen
    requires DedupFrom(a[1..] + b, key, seen) == DedupFrom(a[1..], key, seen) + q
    ensures DedupFrom(a + b, key, seen) == DedupFrom(a, key, seen) + q
  {
    AppendTail(a, b);
    DedupStep(a + b, key, seen);
    DedupStep(a, key, seen);
  }

  lemma AppendHeadNew<T, K>(a: seq<T>, b: seq<T>, key: T -> K, seen: set<K>, q: seq<T>)
    requires |a| > 0 && key(a[0]) !in seen
    requires DedupFrom(a[1..] + b, key, seen + {key(a[0])}) == DedupFrom(a[1..], key, seen + {key(a[0])}) + q
    ensures DedupFrom(a + b, key, seen) == DedupFrom(a, key, seen) + q
  {
    var seen' := seen + {key(a[0])};
    AppendTail(a, b);
    DedupStep(a + b, key, seen);
    DedupStep(a, key, seen);
    ConsAppend(a[0], DedupFrom(a[1..], key, seen'), q, DedupFrom(a[1..] + b, key, seen'),
               DedupFrom(a + b, key, seen), DedupFrom(a, key, seen));
  }

  lemma ConsAppend<T>(x: T, p: seq<T>, q: seq<T>, t: seq<T>, u: seq<T>, v: seq<T>)
    requires t == p + q && u == [x] + t && v == [x] + p
    ensures u == v + q
  {
  }

  /** Elements whose keys have all been seen are all dropped. */
  lemma {:induction false} DedupAllSeen<T, K>(b: seq<T>, key: T -> K, seen: set<K>)
    requires KeysOf(b, key) <= seen
    ensures DedupFrom(b, key, seen) == []
  {
    if |b| > 0 {
      KeysOfCons(b, key);
      DedupAllSeen(b[1..], key, seen);
    }
  }

  /** Elements that repeat a key of an earlier element can be deleted before
      filtering. */
  lemma DropRepeated<T, K>(a: seq<T>, m: seq<T>, b: seq<T>, key: T -> K, seen: set<K>)
    requires KeysOf(m, key) <= seen + KeysOf(a, key)
    ensures DedupFrom(a + m + b, key, seen) == DedupFrom(a + b, key, seen)
  {
    var sa := seen + KeysOf(a, key);
    assert a + m + b == a + (m + b);
    DedupAppend(a, m + b, key, seen);
    DedupAppend(m, b, key, sa);
    DedupAllSeen(m, key, sa);
    assert sa + KeysOf(m, key) == sa;
    assert DedupFrom(m + b, key, sa) == DedupFrom(b, key, sa);
    DedupAppend(a, b, key, seen);
  }
}
