/**
 * Small sequence and set vocabulary shared by the model: an Option type,
 * duplicate-freedom, occurrence counts and element removal.
 * Tables of the store are sequences of rows, so "at most one row per key"
 * is the property NoDup, and the lemmas here are what the store's
 * uniqueness proofs are built from.
 */
module Collections {

  datatype Option<T> = None | Some(value: T)

  /** No element occurs twice (a table with a unique constraint on the whole row). */
  predicate NoDup<T(==)>(s: seq<T>)
  {
    s == [] || (s[0] !in s[1..] && NoDup(s[1..]))
  }

  /** The set of elements of a sequence (Python's `set(list)`). */
  function Elems<T>(s: seq<T>): set<T>
  {
    set x | x in s
  }

  /** Number of occurrences of `x` in `s`. */
  function Count<T(==)>(s: seq<T>, x: T): (n: nat)
    ensures n <= |s|
    ensures n > 0 <==> x in s
  {
    if s == [] then 0 else (if s[0] == x then 1 else 0) + Count(s[1..], x)
  }

  /** `s` with every occurrence of `x` deleted (a `filter(...).delete()`). */
  function Remove<T(==)>(s: seq<T>, x: T): (r: seq<T>)
    ensures forall i :: 0 <= i < |r| ==> r[i] in s && r[i] != x
    ensures forall i :: 0 <= i < |s| && s[i] != x ==> s[i] in r
    ensures |r| <= |s|
  {
    if s == [] then []
    else if s[0] == x then Remove(s[1..], x)
    else [s[0]] + Remove(s[1..], x)
  }

  /** `n` copies of `x` (one row of a join per matching row on the other side). */
  function Repeat<T>(x: T, n: nat): (r: seq<T>)
    ensures |r| == n && forall i :: 0 <= i < n ==> r[i] == x
  {
    if n == 0 then [] else [x] + Repeat(x, n - 1)
  }

  /**
   * Python's duplicate test `len(l) != len(set(l))`: the set of a list has
   * as many elements as the list exactly when the list has no repeat.
   */
  lemma {:induction false} ElemsCardinality<T>(s: seq<T>)
    ensures |Elems(s)| <= |s|
    ensures |Elems(s)| == |s| <==> NoDup(s)
  {
    if s != [] {
      ElemsCardinality(s[1..]);
      assert Elems(s) == Elems(s[1..]) + {s[0]};
      if s[0] in s[1..] {
        assert Elems(s) == Elems(s[1..]);
      } else {
        assert s[0] !in Elems(s[1..]);
      }
    }
  }

  /** Index form of NoDup. */
  lemma {:induction false} NoDupIndices<T>(s: seq<T>, i: nat, j: nat)
    requires NoDup(s) && i < j < |s|
    ensures s[i] != s[j]
  {
    if i == 0 {
      assert s[j] == s[1..][j - 1];
    } else {
      assert s[i] == s[1..][i - 1] && s[j] == s[1..][j - 1];
      NoDupIndices(s[1..], i - 1, j - 1);
    }
  }

  /** In a duplicate-free sequence an element occurs at most once. */
  lemma {:induction false} NoDupCount<T>(s: seq<T>, x: T)
    requires NoDup(s)
    ensures Count(s, x) <= 1
  {
    if s != [] {
      NoDupCount(s[1..], x);
    }
  }

  /** Appending keeps a sequence duplicate-free exactly when the new element is absent. */
  lemma {:induction false} NoDupAppend<T>(s: seq<T>, x: T)
    ensures NoDup(s + [x]) <==> NoDup(s) && x !in s
  {
    if s != [] {
      assert (s + [x])[1..] == s[1..] + [x];
      NoDupAppend(s[1..], x);
    }
  }

  /** Removing elements keeps a sequence duplicate-free. */
  lemma {:induction false} NoDupRemove<T>(s: seq<T>, x: T)
    requires NoDup(s)
    ensures NoDup(Remove(s, x))
  {
    if s != [] {
      NoDupRemove(s[1..], x);
    }
  }

  /** Appending an absent element and then removing it restores the sequence. */
  lemma {:induction false} RemoveAppended<T>(s: seq<T>, x: T)
    requires x !in s
    ensures Remove(s + [x], x) == s
  {
    if s == [] {
      assert [x][1..] == [];
    } else {
      assert (s + [x])[1..] == s[1..] + [x];
      RemoveAppended(s[1..], x);
    }
  }

  /** NoDup read back to front: no element occurs in the part before it. */
  lemma {:induction false} NoDupPrefixes<T>(s: seq<T>)
    ensures NoDup(s) <==> forall k :: 0 <= k < |s| ==> s[k] !in s[..k]
  {
    if NoDup(s) {
      forall k | 0 <= k < |s|
        ensures s[k] !in s[..k]
      {
        if s[k] in s[..k] {
          var i :| 0 <= i < k && s[..k][i] == s[k];
          NoDupIndices(s, i, k);
        }
      }
    }
    if s != [] && forall k :: 0 <= k < |s| ==> s[k] !in s[..k] {
      var t := s[1..];
      forall k | 0 <= k < |t|
        ensures t[k] !in t[..k]
      {
        assert t[k] == s[k + 1] && t[..k] == s[1..k + 1];
      }
      NoDupPrefixes(t);
      forall m | 0 <= m < |t|
        ensures t[m] != s[0]
      {
        assert s[..m + 1][0] == s[0] && t[m] == s[m + 1];
      }
    }
  }

  lemma {:induction false} CountAppend<T>(a: seq<T>, b: seq<T>, x: T)
    ensures Count(a + b, x) == Count(a, x) + Count(b, x)
  {
    if a == [] {
      assert a + b == b;
    } else {
      assert (a + b)[0] == a[0] && (a + b)[1..] == a[1..] + b;
      CountAppend(a[1..], b, x);
    }
  }
}
