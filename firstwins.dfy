/** Deduplication where the first occurrence wins, stated without a `seen`
    set: element `j` of a sequence is kept when it has a key and no earlier
    element has the same key. `key` gives `None` for elements that are
    never kept at all. */
module FirstWins {
  import opened PyJson

  /** Element `j` has a key that no earlier element has. */
  predicate IsFirst<T, K(==)>(P: seq<T>, j: int, key: T -> Option<K>)
    requires 0 <= j < |P|
  {
    key(P[j]).Some? && forall i :: 0 <= i < j ==> key(P[i]) != key(P[j])
  }

  /** `x` is an element of `P` that is first for its key. */
  predicate IsFirstIn<T(==), K(==)>(P: seq<T>, x: T, key: T -> Option<K>) {
    exists j :: 0 <= j < |P| && IsFirst(P, j, key) && P[j] == x
  }

  /** The elements of `P` that are first for their key, in the order of `P`. */
  function Kept<T, K(==)>(P: seq<T>, key: T -> Option<K>): seq<T>
    decreases |P|
  {
    if P == [] then []
    else Kept(P[..|P| - 1], key) + (if IsFirst(P, |P| - 1, key) then [P[|P| - 1]] else [])
  }

  /** The keys of the elements of `P`. */
  function Keys<T, K(==)>(P: seq<T>, key: T -> Option<K>): set<K>
    decreases |P|
  {
    if P == [] then {}
    else Keys(P[..|P| - 1], key) + (if key(P[|P| - 1]).Some? then {key(P[|P| - 1]).value} else {})
  }

  lemma {:induction false} KeysMembership<T, K>(P: seq<T>, key: T -> Option<K>, k: K)
    ensures k in Keys(P, key) <==> exists i :: 0 <= i < |P| && key(P[i]) == Some(k)
    decreases |P|
  {
    if P != [] {
      var Q := P[..|P| - 1];
      KeysMembership(Q, key, k);
      assert forall i :: 0 <= i < |Q| ==> Q[i] == P[i];
      if k in Keys(P, key) && k in Keys(Q, key) {
        var i :| 0 <= i < |Q| && key(Q[i]) == Some(k);
        assert key(P[i]) == Some(k);
      }
    }
  }

  /** Being first is not having a key already collected from the elements
      before. */
  lemma IsFirstIff<T, K>(P: seq<T>, j: int, key: T -> Option<K>)
    requires 0 <= j < |P|
    ensures IsFirst(P, j, key) <==> key(P[j]).Some? && key(P[j]).value !in Keys(P[..j], key)
  {
    if key(P[j]).Some? {
      KeysMembership(P[..j], key, key(P[j]).value);
      assert forall i :: 0 <= i < j ==> P[..j][i] == P[i];
    }
  }

  /** Appending one element: it is kept exactly when it has a key not
      collected before, and its key joins the collected ones. */
  lemma {:induction false} KeptSnoc<T, K>(P: seq<T>, x: T, key: T -> Option<K>)
    ensures Kept(P + [x], key)
            == Kept(P, key) + (if key(x).Some? && key(x).value !in Keys(P, key) then [x] else [])
    ensures Keys(P + [x], key) == Keys(P, key) + (if key(x).Some? then {key(x).value} else {})
  {
    var P' := P + [x];
    assert P'[..|P'| - 1] == P && P'[..|P|] == P && P'[|P'| - 1] == x;
    IsFirstIff(P', |P|, key);
  }

  /** Whether element `j` is first depends only on elements `0..j`. */
  lemma IsFirstPrefix<T, K>(P: seq<T>, n: int, j: int, key: T -> Option<K>)
    requires 0 <= j < n <= |P|
    ensures IsFirst(P[..n], j, key) == IsFirst(P, j, key)
  {
    assert forall i :: 0 <= i <= j ==> P[..n][i] == P[i];
  }

  /** Every kept element is first for its key. */
  lemma {:induction false} KeptAreFirsts<T, K>(P: seq<T>, key: T -> Option<K>)
    ensures forall k :: 0 <= k < |Kept(P, key)| ==> IsFirstIn(P, Kept(P, key)[k], key)
    decreases |P|
  {
    if P != [] {
      var Q := P[..|P| - 1];
      KeptAreFirsts(Q, key);
      forall k | 0 <= k < |Kept(P, key)|
        ensures IsFirstIn(P, Kept(P, key)[k], key)
      {
        if k < |Kept(Q, key)| {
          assert IsFirstIn(Q, Kept(Q, key)[k], key);
          var j :| 0 <= j < |Q| && IsFirst(Q, j, key) && Q[j] == Kept(Q, key)[k];
          IsFirstPrefix(P, |P| - 1, j, key);
          assert Kept(P, key)[k] == P[j];
        } else {
          assert Kept(P, key)[k] == P[|P| - 1];
        }
      }
    }
  }

  /** Every element that is first for its key is kept. */
  lemma {:induction false} FirstsAreKept<T, K>(P: seq<T>, key: T -> Option<K>)
    ensures forall j :: 0 <= j < |P| && IsFirst(P, j, key) ==> P[j] in Kept(P, key)
    decreases |P|
  {
    if P != [] {
      var Q := P[..|P| - 1];
      FirstsAreKept(Q, key);
      forall j | 0 <= j < |P| && IsFirst(P, j, key)
        ensures P[j] in Kept(P, key)
      {
        if j < |Q| {
          IsFirstPrefix(P, |P| - 1, j, key);
          assert P[j] == Q[j];
        }
      }
    }
  }

  /** Kept elements all have keys, and they have between them every key of
      `P`. */
  lemma {:induction false} KeptKeys<T, K>(P: seq<T>, key: T -> Option<K>)
    ensures forall k :: 0 <= k < |Kept(P, key)| ==> key(Kept(P, key)[k]).Some?
    ensures Keys(Kept(P, key), key) == Keys(P, key)
    decreases |P|
  {
    if P != [] {
      var Q := P[..|P| - 1];
      var x := P[|P| - 1];
      assert P == Q + [x];
      KeptKeys(Q, key);
      KeptSnoc(Q, x, key);
      var K := Kept(Q, key);
      if key(x).Some? && key(x).value !in Keys(Q, key) {
        assert Kept(P, key) == K + [x];
        KeptSnoc(K, x, key);
        forall k | 0 <= k < |K + [x]|
          ensures key((K + [x])[k]).Some?
        {
          if k < |K| {
            assert (K + [x])[k] == K[k];
          }
        }
      } else {
        assert Kept(P, key) == K;
        assert Keys(P, key) == Keys(Q, key);
      }
    }
  }

  /** No two kept elements share a key. */
  lemma {:induction false} KeptDistinct<T, K>(P: seq<T>, key: T -> Option<K>)
    ensures forall a, b :: 0 <= a < b < |Kept(P, key)| ==> key(Kept(P, key)[a]) != key(Kept(P, key)[b])
    decreases |P|
  {
    if P != [] {
      var Q := P[..|P| - 1];
      var x := P[|P| - 1];
      assert P == Q + [x];
      KeptDistinct(Q, key);
      KeptKeys(Q, key);
      KeptSnoc(Q, x, key);
      var K := Kept(Q, key);
      if key(x).Some? && key(x).value !in Keys(Q, key) {
        forall a | 0 <= a < |K|
          ensures key(K[a]) != key(x)
        {
          KeysMembership(K, key, key(K[a]).value);
        }
      }
    }
  }

  /** Elements kept from a prefix stay kept, in front: reading more only
      appends. */
  lemma {:induction false} KeptPrefix<T, K>(P: seq<T>, Q: seq<T>, key: T -> Option<K>)
    ensures Kept(P, key) <= Kept(P + Q, key)
    decreases |Q|
  {
    if Q == [] {
      assert P + Q == P;
    } else {
      var R := P + Q[..|Q| - 1];
      KeptPrefix(P, Q[..|Q| - 1], key);
      assert P + Q == R + [Q[|Q| - 1]];
      KeptSnoc(R, Q[|Q| - 1], key);
    }
  }
}
