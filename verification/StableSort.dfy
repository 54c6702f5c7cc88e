/** Python's `sorted(..., key=..., reverse=True)`: descending by key, equal keys in their original order. */
module StableSort {
  function Insert<T>(x: T, s: seq<T>, key: T -> int): seq<T> {
    if s == [] || key(s[|s| - 1]) >= key(x) then s + [x]
    else Insert(x, s[..|s| - 1], key) + [s[|s| - 1]]
  }

  function Sort<T>(s: seq<T>, key: T -> int): seq<T> {
    if s == [] then [] else Insert(s[|s| - 1], Sort(s[..|s| - 1], key), key)
  }

  ghost predicate Descending<T>(s: seq<T>, key: T -> int) {
    forall i, j :: 0 <= i < j < |s| ==> key(s[i]) >= key(s[j])
  }

  lemma {:induction false} InsertElements<T>(x: T, s: seq<T>, key: T -> int)
    ensures multiset(Insert(x, s, key)) == multiset(s) + multiset{x}
  {
    if s != [] && !(key(s[|s| - 1]) >= key(x)) {
      InsertElements(x, s[..|s| - 1], key);
      assert s == s[..|s| - 1] + [s[|s| - 1]];
    }
  }

  lemma {:induction false} SortElements<T>(s: seq<T>, key: T -> int)
    ensures multiset(Sort(s, key)) == multiset(s)
  {
    if s != [] {
      SortElements(s[..|s| - 1], key);
      InsertElements(s[|s| - 1], Sort(s[..|s| - 1], key), key);
      assert s == s[..|s| - 1] + [s[|s| - 1]];
    }
  }

  lemma {:induction false} InsertDescending<T>(x: T, s: seq<T>, key: T -> int)
    requires Descending(s, key)
    ensures Descending(Insert(x, s, key), key)
  {
    if s != [] && !(key(s[|s| - 1]) >= key(x)) {
      var init, last := s[..|s| - 1], s[|s| - 1];
      InsertDescending(x, init, key);
      InsertElements(x, init, key);
      var t := Insert(x, init, key);
      forall i | 0 <= i < |t| ensures key(t[i]) >= key(last) {
        assert t[i] in multiset(t);
        assert t[i] == x || t[i] in init;
      }
    }
  }

  lemma {:induction false} SortDescending<T>(s: seq<T>, key: T -> int)
    ensures Descending(Sort(s, key), key)
  {
    if s != [] {
      SortDescending(s[..|s| - 1], key);
      InsertDescending(s[|s| - 1], Sort(s[..|s| - 1], key), key);
    }
  }

  /** Elements at which the key is `k`, in order. */
  function WithKey<T>(s: seq<T>, key: T -> int, k: int): seq<T> {
    if s == [] then [] else WithKey(s[..|s| - 1], key, k) + (if key(s[|s| - 1]) == k then [s[|s| - 1]] else [])
  }

  lemma {:induction false} InsertStable<T>(x: T, s: seq<T>, key: T -> int, k: int)
    requires Descending(s, key)
    ensures WithKey(Insert(x, s, key), key, k) == WithKey(s, key, k) + (if key(x) == k then [x] else [])
  {
    if s == [] || key(s[|s| - 1]) >= key(x) {
      assert (s + [x])[..|s|] == s;
    } else {
      var init, last := s[..|s| - 1], s[|s| - 1];
      InsertStable(x, init, key, k);
      assert (Insert(x, init, key) + [last])[..|Insert(x, init, key)|] == Insert(x, init, key);
      if key(last) == k && key(x) == k {
        assert false;
      }
    }
  }

  /** Elements with equal keys keep their order. */
  lemma {:induction false} SortStable<T>(s: seq<T>, key: T -> int, k: int)
    ensures WithKey(Sort(s, key), key, k) == WithKey(s, key, k)
  {
    if s != [] {
      SortDescending(s[..|s| - 1], key);
      SortStable(s[..|s| - 1], key, k);
      InsertStable(s[|s| - 1], Sort(s[..|s| - 1], key), key, k);
    }
  }
}
