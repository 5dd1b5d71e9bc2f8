/** First occurrences in a sequence of optional keys. */
module Firsts {
  import opened Options

  /** The keys among the first `n` entries. */
  function Present<T>(keys: seq<Option<T>>, n: nat): set<T>
    requires n <= |keys|
  {
    if n == 0 then {}
    else Present(keys, n - 1) + (if keys[n - 1].Some? then {keys[n - 1].value} else {})
  }

  lemma {:induction false} PresentAt<T>(keys: seq<Option<T>>, n: nat, i: nat)
    requires i < n <= |keys| && keys[i].Some?
    ensures keys[i].value in Present(keys, n)
  {
    if i < n - 1 {
      PresentAt(keys, n - 1, i);
    }
  }

  lemma {:induction false} PresentGrows<T>(keys: seq<Option<T>>, n: nat, m: nat)
    requires n <= m <= |keys|
    ensures Present(keys, n) <= Present(keys, m)
  {
    if n < m {
      PresentGrows(keys, n, m - 1);
    }
  }

  lemma PresentBounds<T>(keys: seq<Option<T>>, n: nat, base: set<T>, before: set<T>, after: set<T>)
    requires 0 < n <= |keys|
    requires before <= base + Present(keys, n - 1)
    requires after == before || (keys[n - 1].Some? && after == before + {keys[n - 1].value})
    ensures after <= base + Present(keys, n)
  {
  }

  predicate IsFirst<T(==)>(keys: seq<Option<T>>, key: T, i: nat) {
    i < |keys| && keys[i] == Some(key) && forall j | 0 <= j < i :: keys[j] != Some(key)
  }

  function FirstOf<T(==)>(keys: seq<Option<T>>, key: T, n: nat): (i: nat)
    requires n <= |keys| && key in Present(keys, n)
    ensures i < n && IsFirst(keys, key, i)
  {
    if key in Present(keys, n - 1) then FirstOf(keys, key, n - 1)
    else
      assert IsFirst(keys, key, n - 1) by {
        forall j | 0 <= j < n - 1 ensures keys[j] != Some(key) {
          if keys[j].Some? {
            PresentAt(keys, n - 1, j);
          }
        }
      }
      n - 1
  }

  lemma FirstIs<T>(keys: seq<Option<T>>, n: nat)
    requires 0 < n <= |keys| && keys[n - 1].Some? && keys[n - 1].value !in Present(keys, n - 1)
    ensures keys[n - 1].value in Present(keys, |keys|)
    ensures FirstOf(keys, keys[n - 1].value, |keys|) == n - 1
  {
    PresentAt(keys, |keys|, n - 1);
    forall j | 0 <= j < n - 1 ensures keys[j] != keys[n - 1] {
      if keys[j].Some? {
        PresentAt(keys, n - 1, j);
      }
    }
  }

  // ---------------------------------------------------------------------------------------
  // Keys that are not in a given set, each with the value of its first occurrence
  // ---------------------------------------------------------------------------------------

  function Unseen<T>(keys: seq<Option<T>>, seen: set<T>, n: nat): (unseen: set<T>)
    requires n <= |keys|
    ensures unseen <= Present(keys, |keys|)
  {
    PresentGrows(keys, n, |keys|);
    Present(keys, n) - seen
  }

  function Gather<T, V>(keys: seq<Option<T>>, values: seq<V>, chosen: set<T>): (m: map<T, V>)
    requires |keys| == |values| && chosen <= Present(keys, |keys|)
    ensures m.Keys == chosen
  {
    map k | k in chosen :: values[FirstOf(keys, k, |keys|)]
  }

  /** The entry before position `n` has a key that is neither in `seen` nor earlier. */
  predicate AddsAt<T(==)>(keys: seq<Option<T>>, seen: set<T>, n: nat)
    requires 0 < n <= |keys|
  {
    keys[n - 1].Some? && keys[n - 1].value !in seen && keys[n - 1].value !in Present(keys, n - 1)
  }

  lemma UnseenNew<T>(keys: seq<Option<T>>, seen: set<T>, n: nat)
    requires 0 < n <= |keys| && AddsAt(keys, seen, n)
    ensures var k, earlier := keys[n - 1].value, Unseen(keys, seen, n - 1);
            && k !in earlier && Unseen(keys, seen, n) == earlier + {k}
            && |Unseen(keys, seen, n)| == |earlier| + 1
  {
    assert Unseen(keys, seen, n) == Unseen(keys, seen, n - 1) + {keys[n - 1].value};
  }

  lemma UnseenOld<T>(keys: seq<Option<T>>, seen: set<T>, n: nat)
    requires 0 < n <= |keys| && !AddsAt(keys, seen, n)
    ensures Unseen(keys, seen, n) == Unseen(keys, seen, n - 1)
    ensures keys[n - 1].Some? ==> keys[n - 1].value in seen + Unseen(keys, seen, n)
  {
  }

  lemma GatherNew<T, V>(keys: seq<Option<T>>, values: seq<V>, seen: set<T>, n: nat)
    requires 0 < n <= |keys| == |values| && AddsAt(keys, seen, n)
    ensures Gather(keys, values, Unseen(keys, seen, n)) ==
            Gather(keys, values, Unseen(keys, seen, n - 1))[keys[n - 1].value := values[n - 1]]
  {
    hide FirstOf;
    hide Present;
    hide IsFirst;
    UnseenNew(keys, seen, n);
    FirstIs(keys, n);
  }
}
