/**
 * The keyed views the recipe diff builds before comparing: a Go map filled by
 * `for _, x := range xs { m[key(x)] = x }`, so that a later element overwrites
 * an earlier one with the same key.
 */
module KeyedView {

  /** The set of keys occurring in `xs`. */
  function Keys<T>(xs: seq<T>, key: T -> string): set<string> {
    set i | 0 <= i < |xs| :: key(xs[i])
  }

  /** Peeling the last element off `xs` peels its key off the key set. */
  lemma KeysSnoc<T>(xs: seq<T>, key: T -> string)
    requires xs != []
    ensures Keys(xs, key) == Keys(xs[..|xs| - 1], key) + {key(xs[|xs| - 1])}
  {
    var init := xs[..|xs| - 1];
    assert forall i :: 0 <= i < |init| ==> init[i] == xs[i];
  }

  /** No two elements of `xs` share a key. */
  predicate UniqueKeys<T>(xs: seq<T>, key: T -> string) {
    forall i, j :: 0 <= i < j < |xs| ==> key(xs[i]) != key(xs[j])
  }

  /** The map a left-to-right fill of `xs` leaves behind. */
  function Index<T>(xs: seq<T>, key: T -> string): (m: map<string, T>)
    ensures m.Keys == Keys(xs, key)
    ensures forall k :: k in m ==> key(m[k]) == k
  {
    if xs == [] then map[]
    else
      var init, last := xs[..|xs| - 1], xs[|xs| - 1];
      assert xs == init + [last];
      Index(init, key)[key(last) := last]
  }

  /** No later element of `xs` carries the key of `xs[j]`. */
  ghost predicate LastWithKey<T>(xs: seq<T>, key: T -> string, j: int)
    requires 0 <= j < |xs|
  {
    forall k :: j < k < |xs| ==> key(xs[k]) != key(xs[j])
  }

  /** The value kept for a key is the LAST element carrying that key. */
  lemma {:induction false} IndexLastWins<T>(xs: seq<T>, key: T -> string, i: nat)
    requires i < |xs| && LastWithKey(xs, key, i)
    ensures key(xs[i]) in Index(xs, key) && Index(xs, key)[key(xs[i])] == xs[i]
  {
    if i < |xs| - 1 {
      var init := xs[..|xs| - 1];
      IndexLastWins(init, key, i);
    }
  }

  /** With unique keys, every element is its own key's value. */
  lemma IndexOfUnique<T>(xs: seq<T>, key: T -> string)
    requires UniqueKeys(xs, key)
    ensures forall i :: 0 <= i < |xs| ==> Index(xs, key)[key(xs[i])] == xs[i]
  {
    forall i | 0 <= i < |xs| ensures Index(xs, key)[key(xs[i])] == xs[i] {
      IndexLastWins(xs, key, i);
    }
  }

  /** The distinct keys of `xs` in order of first occurrence. */
  function DistinctKeys<T>(xs: seq<T>, key: T -> string): (ks: seq<string>)
    ensures forall i, j :: 0 <= i < j < |ks| ==> ks[i] != ks[j]
  {
    if xs == [] then []
    else
      var init, last := xs[..|xs| - 1], xs[|xs| - 1];
      assert xs == init + [last];
      var ks := DistinctKeys(init, key);
      if key(last) in ks then ks else ks + [key(last)]
  }

  /** DistinctKeys lists exactly the keys of `xs`. */
  lemma {:induction false} DistinctKeysSpan<T>(xs: seq<T>, key: T -> string)
    ensures forall k :: k in DistinctKeys(xs, key) <==> k in Keys(xs, key)
  {
    if xs != [] {
      DistinctKeysSpan(xs[..|xs| - 1], key);
      KeysSnoc(xs, key);
    }
  }

  /** Every element's key is a key of the index. */
  lemma IndexHasKey<T>(xs: seq<T>, key: T -> string, i: nat)
    requires i < |xs|
    ensures key(xs[i]) in Index(xs, key)
  {
    assert key(xs[i]) in Keys(xs, key);
  }

  /** How many elements of `xs` carry key `k`. */
  function Occurrences<T>(xs: seq<T>, key: T -> string, k: string): nat {
    if xs == [] then 0
    else Occurrences(xs[..|xs| - 1], key, k) + (if key(xs[|xs| - 1]) == k then 1 else 0)
  }

  /** A key occurs in `xs` exactly when it is a key of `xs`. */
  lemma {:induction false} OccurrencesPositive<T>(xs: seq<T>, key: T -> string, k: string)
    ensures Occurrences(xs, key, k) > 0 <==> k in Keys(xs, key)
  {
    if xs != [] {
      OccurrencesPositive(xs[..|xs| - 1], key, k);
      KeysSnoc(xs, key);
    }
  }

  /** The value the index keeps for a key is the last element carrying it. */
  lemma {:induction false} IndexIsLast<T>(xs: seq<T>, key: T -> string, k: string)
    requires k in Index(xs, key)
    ensures exists i :: 0 <= i < |xs| && xs[i] == Index(xs, key)[k] && key(xs[i]) == k &&
                        LastWithKey(xs, key, i)
  {
    var init, last := xs[..|xs| - 1], xs[|xs| - 1];
    if key(last) == k {
      assert xs[|xs| - 1] == Index(xs, key)[k];
    } else {
      IndexIsLast(init, key, k);
      var i :| 0 <= i < |init| && init[i] == Index(init, key)[k] && key(init[i]) == k &&
               LastWithKey(init, key, i);
      assert xs[i] == init[i];
      assert LastWithKey(xs, key, i);
    }
  }
}
