/** Keys numbered by first appearance: the position a map gives a key by using its own size. */
module FirstSeen {

  ghost predicate Distinct<T>(keys: seq<T>) { forall i, j :: 0 <= i < j < |keys| ==> keys[i] != keys[j] }

  function Add<T(==)>(keys: seq<T>, key: T): (more: seq<T>)
    ensures key in more && keys <= more
    ensures Distinct(keys) ==> Distinct(more)
  {
    if key in keys then keys else keys + [key]
  }

  function Index<T(==)>(keys: seq<T>, key: T): (i: nat)
    requires key in keys
    ensures i < |keys| && keys[i] == key
    ensures forall j :: 0 <= j < i ==> keys[j] != key
  {
    if keys[0] == key then 0 else 1 + Index(keys[1..], key)
  }

  /** Later keys never renumber earlier ones. */
  lemma IndexIsKept<T>(keys: seq<T>, more: seq<T>, key: T)
    requires keys <= more && key in keys
    ensures key in more && Index(more, key) == Index(keys, key)
  {
    var i := Index(keys, key);
    assert more[i] == keys[i];
    assert forall j :: 0 <= j < i ==> more[j] == keys[j];
  }

  lemma IndexOfNewKey<T>(keys: seq<T>, key: T)
    requires key !in keys
    ensures Index(keys + [key], key) == |keys|
  {
    assert (keys + [key])[|keys|] == key;
    assert forall j :: 0 <= j < |keys| ==> (keys + [key])[j] == keys[j] && keys[j] in keys;
  }

  ghost function Members<T>(keys: seq<T>): set<T> { set k | k in keys }

  lemma {:induction false} DistinctSize<T>(keys: seq<T>)
    requires Distinct(keys)
    ensures |Members(keys)| == |keys|
  {
    if keys != [] {
      var front, last := keys[..|keys| - 1], keys[|keys| - 1];
      DistinctSize(front);
      assert Members(keys) == Members(front) + {last};
      assert last !in Members(front);
    }
  }
}
