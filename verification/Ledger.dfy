/** Amounts accumulated under keys, as in `d[k] = d.get(k, 0.0) + v` over a list of rows. */
module Ledger {

  datatype Item<K> = Item(key: K, amount: real)

  function Total<K(==)>(items: seq<Item<K>>): real {
    if items == [] then 0.0 else items[0].amount + Total(items[1..])
  }

  /** The amounts under one key. */
  function KeySum<K(==)>(items: seq<Item<K>>, key: K): real {
    if items == [] then 0.0
    else (if items[0].key == key then items[0].amount else 0.0) + KeySum(items[1..], key)
  }

  /** The amounts under each of a list of keys, added up; a key listed twice counts twice. */
  function SumKeys<K(==)>(keys: seq<K>, items: seq<Item<K>>): real {
    if keys == [] then 0.0 else KeySum(items, keys[0]) + SumKeys(keys[1..], items)
  }

  predicate Distinct<K(==)>(keys: seq<K>) {
    forall i, j :: 0 <= i < j < |keys| ==> keys[i] != keys[j]
  }

  predicate Covers<K(==)>(keys: seq<K>, items: seq<Item<K>>) {
    forall i :: 0 <= i < |items| ==> items[i].key in keys
  }

  /** The keys in order of first use: the order in which a dictionary lists them. */
  function Keys<K(==)>(items: seq<Item<K>>): (keys: seq<K>)
    ensures Distinct(keys) && Covers(keys, items)
    ensures forall k :: k in keys ==> exists i :: 0 <= i < |items| && items[i].key == k
  {
    if items == [] then []
    else
      var last := items[|items|-1].key;
      var before := Keys(items[..|items|-1]);
      if last in before then before else before + [last]
  }

  lemma {:induction false} KeySumConcat<K>(a: seq<Item<K>>, b: seq<Item<K>>, key: K)
    ensures KeySum(a + b, key) == KeySum(a, key) + KeySum(b, key)
    ensures Total(a + b) == Total(a) + Total(b)
  {
    if a == [] {
      assert a + b == b;
    } else {
      KeySumConcat(a[1..], b, key);
      assert (a + b)[0] == a[0] && (a + b)[1..] == a[1..] + b;
    }
  }

  lemma {:induction false} SumKeysOfNone<K>(keys: seq<K>)
    ensures SumKeys(keys, []) == 0.0
  {
    if keys != [] { SumKeysOfNone(keys[1..]); }
  }

  lemma {:induction false} SumKeysOfFirst<K>(keys: seq<K>, items: seq<Item<K>>)
    requires items != [] && Distinct(keys)
    ensures SumKeys(keys, items)
         == SumKeys(keys, items[1..]) + if items[0].key in keys then items[0].amount else 0.0
  {
    if keys != [] {
      assert Distinct(keys[1..]);
      SumKeysOfFirst(keys[1..], items);
      assert items[0].key == keys[0] ==> items[0].key !in keys[1..];
    }
  }

  /** Conservation: over distinct keys that cover all items, the sums per key add up to the total. */
  lemma {:induction false} SumOverKeys<K>(keys: seq<K>, items: seq<Item<K>>)
    requires Distinct(keys) && Covers(keys, items)
    ensures SumKeys(keys, items) == Total(items)
  {
    if items == [] {
      SumKeysOfNone(keys);
    } else {
      SumKeysOfFirst(keys, items);
      assert Covers(keys, items[1..]);
      SumOverKeys(keys, items[1..]);
    }
  }

  lemma {:induction false} SumKeysConcat<K>(a: seq<K>, b: seq<K>, items: seq<Item<K>>)
    ensures SumKeys(a + b, items) == SumKeys(a, items) + SumKeys(b, items)
  {
    if a == [] {
      assert a + b == b;
    } else {
      SumKeysConcat(a[1..], b, items);
      assert (a + b)[0] == a[0] && (a + b)[1..] == a[1..] + b;
    }
  }

  predicate NonNegative<K(==)>(items: seq<Item<K>>) { forall i :: 0 <= i < |items| ==> 0.0 <= items[i].amount }

  lemma {:induction false} KeySumNonNegative<K>(items: seq<Item<K>>, key: K)
    requires NonNegative(items)
    ensures 0.0 <= KeySum(items, key)
  {
    if items != [] {
      assert NonNegative(items[1..]);
      KeySumNonNegative(items[1..], key);
    }
  }

  /** Accumulating in a dictionary: `order` is its key order. */
  method Accumulate<K(==,!new)>(items: seq<Item<K>>) returns (order: seq<K>, sums: map<K, real>)
    ensures order == Keys(items)
    ensures forall k :: k in sums <==> k in order
    ensures forall k :: k in order ==> sums[k] == KeySum(items, k)
  {
    hide KeySum, Keys;
    order, sums := [], map[];
    assert Keys(items[..0]) == [] by { NoKeys(items[..0]); }
    for i := 0 to |items|
      invariant order == Keys(items[..i])
      invariant forall k :: k in sums <==> k in order
      invariant forall k :: k in order ==> sums[k] == KeySum(items[..i], k)
    {
      var it := items[i];
      assert items[..i+1] == items[..i] + [it];
      Extend(items[..i], it);
      if it.key !in sums {
        order := order + [it.key];
        sums := sums[it.key := 0.0 + it.amount];
      } else {
        sums := sums[it.key := sums[it.key] + it.amount];
      }
    }
    assert items[..|items|] == items;
  }

  lemma NoKeys<K>(items: seq<Item<K>>)
    requires items == []
    ensures Keys(items) == []
  {
  }

  lemma ExtendKeys<K>(items: seq<Item<K>>, it: Item<K>)
    ensures Keys(items + [it]) == if it.key in Keys(items) then Keys(items) else Keys(items) + [it.key]
  {
    assert (items + [it])[..|items|] == items;
  }

  lemma ExtendSum<K>(items: seq<Item<K>>, it: Item<K>, key: K)
    ensures KeySum(items + [it], key) == KeySum(items, key) + if it.key == key then it.amount else 0.0
  {
    KeySumConcat(items, [it], key);
  }

  lemma Extend<K(!new)>(items: seq<Item<K>>, it: Item<K>)
    ensures Keys(items + [it]) == if it.key in Keys(items) then Keys(items) else Keys(items) + [it.key]
    ensures it.key !in Keys(items) ==> KeySum(items, it.key) == 0.0
    ensures forall k :: KeySum(items + [it], k) == KeySum(items, k) + if it.key == k then it.amount else 0.0
  {
    ExtendKeys(items, it);
    forall k ensures KeySum(items + [it], k) == KeySum(items, k) + if it.key == k then it.amount else 0.0 {
      ExtendSum(items, it, k);
    }
    if it.key !in Keys(items) {
      NoSuchKey(items, it.key);
    }
  }

  lemma {:induction false} NoSuchKey<K>(items: seq<Item<K>>, key: K)
    requires forall i :: 0 <= i < |items| ==> items[i].key != key
    ensures KeySum(items, key) == 0.0
  {
    if items != [] { NoSuchKey(items[1..], key); }
  }
}
