/** The per-service coherence cap on estimated savings: the recommendations page and the chat
  * (ui/routes/recommendations.py).  Amounts are reals; a missing spend is 0. */
module SavingsCap {
  import opened Wrappers
  import opened Ledger

  /** A pending recommendation; a missing age or estimate counts as 0. */
  datatype Rec = Rec(rtype: string, age: Option<real>, savings: Option<real>)

  const BILLING_WINDOW_DAYS := 30.0

  const UNCAPPED := "__uncapped__"

  function ServiceOf(rtype: string): (s: Option<string>)
    ensures s != Some(UNCAPPED)
  {
    if rtype == "ec2_instance" then Some("Amazon Elastic Compute Cloud - Compute")
    else if rtype in {"ebs_volume", "ebs_snapshot", "elastic_ip", "nat_gateway"} then Some("EC2 - Other")
    else if rtype == "load_balancer" then Some("Amazon Elastic Load Balancing")
    else if rtype == "vpc" then Some("Amazon Virtual Private Cloud")
    else None
  }

  function OrZero(x: Option<real>): real { if x.Some? then x.value else 0.0 }

  predicate Mature(r: Rec) { OrZero(r.age) >= BILLING_WINDOW_DAYS }

  /** The bucket a row belongs to: its service when it is mapped and old enough to have been billed. */
  function KeyOf(r: Rec): string {
    if ServiceOf(r.rtype).Some? && Mature(r) then ServiceOf(r.rtype).value else UNCAPPED
  }

  function Estimates(rows: seq<Rec>): (items: seq<Item<string>>)
    ensures |items| == |rows|
    ensures forall i :: 0 <= i < |rows| ==> items[i] == Item(KeyOf(rows[i]), OrZero(rows[i].savings))
  {
    seq(|rows|, i requires 0 <= i < |rows| => Item(KeyOf(rows[i]), OrZero(rows[i].savings)))
  }

  type Spend = map<string, real>

  function SpendOn(spend: Spend, service: string): real { if service in spend then spend[service] else 0.0 }

  function Min(x: real, y: real): real { if x < y then x else y }

  /** What a bucket contributes to the realistic total. */
  function Capped(key: string, savings: real, spend: Spend): real {
    if key == UNCAPPED then savings else Min(savings, SpendOn(spend, key))
  }

  function CappedSum(keys: seq<string>, items: seq<Item<string>>, spend: Spend): real {
    if keys == [] then 0.0 else Capped(keys[0], KeySum(items, keys[0]), spend) + CappedSum(keys[1..], items, spend)
  }

  // ----- the page: SQL sums per resource type, folded into service buckets ---------------------------

  function Types(rows: seq<Rec>): seq<string> {
    Keys(seq(|rows|, i requires 0 <= i < |rows| => Item(rows[i].rtype, 0.0)))
  }

  /** SUM(CASE WHEN age >= window ...) of one resource type, and its complement. */
  function TypeSum(rows: seq<Rec>, rtype: string, mature: bool): real {
    if rows == [] then 0.0
    else (if rows[0].rtype == rtype && Mature(rows[0]) == mature then OrZero(rows[0].savings) else 0.0)
         + TypeSum(rows[1..], rtype, mature)
  }

  /** What one resource type adds to a bucket. */
  function TypeShare(rows: seq<Rec>, rtype: string, key: string): real {
    (if ServiceOf(rtype) == Some(key) then TypeSum(rows, rtype, true) else 0.0)
    + if key != UNCAPPED then 0.0
      else if ServiceOf(rtype).Some? then TypeSum(rows, rtype, false)
      else TypeSum(rows, rtype, true) + TypeSum(rows, rtype, false)
  }

  function TypeShares(rows: seq<Rec>, types: seq<string>, key: string): real {
    if types == [] then 0.0
    else TypeShares(rows, types[..|types|-1], key) + TypeShare(rows, types[|types|-1], key)
  }

  /** The bucket keys in dictionary order: the uncapped bucket, then services as they turn up. */
  function PageKeys(types: seq<string>): (keys: seq<string>)
    ensures Distinct(keys) && UNCAPPED in keys
    ensures forall k :: k in keys <==> k == UNCAPPED || exists i :: 0 <= i < |types| && ServiceOf(types[i]) == Some(k)
  {
    if types == [] then [UNCAPPED]
    else
      var before, s := PageKeys(types[..|types|-1]), ServiceOf(types[|types|-1]);
      if s == None || s.value in before then before else before + [s.value]
  }

  method PageBuckets(rows: seq<Rec>) returns (order: seq<string>, savings: map<string, real>)
    ensures order == PageKeys(Types(rows))
    ensures forall k :: k in savings <==> k in order
    ensures forall k :: k in order ==> savings[k] == KeySum(Estimates(rows), k)
  {
    hide PageKeys, KeySum, Types, TypeShares, TypeShare, ServiceOf, TypeSum, Estimates;
    var types := Types(rows);
    order, savings := [UNCAPPED], map[UNCAPPED := 0.0];
    NoTypes(rows);
    assert types[..0] == [];
    for i := 0 to |types|
      invariant order == PageKeys(types[..i])
      invariant forall k :: k in savings <==> k in order
      invariant forall k :: k in order ==> savings[k] == TypeShares(rows, types[..i], k)
    {
      var mature, young := TypeSum(rows, types[i], true), TypeSum(rows, types[i], false);
      var service := ServiceOf(types[i]);
      OneMoreType(rows, types, i);
      if service.Some? {
        if service.value !in savings {
          order := order + [service.value];
          savings := savings[service.value := 0.0];
        }
        assert savings[service.value] == TypeShares(rows, types[..i], service.value);
        savings := savings[service.value := savings[service.value] + mature];
        savings := savings[UNCAPPED := savings[UNCAPPED] + young];
      } else {
        savings := savings[UNCAPPED := savings[UNCAPPED] + (mature + young)];
      }
    }
    assert types[..|types|] == types;
    forall k ensures TypeShares(rows, types, k) == KeySum(Estimates(rows), k) {
      TypeSharesAreKeySums(rows, k);
    }
  }

  lemma NoTypes(rows: seq<Rec>)
    ensures PageKeys([]) == [UNCAPPED] && forall k :: TypeShares(rows, [], k) == 0.0
  {
  }

  lemma OneMoreType(rows: seq<Rec>, types: seq<string>, i: nat)
    requires i < |types|
    ensures var s := ServiceOf(types[i]);
            PageKeys(types[..i+1]) ==
              if s == None || s.value in PageKeys(types[..i]) then PageKeys(types[..i]) else PageKeys(types[..i]) + [s.value]
    ensures forall k :: TypeShares(rows, types[..i+1], k) == TypeShares(rows, types[..i], k) + TypeShare(rows, types[i], k)
    ensures forall k :: k !in PageKeys(types[..i]) ==> TypeShares(rows, types[..i], k) == 0.0
    ensures forall k :: TypeShare(rows, types[i], k) ==
              if ServiceOf(types[i]) == Some(k) then TypeSum(rows, types[i], true)
              else if k != UNCAPPED then 0.0
              else if ServiceOf(types[i]).Some? then TypeSum(rows, types[i], false)
              else TypeSum(rows, types[i], true) + TypeSum(rows, types[i], false)
  {
    hide ServiceOf, TypeSum;
    assert types[..i+1][..i] == types[..i];
    forall k | k !in PageKeys(types[..i]) ensures TypeShares(rows, types[..i], k) == 0.0 {
      NoShare(rows, types[..i], k);
    }
  }

  lemma {:induction false} NoShare(rows: seq<Rec>, types: seq<string>, key: string)
    requires key != UNCAPPED && forall i :: 0 <= i < |types| ==> ServiceOf(types[i]) != Some(key)
    ensures TypeShares(rows, types, key) == 0.0
  {
    if types != [] { NoShare(rows, types[..|types|-1], key); }
  }

  // ----- the sums per type are the sums per bucket ---------------------------------------------------

  lemma TypeShareOfFirst(rows: seq<Rec>, rtype: string, key: string)
    requires rows != []
    ensures TypeShare(rows, rtype, key) == TypeShare(rows[1..], rtype, key)
          + if rows[0].rtype == rtype && KeyOf(rows[0]) == key then OrZero(rows[0].savings) else 0.0
  {
  }

  lemma {:induction false} TypeSharesOfFirst(rows: seq<Rec>, types: seq<string>, key: string)
    requires rows != [] && Distinct(types)
    ensures TypeShares(rows, types, key) == TypeShares(rows[1..], types, key)
          + if rows[0].rtype in types && KeyOf(rows[0]) == key then OrZero(rows[0].savings) else 0.0
  {
    hide TypeShare;
    if types != [] {
      var before, last := types[..|types|-1], types[|types|-1];
      assert types == before + [last] && Distinct(before) && last !in before;
      TypeSharesOfFirst(rows, before, key);
      TypeShareOfFirst(rows, last, key);
    }
  }

  lemma {:induction false} TypeSharesOfNone(types: seq<string>, key: string)
    ensures TypeShares([], types, key) == 0.0
  {
    if types != [] { TypeSharesOfNone(types[..|types|-1], key); }
  }

  lemma {:induction false} SharesOverTypes(rows: seq<Rec>, types: seq<string>, key: string)
    requires Distinct(types) && forall i :: 0 <= i < |rows| ==> rows[i].rtype in types
    ensures TypeShares(rows, types, key) == KeySum(Estimates(rows), key)
  {
    if rows == [] {
      TypeSharesOfNone(types, key);
    } else {
      TypeSharesOfFirst(rows, types, key);
      SharesOverTypes(rows[1..], types, key);
      assert Estimates(rows)[1..] == Estimates(rows[1..]);
    }
  }

  /** Grouping by resource type first, as the SQL does, loses nothing. */
  lemma TypeSharesAreKeySums(rows: seq<Rec>, key: string)
    ensures TypeShares(rows, Types(rows), key) == KeySum(Estimates(rows), key)
  {
    var typed := seq(|rows|, i requires 0 <= i < |rows| => Item(rows[i].rtype, 0.0));
    forall i | 0 <= i < |rows| ensures rows[i].rtype in Types(rows) {
      assert typed[i].key in Keys(typed);
    }
    SharesOverTypes(rows, Types(rows), key);
  }

  // ----- the rows ------------------------------------------------------------------------------------

  function Keyed(rows: seq<Rec>): seq<string> { PageKeys(Types(rows)) }

  lemma KeyedCovers(rows: seq<Rec>)
    ensures Covers(Keyed(rows), Estimates(rows))
  {
    hide ServiceOf, Mature, Keys;
    var typed := seq(|rows|, i requires 0 <= i < |rows| => Item(rows[i].rtype, 0.0));
    forall i | 0 <= i < |rows| ensures Estimates(rows)[i].key in Keyed(rows) {
      assert typed[i].key in Keys(typed);
      var j :| 0 <= j < |Types(rows)| && Types(rows)[j] == rows[i].rtype;
      assert ServiceOf(Types(rows)[j]) == ServiceOf(rows[i].rtype);
    }
  }

  /** The realistic total the page shows under the headline. */
  function Headline(rows: seq<Rec>, spend: Spend): real { CappedSum(Keyed(rows), Estimates(rows), spend) }

  /** min(1, spend / savings) of a bucket; 1 when uncapped or without savings. */
  function Factor(rows: seq<Rec>, key: string, spend: Spend): real {
    var savings := KeySum(Estimates(rows), key);
    if key == UNCAPPED || savings <= 0.0 then 1.0 else Min(1.0, SpendOn(spend, key) / savings)
  }

  /** The savings shown on one row of the page. */
  function Shown(all: seq<Rec>, r: Rec, spend: Spend): real { OrZero(r.savings) * Factor(all, KeyOf(r), spend) }

  function ShownItems(all: seq<Rec>, rows: seq<Rec>, spend: Spend): (items: seq<Item<string>>)
    ensures |items| == |rows|
    ensures forall i :: 0 <= i < |rows| ==> items[i] == Item(KeyOf(rows[i]), Shown(all, rows[i], spend))
  {
    seq(|rows|, i requires 0 <= i < |rows| => Item(KeyOf(rows[i]), Shown(all, rows[i], spend)))
  }

  lemma {:induction false} ShownPerKey(all: seq<Rec>, rows: seq<Rec>, key: string, spend: Spend)
    ensures KeySum(ShownItems(all, rows, spend), key) == KeySum(Estimates(rows), key) * Factor(all, key, spend)
  {
    hide Factor, KeyOf, OrZero, KeySum;
    if rows == [] {
      KeySumOfNone(ShownItems(all, rows, spend), key);
      KeySumOfNone(Estimates(rows), key);
    } else {
      ShownPerKey(all, rows[1..], key, spend);
      assert ShownItems(all, rows, spend)[1..] == ShownItems(all, rows[1..], spend);
      assert Estimates(rows)[1..] == Estimates(rows[1..]);
      KeySumOfSome(ShownItems(all, rows, spend), key);
      KeySumOfSome(Estimates(rows), key);
      Distribute(OrZero(rows[0].savings), KeySum(Estimates(rows[1..]), key), Factor(all, key, spend));
    }
  }

  lemma KeySumOfNone(items: seq<Item<string>>, key: string)
    requires items == []
    ensures KeySum(items, key) == 0.0
  {
  }

  lemma KeySumOfSome(items: seq<Item<string>>, key: string)
    requires items != []
    ensures KeySum(items, key) == (if items[0].key == key then items[0].amount else 0.0) + KeySum(items[1..], key)
  {
  }

  lemma Distribute(a: real, b: real, c: real)
    ensures (a + b) * c == a * c + b * c && (0.0 + b) * c == b * c && 0.0 * c == 0.0
  {
  }

  /** A bucket whose rows add up to its capped amount: it has savings, or its cap is no lower. */
  predicate Coherent(rows: seq<Rec>, key: string, spend: Spend) {
    key == UNCAPPED || 0.0 < KeySum(Estimates(rows), key) || KeySum(Estimates(rows), key) <= SpendOn(spend, key)
  }

  /** The rows of a bucket show its estimate scaled down to the service's spend; never more than it
    * when there is something to scale. */
  lemma BucketRows(rows: seq<Rec>, key: string, spend: Spend)
    ensures var shown := KeySum(ShownItems(rows, rows, spend), key);
            var capped := Capped(key, KeySum(Estimates(rows), key), spend);
            && capped <= shown
            && (capped == shown <==> Coherent(rows, key, spend))
            && (key != UNCAPPED && Coherent(rows, key, spend) ==> shown <= SpendOn(spend, key))
  {
    hide KeySum, Estimates, ShownItems;
    ShownPerKey(rows, rows, key, spend);
    ScaleToCap(KeySum(Estimates(rows), key), SpendOn(spend, key));
  }

  lemma ScaleToCap(savings: real, cap: real)
    ensures savings * 1.0 == savings
    ensures 0.0 < savings ==> savings * Min(1.0, cap / savings) == Min(savings, cap)
    ensures savings <= 0.0 ==> Min(savings, cap) <= savings
  {
    if 0.0 < savings {
      var q := cap / savings;
      assert savings * q == cap;
      if q < 1.0 { assert savings * q < savings * 1.0; } else { assert savings * q >= savings * 1.0; }
    }
  }

  lemma {:induction false} RowsAgainstCaps(rows: seq<Rec>, keys: seq<string>, spend: Spend)
    ensures var shown, capped := SumKeys(keys, ShownItems(rows, rows, spend)), CappedSum(keys, Estimates(rows), spend);
            && capped <= shown
            && (capped == shown <==> forall k :: k in keys ==> Coherent(rows, k, spend))
  {
    hide Coherent, Capped, KeySum, ShownItems, Estimates;
    if keys != [] {
      BucketRows(rows, keys[0], spend);
      RowsAgainstCaps(rows, keys[1..], spend);
      assert forall k :: k in keys <==> k == keys[0] || k in keys[1..];
    }
  }

  /** The rows of the untruncated page add up to the realistic total iff every bucket is coherent; they
    * never add up to less. */
  lemma RowsSumToHeadlineIff(rows: seq<Rec>, spend: Spend)
    ensures Headline(rows, spend) <= Total(ShownItems(rows, rows, spend))
    ensures Headline(rows, spend) == Total(ShownItems(rows, rows, spend)) <==>
            forall k :: k in Keyed(rows) ==> Coherent(rows, k, spend)
  {
    hide Coherent, PageKeys;
    KeyedCovers(rows);
    RowsAgainstCaps(rows, Keyed(rows), spend);
    SumOverKeys(Keyed(rows), ShownItems(rows, rows, spend));
  }

  /** Non-negative estimates and spends make every bucket coherent. */
  lemma NonNegativeIsCoherent(rows: seq<Rec>, spend: Spend, key: string)
    requires forall i :: 0 <= i < |rows| ==> 0.0 <= OrZero(rows[i].savings)
    requires forall s :: s in spend ==> 0.0 <= spend[s]
    ensures Coherent(rows, key, spend)
  {
    KeySumNonNegative(Estimates(rows), key);
  }

  /** A truncated page: what its rows show and what the missing rows would show make up the total. */
  lemma TruncatedRows(rows: seq<Rec>, limit: nat, spend: Spend)
    requires limit <= |rows|
    ensures Total(ShownItems(rows, rows[..limit], spend)) + Total(ShownItems(rows, rows[limit..], spend))
         == Total(ShownItems(rows, rows, spend))
  {
    var a, b := ShownItems(rows, rows[..limit], spend), ShownItems(rows, rows[limit..], spend);
    assert ShownItems(rows, rows, spend) == a + b;
    KeySumConcat(a, b, "");
  }

  // ----- the chat --------------------------------------------------------------------------------------

  function MatureItems(rows: seq<Rec>): seq<Item<string>> {
    if rows == [] then []
    else MatureItems(rows[..|rows|-1]) + MatureItem(rows[|rows|-1])
  }

  function MatureItem(r: Rec): seq<Item<string>> {
    if KeyOf(r) == UNCAPPED then [] else [Item(KeyOf(r), OrZero(r.savings))]
  }

  /** The chat's own figure: capped sums over the services that have a mature row, plus the rest. */
  function ChatTotal(rows: seq<Rec>, spend: Spend): real {
    KeySum(Estimates(rows), UNCAPPED) + CappedSum(Keys(MatureItems(rows)), MatureItems(rows), spend)
  }

  method ChatCappedTotal(rows: seq<Rec>, spend: Spend) returns (total: real)
    ensures total == ChatTotal(rows, spend)
  {
    hide Keys, KeySum, Estimates, MatureItems, ServiceOf, Mature;
    var uncapped := 0.0;
    var order: seq<string>, est: map<string, real> := [], map[];
    NothingEstimated(rows[..0]);
    for i := 0 to |rows|
      invariant uncapped == KeySum(Estimates(rows[..i]), UNCAPPED)
      invariant order == Keys(MatureItems(rows[..i]))
      invariant forall k :: k in est <==> k in order
      invariant forall k :: k in order ==> est[k] == KeySum(MatureItems(rows[..i]), k)
    {
      var r := rows[i];
      OneMoreRow(rows, i);
      var service := ServiceOf(r.rtype);
      if service.Some? && Mature(r) {
        if service.value !in est {
          order := order + [service.value];
          est := est[service.value := 0.0];
        }
        est := est[service.value := est[service.value] + OrZero(r.savings)];
      } else {
        uncapped := uncapped + OrZero(r.savings);
      }
    }
    assert rows[..|rows|] == rows;
    MatureKeys(rows);
    total := uncapped;
    for i := 0 to |order|
      invariant total + CappedSum(order[i..], MatureItems(rows), spend) == uncapped + CappedSum(order, MatureItems(rows), spend)
    {
      total := total + Min(est[order[i]], SpendOn(spend, order[i]));
      assert order[i..][1..] == order[i+1..];
    }
  }

  lemma NothingEstimated(rows: seq<Rec>)
    requires rows == []
    ensures KeySum(Estimates(rows), UNCAPPED) == 0.0 && MatureItems(rows) == Estimates(rows) && MatureItems(rows) == [] && Keys(MatureItems(rows)) == []
  {
  }

  lemma OneMoreRow(rows: seq<Rec>, i: nat)
    requires i < |rows|
    ensures forall k :: KeySum(Estimates(rows[..i+1]), k)
                     == KeySum(Estimates(rows[..i]), k) + if KeyOf(rows[i]) == k then OrZero(rows[i].savings) else 0.0
    ensures KeyOf(rows[i]) == UNCAPPED ==> MatureItems(rows[..i+1]) == MatureItems(rows[..i])
    ensures KeyOf(rows[i]) != UNCAPPED ==>
              var before, it := MatureItems(rows[..i]), Item(KeyOf(rows[i]), OrZero(rows[i].savings));
              && Keys(MatureItems(rows[..i+1])) == (if it.key in Keys(before) then Keys(before) else Keys(before) + [it.key])
              && (it.key !in Keys(before) ==> KeySum(before, it.key) == 0.0)
              && forall k :: KeySum(MatureItems(rows[..i+1]), k) == KeySum(before, k) + if it.key == k then it.amount else 0.0
  {
    hide Keys, KeySum, KeyOf, OrZero;
    var it := Item(KeyOf(rows[i]), OrZero(rows[i].savings));
    assert rows[..i+1][..i] == rows[..i];
    assert Estimates(rows[..i+1]) == Estimates(rows[..i]) + [it];
    Extend(Estimates(rows[..i]), it);
    Extend(MatureItems(rows[..i]), it);
  }

  lemma {:induction false} MatureKeys(rows: seq<Rec>)
    ensures UNCAPPED !in Keys(MatureItems(rows))
    ensures forall k :: k != UNCAPPED ==> KeySum(MatureItems(rows), k) == KeySum(Estimates(rows), k)
  {
    hide Keys, KeySum, KeyOf, MatureItems, Estimates;
    if rows == [] {
      NothingEstimated(rows);
    } else {
      var i := |rows| - 1;
      MatureKeys(rows[..i]);
      OneMoreRow(rows, i);
      assert rows[..i+1] == rows;
      forall k | k != UNCAPPED ensures KeySum(MatureItems(rows), k) == KeySum(Estimates(rows), k) {
        assert KeySum(MatureItems(rows[..i]), k) == KeySum(Estimates(rows[..i]), k);
      }
    }
  }

  function Without(s: seq<string>, x: string): seq<string> {
    if s == [] then [] else if s[0] == x then s[1..] else [s[0]] + Without(s[1..], x)
  }

  lemma {:induction false} WithoutFacts(s: seq<string>, x: string, items: seq<Item<string>>, spend: Spend)
    requires Distinct(s) && x in s
    ensures Distinct(Without(s, x)) && forall y :: y in Without(s, x) <==> y in s && y != x
    ensures CappedSum(s, items, spend) == Capped(x, KeySum(items, x), spend) + CappedSum(Without(s, x), items, spend)
  {
    hide Capped, KeySum;
    assert forall y :: y in s <==> y == s[0] || y in s[1..];
    if s[0] != x {
      WithoutFacts(s[1..], x, items, spend);
      var t := Without(s[1..], x);
      assert ([s[0]] + t)[1..] == t;
      assert s[0] !in s[1..] && s[0] !in t;
    } else {
      assert s[0] !in s[1..];
    }
  }

  /** Leaving out keys that contribute nothing positive can only raise the sum, and leaves it unchanged
    * iff they contribute nothing at all. */
  lemma {:induction false} FewerKeys(a: seq<string>, b: seq<string>, items: seq<Item<string>>, spend: Spend)
    requires Distinct(a) && Distinct(b) && forall k :: k in b ==> k in a
    requires forall k :: k in a && k !in b ==> Capped(k, KeySum(items, k), spend) <= 0.0
    ensures CappedSum(a, items, spend) <= CappedSum(b, items, spend)
    ensures CappedSum(a, items, spend) == CappedSum(b, items, spend) <==>
            forall k :: k in a && k !in b ==> Capped(k, KeySum(items, k), spend) == 0.0
    decreases |a|
  {
    hide Capped, KeySum;
    assert forall i :: 0 <= i < |b| ==> b[i] in a;
    if a != [] {
      var x, rest := a[0], a[1..];
      assert forall k :: k in a <==> k == x || k in rest;
      assert x !in rest;
      if x in b {
        WithoutFacts(b, x, items, spend);
        FewerKeys(rest, Without(b, x), items, spend);
      } else {
        FewerKeys(rest, b, items, spend);
      }
    }
  }

  /** The chat's figure is the page's iff no service that has only young rows has a negative spend; with
    * such refunds the page's figure is lower. */
  lemma ChatAgreesIff(rows: seq<Rec>, spend: Spend)
    ensures Headline(rows, spend) <= ChatTotal(rows, spend)
    ensures Headline(rows, spend) == ChatTotal(rows, spend) <==>
            forall k :: k in Keyed(rows) && k != UNCAPPED && k !in Keys(MatureItems(rows)) ==> 0.0 <= SpendOn(spend, k)
  {
    hide Keyed, Estimates, MatureItems;
    var items, chat := Estimates(rows), Keys(MatureItems(rows));
    KeyedCovers(rows);
    MatureKeys(rows);
    MatureIsKeyed(rows);
    forall k | k !in chat && k != UNCAPPED ensures KeySum(items, k) == 0.0 {
      NoSuchKey(MatureItems(rows), k);
    }
    SameCappedSum(chat, items, MatureItems(rows), spend);
    FewerKeys(Keyed(rows), [UNCAPPED] + chat, items, spend);
    assert ([UNCAPPED] + chat)[1..] == chat;
  }

  lemma {:induction false} SameCappedSum(keys: seq<string>, a: seq<Item<string>>, b: seq<Item<string>>, spend: Spend)
    requires forall k :: k in keys ==> KeySum(a, k) == KeySum(b, k)
    ensures CappedSum(keys, a, spend) == CappedSum(keys, b, spend)
  {
    hide KeySum, Capped;
    if keys != [] { SameCappedSum(keys[1..], a, b, spend); }
  }

  lemma {:induction false} MatureIsKeyed(rows: seq<Rec>)
    ensures forall k :: k in Keys(MatureItems(rows)) ==> k in Keyed(rows)
    ensures Distinct(Keyed(rows)) && UNCAPPED in Keyed(rows)
  {
    KeyedCovers(rows);
    MatureAmongEstimates(rows);
    forall k | k in Keys(MatureItems(rows)) ensures k in Keyed(rows) {
      var i :| 0 <= i < |MatureItems(rows)| && MatureItems(rows)[i].key == k;
      assert MatureItems(rows)[i] in Estimates(rows);
      var j :| 0 <= j < |rows| && Estimates(rows)[j] == MatureItems(rows)[i];
    }
  }

  lemma {:induction false} MatureAmongEstimates(rows: seq<Rec>)
    ensures forall it :: it in MatureItems(rows) ==> it in Estimates(rows)
  {
    hide KeyOf;
    if rows != [] {
      var before := rows[..|rows|-1];
      MatureAmongEstimates(before);
      assert Estimates(rows) == Estimates(before) + [Item(KeyOf(rows[|rows|-1]), OrZero(rows[|rows|-1].savings))];
    }
  }

  /** What the page and the chat promise, for non-negative estimates and spends: the untruncated rows add up to
    * the realistic total, no service's rows to more than its spend, and the chat gives the same figure. */
  lemma CapIsConsistent(rows: seq<Rec>, spend: Spend)
    requires forall i :: 0 <= i < |rows| ==> 0.0 <= OrZero(rows[i].savings)
    requires forall s :: s in spend ==> 0.0 <= spend[s]
    ensures Total(ShownItems(rows, rows, spend)) == Headline(rows, spend) == ChatTotal(rows, spend)
    ensures forall key :: key != UNCAPPED ==> KeySum(ShownItems(rows, rows, spend), key) <= SpendOn(spend, key)
    ensures KeySum(ShownItems(rows, rows, spend), UNCAPPED) == KeySum(Estimates(rows), UNCAPPED)
  {
    hide Coherent, Keyed, Headline, ChatTotal, ShownItems, Estimates, KeySum, MatureItems, Keys, Total;
    forall key ensures Coherent(rows, key, spend) {
      NonNegativeIsCoherent(rows, spend, key);
    }
    RowsSumToHeadlineIff(rows, spend);
    ChatAgreesIff(rows, spend);
    forall key | key != UNCAPPED ensures KeySum(ShownItems(rows, rows, spend), key) <= SpendOn(spend, key) {
      BucketRows(rows, key, spend);
    }
    BucketRows(rows, UNCAPPED, spend);
  }

  /** Which service a row is capped by: its own, once its resource is 30 days old. */
  lemma CappedBy(r: Rec)
    ensures var old_ := r.age.Some? && r.age.value >= 30.0;
            && (KeyOf(r) == "Amazon Elastic Compute Cloud - Compute" <==> old_ && r.rtype == "ec2_instance")
            && (KeyOf(r) == "EC2 - Other" <==> old_ && r.rtype in {"ebs_volume", "ebs_snapshot", "elastic_ip", "nat_gateway"})
            && (KeyOf(r) == "Amazon Elastic Load Balancing" <==> old_ && r.rtype == "load_balancer")
            && (KeyOf(r) == "Amazon Virtual Private Cloud" <==> old_ && r.rtype == "vpc")
            && (KeyOf(r) == UNCAPPED <==>
                  !old_ || r.rtype !in {"ec2_instance", "ebs_volume", "ebs_snapshot", "elastic_ip", "nat_gateway", "load_balancer", "vpc"})
  {
  }

  /** What a row shows, for non-negative estimates and spends: never less than nothing nor more than its own
    * estimate; the estimate itself when its service's rows together stay within its spend; and together exactly
    * the spend when they do not. */
  lemma RowsShow(rows: seq<Rec>, spend: Spend, i: nat)
    requires forall j :: 0 <= j < |rows| ==> rows[j].savings.Some? ==> 0.0 <= rows[j].savings.value
    requires forall s :: s in spend ==> 0.0 <= spend[s]
    requires i < |rows|
    ensures var estimate := if rows[i].savings.Some? then rows[i].savings.value else 0.0;
            var cap := if KeyOf(rows[i]) in spend then spend[KeyOf(rows[i])] else 0.0;
            var together, shown := KeySum(Estimates(rows), KeyOf(rows[i])), ShownItems(rows, rows, spend);
            && 0.0 <= shown[i].amount <= estimate
            && (KeyOf(rows[i]) == UNCAPPED || together <= cap ==> shown[i].amount == estimate)
            && (KeyOf(rows[i]) != UNCAPPED && cap < together ==> KeySum(shown, KeyOf(rows[i])) == cap)
  {
    hide KeyOf, KeySum, Estimates;
    var key := KeyOf(rows[i]);
    var together := KeySum(Estimates(rows), key);
    assert 0.0 <= together by { KeySumNonNegative(Estimates(rows), key); }
    FactorIs(together, SpendOn(spend, key), OrZero(rows[i].savings));
    NonNegativeIsCoherent(rows, spend, key);
    ShownPerKey(rows, rows, key, spend);
    ScaleToCap(together, SpendOn(spend, key));
  }

  lemma FactorIs(together: real, cap: real, estimate: real)
    requires 0.0 <= cap && 0.0 <= estimate
    ensures estimate * 1.0 == estimate
    ensures 0.0 < together ==>
              var f := Min(1.0, cap / together);
              && 0.0 <= estimate * f <= estimate
              && (together <= cap ==> f == 1.0)
              && (cap < together ==> together * f == cap)
  {
    if 0.0 < together {
      var q := cap / together;
      assert together * q == cap;
      assert 0.0 <= q;
      if q < 1.0 {
        assert estimate * q <= estimate * 1.0;
        assert together * q < together * 1.0;
      } else {
        assert together * q >= together * 1.0;
      }
    }
  }

  // ----- the exceptions are real ---------------------------------------------------------------------

  const VPC := "Amazon Virtual Private Cloud"

  /** One young row. */
  const YOUNG := Rec("vpc", None, Some(5.0))

  lemma YoungRow()
    ensures VPC != UNCAPPED && ServiceOf(YOUNG.rtype) == Some(VPC) && KeyOf(YOUNG) == UNCAPPED
    ensures Estimates([YOUNG]) == [Item(UNCAPPED, 5.0)] && MatureItems([YOUNG]) == []
  {
    assert ServiceOf("vpc") == Some(VPC);
    assert [YOUNG][..0] == [];
  }

  lemma YoungKeys()
    ensures Keyed([YOUNG]) == [UNCAPPED, VPC]
  {
    hide Types, PageKeys;
    YoungRow();
    OneRow(YOUNG);
    OneType(YOUNG.rtype, VPC);
  }

  lemma OneRow(r: Rec)
    ensures Types([r]) == [r.rtype]
  {
    var typed := seq(|[r]|, i requires 0 <= i < |[r]| => Item([r][i].rtype, 0.0));
    assert typed == [Item(r.rtype, 0.0)] && typed[..0] == [];
    assert Keys(typed[..0]) == [];
  }

  lemma OneType(rtype: string, service: string)
    requires ServiceOf(rtype) == Some(service)
    ensures PageKeys([rtype]) == [UNCAPPED, service]
  {
    hide ServiceOf;
    assert [rtype][..0] == [] && PageKeys([]) == [UNCAPPED];
  }

  lemma OneItem(key: string, amount: real, other: string)
    requires other != key
    ensures var items := [Item(key, amount)];
            KeySum(items, key) == amount && KeySum(items, other) == 0.0 && Total(items) == amount
  {
    var items := [Item(key, amount)];
    assert items[1..] == [];
  }

  /** With a refund of 1 on the service of that row the realistic total is 4, while the rows add up to 5 and
    * the chat says 5. */
  lemma RefundLowersTheTotal()
    ensures var spend := map[VPC := -1.0];
            && Headline([YOUNG], spend) == 4.0
            && Total(ShownItems([YOUNG], [YOUNG], spend)) == 5.0
            && ChatTotal([YOUNG], spend) == 5.0
  {
    hide Keyed, Keys, Estimates, MatureItems, KeySum, Total;
    var rows, spend: Spend := [YOUNG], map[VPC := -1.0];
    YoungRow();
    YoungKeys();
    OneItem(UNCAPPED, 5.0, VPC);
    var items := Estimates(rows);
    assert [UNCAPPED, VPC][1..] == [VPC] && [VPC][1..] == [];
    assert CappedSum([VPC], items, spend) == -1.0;
    assert Shown(rows, YOUNG, spend) == 5.0;
    assert ShownItems(rows, rows, spend) == [Item(UNCAPPED, 5.0)];
    assert Keys(MatureItems(rows)) == [] by { NothingEstimated(rows[..0]); }
  }
}
