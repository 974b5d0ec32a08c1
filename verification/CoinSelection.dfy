/** Sums and orders of coins, and the exchange argument behind minimal coin selection. */
module CoinSelection {

  datatype Utxo = Utxo(txid: string, vout: nat, value: nat, confirmed: bool)

  function Total(coins: seq<Utxo>): nat {
    if coins == [] then 0 else Total(coins[..|coins| - 1]) + coins[|coins| - 1].value
  }

  lemma TotalSnoc(coins: seq<Utxo>, coin: Utxo)
    ensures Total(coins + [coin]) == Total(coins) + coin.value
  {
    assert (coins + [coin])[..|coins|] == coins;
  }

  ghost predicate LargestFirst(coins: seq<Utxo>) {
    forall i, j :: 0 <= i <= j < |coins| ==> coins[i].value >= coins[j].value
  }

  // ---------- `fetch_confirmed_utxos` ----------

  const MAX_TRANSACTION_INPUTS := 200

  function Confirmed(coins: seq<Utxo>): seq<Utxo> {
    if coins == [] then []
    else if coins[0].confirmed then [coins[0]] + Confirmed(coins[1..])
    else Confirmed(coins[1..])
  }

  function Insert(coin: Utxo, sorted: seq<Utxo>): seq<Utxo> {
    if sorted == [] || coin.value >= sorted[0].value then [coin] + sorted
    else [sorted[0]] + Insert(coin, sorted[1..])
  }

  /** The stable sort by `Reverse(value)`. */
  function SortedByValue(coins: seq<Utxo>): seq<Utxo> {
    if coins == [] then [] else Insert(coins[0], SortedByValue(coins[1..]))
  }

  lemma {:induction false} InsertSorts(coin: Utxo, sorted: seq<Utxo>)
    requires LargestFirst(sorted)
    ensures LargestFirst(Insert(coin, sorted))
    ensures multiset(Insert(coin, sorted)) == multiset{coin} + multiset(sorted)
  {
    if sorted != [] && coin.value < sorted[0].value {
      var first, tail := sorted[0], sorted[1..];
      InsertSorts(coin, tail);
      var rest := Insert(coin, tail);
      assert sorted == [first] + tail;
      forall x | x in rest ensures first.value >= x.value {
        assert x in multiset(rest);
        assert x == coin || x in multiset(tail);
        TailSmaller(sorted, x);
      }
      LargestCons(first, rest);
      assert Insert(coin, sorted) == [first] + rest;
    } else {
      forall x | x in sorted ensures coin.value >= x.value {
        var k :| 0 <= k < |sorted| && sorted[k] == x;
      }
      LargestCons(coin, sorted);
    }
  }

  lemma TailSmaller(sorted: seq<Utxo>, x: Utxo)
    requires LargestFirst(sorted) && sorted != []
    ensures x in sorted[1..] ==> x.value <= sorted[0].value
  {
    if x in sorted[1..] {
      var k :| 0 <= k < |sorted[1..]| && sorted[1..][k] == x;
      assert sorted[k + 1] == x;
    }
  }

  lemma LargestCons(first: Utxo, rest: seq<Utxo>)
    requires LargestFirst(rest) && forall x :: x in rest ==> first.value >= x.value
    ensures LargestFirst([first] + rest)
  {
    var all := [first] + rest;
    forall j | 0 < j < |all| ensures first.value >= all[j].value {
      assert all[j] in rest;
    }
  }

  lemma {:induction false} SortedByValueSorts(coins: seq<Utxo>)
    ensures LargestFirst(SortedByValue(coins)) && multiset(SortedByValue(coins)) == multiset(coins)
  {
    if coins != [] {
      assert coins == [coins[0]] + coins[1..];
      SortedByValueSorts(coins[1..]);
      InsertSorts(coins[0], SortedByValue(coins[1..]));
    }
  }

  /** The coins of one value, in order. */
  function Worth(coins: seq<Utxo>, value: nat): seq<Utxo> {
    if coins == [] then []
    else (if coins[0].value == value then [coins[0]] else []) + Worth(coins[1..], value)
  }

  lemma {:induction false} InsertStable(coin: Utxo, sorted: seq<Utxo>, value: nat)
    requires LargestFirst(sorted)
    ensures Worth(Insert(coin, sorted), value) == (if coin.value == value then [coin] else []) + Worth(sorted, value)
  {
    var r := Insert(coin, sorted);
    if sorted != [] && coin.value < sorted[0].value {
      var tail := sorted[1..];
      InsertStable(coin, tail, value);
      assert r[1..] == Insert(coin, tail);
      if coin.value == value {
        assert Worth(sorted, value) == Worth(tail, value);
      }
    } else {
      assert r[1..] == sorted;
    }
  }

  /** The sort is stable: coins of one value stay in the order they came in. */
  lemma {:induction false} SortedByValueStable(coins: seq<Utxo>, value: nat)
    ensures Worth(SortedByValue(coins), value) == Worth(coins, value)
  {
    if coins != [] {
      SortedByValueStable(coins[1..], value);
      SortedByValueSorts(coins[1..]);
      InsertStable(coins[0], SortedByValue(coins[1..]), value);
    }
  }

  /** The confirmed coins are all there, as often as they came, and no others. */
  lemma {:induction false} ConfirmedExactly(coins: seq<Utxo>, coin: Utxo)
    ensures multiset(Confirmed(coins))[coin] == if coin.confirmed then multiset(coins)[coin] else 0
  {
    if coins != [] {
      assert coins == [coins[0]] + coins[1..];
      ConfirmedExactly(coins[1..], coin);
    }
  }

  function Truncate(coins: seq<Utxo>): seq<Utxo> {
    if |coins| > MAX_TRANSACTION_INPUTS then coins[..MAX_TRANSACTION_INPUTS] else coins
  }

  method FetchConfirmedUtxos(response: seq<Utxo>) returns (utxos: seq<Utxo>)
    ensures utxos == Truncate(SortedByValue(Confirmed(response)))
    ensures LargestFirst(utxos) && |utxos| <= MAX_TRANSACTION_INPUTS
    ensures forall u :: u in utxos ==> u in response && u.confirmed
  {
    utxos := [];
    for i := 0 to |response|
      invariant Confirmed(response) == utxos + Confirmed(response[i..])
      invariant forall u :: u in utxos ==> u in response && u.confirmed
    {
      assert response[i..] == [response[i]] + response[i + 1..];
      if response[i].confirmed {
        utxos := utxos + [response[i]];
      }
    }
    assert Confirmed(response) == utxos;
    SortedByValueSorts(utxos);
    ghost var kept := utxos;
    utxos := SortedByValue(utxos);
    forall u | u in utxos ensures u in kept {
      assert u in multiset(utxos);
    }
    if |utxos| > MAX_TRANSACTION_INPUTS {
      utxos := utxos[..MAX_TRANSACTION_INPUTS];
    }
  }

  // ---------- The exchange argument ----------

  ghost function Sum(coins: multiset<Utxo>): nat {
    if coins == multiset{} then 0
    else
      var coin :| coin in coins;
      coin.value + Sum(coins - multiset{coin})
  }

  lemma {:induction false} SumRemove(coins: multiset<Utxo>, coin: Utxo)
    requires coin in coins
    ensures Sum(coins) == coin.value + Sum(coins - multiset{coin})
    decreases |coins|
  {
    var first :| first in coins && Sum(coins) == first.value + Sum(coins - multiset{first});
    if first != coin {
      RemoveBoth(coins, first, coin);
      SumRemove(coins - multiset{first}, coin);
      SumRemove(coins - multiset{coin}, first);
    }
  }

  lemma RemoveBoth(coins: multiset<Utxo>, a: Utxo, b: Utxo)
    requires a in coins && b in coins && a != b
    ensures b in coins - multiset{a} && a in coins - multiset{b}
    ensures coins - multiset{a} - multiset{b} == coins - multiset{b} - multiset{a}
  {
  }

  lemma LastWasChosen(init: multiset<Utxo>, last: Utxo, chosen: multiset<Utxo>)
    requires chosen <= init + multiset{last} && !(chosen <= init)
    ensures last in chosen && chosen - multiset{last} <= init
    ensures |chosen| == |chosen - multiset{last}| + 1
  {
    var c :| chosen[c] > init[c];
    assert chosen[c] <= (init + multiset{last})[c];
  }

  lemma TotalGrows(coins: seq<Utxo>, m: nat)
    requires m < |coins|
    ensures Total(coins[..m + 1]) == Total(coins[..m]) + coins[m].value
  {
    assert coins[..m + 1] == coins[..m] + [coins[m]];
    TotalSnoc(coins[..m], coins[m]);
  }

  lemma InitPrefix(coins: seq<Utxo>, m: nat)
    requires m < |coins|
    ensures coins[..|coins| - 1][..m] == coins[..m]
    ensures multiset(coins) == multiset(coins[..|coins| - 1]) + multiset{coins[|coins| - 1]}
  {
    assert coins == coins[..|coins| - 1] + [coins[|coins| - 1]];
  }

  lemma OneMore(coins: seq<Utxo>, m: nat)
    requires LargestFirst(coins) && m < |coins|
    ensures Total(coins[..m + 1]) >= Total(coins[..|coins| - 1][..m]) + coins[|coins| - 1].value
  {
    InitPrefix(coins, m);
    TotalGrows(coins, m);
  }

  lemma LastAdded(coins: seq<Utxo>, chosen: multiset<Utxo>)
    requires LargestFirst(coins) && coins != [] && coins[|coins| - 1] in chosen
    requires
      var n := |coins| - 1;
      var fewer := chosen - multiset{coins[n]};
      |chosen| == |fewer| + 1 <= n + 1 && Sum(fewer) <= Total(coins[..n][..|fewer|])
    ensures |chosen| <= |coins| && Sum(chosen) <= Total(coins[..|chosen|])
  {
    SumRemove(chosen, coins[|coins| - 1]);
    OneMore(coins, |chosen| - 1);
  }

  /** No choice of coins is worth more than as many of the largest. */
  lemma {:induction false} LargestAreBest(coins: seq<Utxo>, chosen: multiset<Utxo>)
    requires LargestFirst(coins) && chosen <= multiset(coins)
    ensures |chosen| <= |coins| && Sum(chosen) <= Total(coins[..|chosen|])
    decreases |coins|
  {
    if coins == [] {
      assert chosen == multiset{};
    } else {
      var n := |coins| - 1;
      InitPrefix(coins, n);
      if chosen <= multiset(coins[..n]) {
        LargestAreBest(coins[..n], chosen);
        InitPrefix(coins, |chosen|);
      } else {
        LastWasChosen(multiset(coins[..n]), coins[n], chosen);
        LargestAreBest(coins[..n], chosen - multiset{coins[n]});
        LastAdded(coins, chosen);
      }
    }
  }
}
