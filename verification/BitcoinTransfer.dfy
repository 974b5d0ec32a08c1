/** Model of PSBT building and checking (crates/bitcoin-services/src/lib.rs), with `u64` arithmetic
    written out and the fee rate a whole number of sats per vbyte, as `fetch_fee_rate` returns it. */
module BitcoinTransfer {
  import opened Wrappers
  import opened CoinSelection

  const MAX_U64: nat := 0xFFFF_FFFF_FFFF_FFFF
  const P2WPKH_DUST_SATS := 294
  const P2TR_DUST_SATS := 330
  const LEGACY_DUST_SATS := 546
  const MAX_FEE_RATE := 500
  const MAX_ABSOLUTE_FEE_SATS := 1_000_000

  datatype AddressType = P2wpkh | P2tr | Legacy

  datatype Address = Address(kind: AddressType, script: seq<bv8>)

  datatype Error = InvalidInput | Network | InsufficientFunds

  datatype TxOut = TxOut(value: nat, script: seq<bv8>)

  datatype Input = Input(txid: string, vout: nat, witnessUtxo: Option<TxOut>)

  datatype Psbt = Psbt(inputs: seq<Input>, outputs: seq<TxOut>)

  datatype Prepared = Prepared(
    psbt: Psbt,
    amountSats: nat,
    feeSats: nat,
    totalInputSats: nat,
    changeSats: nat,
    inputCount: nat)

  // ---------- Checked arithmetic ----------

  function CheckedAdd(a: nat, b: nat): Result<nat, Error> {
    if a + b <= MAX_U64 then Success(a + b) else Failure(InvalidInput)
  }

  function CheckedMul(a: nat, b: nat): Result<nat, Error> {
    if a * b <= MAX_U64 then Success(a * b) else Failure(InvalidInput)
  }

  function CheckedSub(a: nat, b: nat): Result<nat, Error> {
    if b <= a then Success(a - b) else Failure(InvalidInput)
  }

  function OutputVbytes(lengths: seq<nat>, total: nat): Result<nat, Error>
    decreases |lengths|
  {
    if lengths == [] then Success(total)
    else
      var size :- CheckedAdd(9, lengths[0]);
      var next :- CheckedAdd(total, size);
      OutputVbytes(lengths[1..], next)
  }

  function InputSize(kind: AddressType): nat {
    if kind == P2tr then 58 else 69
  }

  /** The sizes and limits themselves. */
  lemma SizesAndLimits()
    ensures InputSize(P2tr) == 58 && InputSize(P2wpkh) == 69
    ensures Dust(P2wpkh) == 294 && Dust(P2tr) == 330 && Dust(Legacy) == 546
    ensures MAX_FEE_RATE == 500 && MAX_ABSOLUTE_FEE_SATS == 1_000_000 && MAX_U64 + 1 == 0x1_0000_0000_0000_0000
    ensures MAX_TRANSACTION_INPUTS == 200
  {
  }

  function EstimatedVbytes(kind: AddressType, inputCount: nat, lengths: seq<nat>): Result<nat, Error> {
    var outputs :- OutputVbytes(lengths, 0);
    var inputs :- CheckedMul(inputCount, InputSize(kind));
    var base :- CheckedAdd(11, inputs);
    CheckedAdd(base, outputs)
  }

  function FeeFor(kind: AddressType, inputCount: nat, lengths: seq<nat>, rate: nat): Result<nat, Error> {
    if rate < 1 || rate > MAX_FEE_RATE then Failure(InvalidInput)
    else
      var vbytes :- EstimatedVbytes(kind, inputCount, lengths);
      if vbytes * rate > MAX_ABSOLUTE_FEE_SATS then Failure(InvalidInput) else Success(vbytes * rate)
  }

  function RequiredInputSats(amount: nat, fee: nat, dust: nat): Result<nat, Error> {
    var value :- CheckedAdd(amount, fee);
    CheckedAdd(value, dust)
  }

  function Dust(kind: AddressType): nat {
    match kind
    case P2wpkh => P2WPKH_DUST_SATS
    case P2tr => P2TR_DUST_SATS
    case Legacy => LEGACY_DUST_SATS
  }

  // ---------- Sizes and fees without overflow ----------

  /** The exact size, in vbytes, of a transaction with these many inputs and outputs of these lengths. */
  ghost function Size(kind: AddressType, inputCount: nat, lengths: seq<nat>): nat {
    11 + inputCount * InputSize(kind) + OutputSize(lengths)
  }

  ghost function OutputSize(lengths: seq<nat>): nat {
    if lengths == [] then 0 else 9 + lengths[0] + OutputSize(lengths[1..])
  }

  lemma {:induction false} OutputVbytesExact(lengths: seq<nat>, total: nat)
    requires total <= MAX_U64
    ensures OutputVbytes(lengths, total)
         == if total + OutputSize(lengths) <= MAX_U64 then Success(total + OutputSize(lengths))
            else Failure(InvalidInput)
    decreases |lengths|
  {
    if lengths != [] && total + 9 + lengths[0] <= MAX_U64 {
      OutputVbytesExact(lengths[1..], total + 9 + lengths[0]);
    }
  }

  /** The fee is exactly rate times size, and is refused exactly when that passes the safety limit. */
  lemma FeeExact(kind: AddressType, inputCount: nat, lengths: seq<nat>, rate: nat)
    requires 1 <= rate <= MAX_FEE_RATE
    ensures
      var fee := Size(kind, inputCount, lengths) * rate;
      FeeFor(kind, inputCount, lengths, rate)
      == if fee <= MAX_ABSOLUTE_FEE_SATS then Success(fee) else Failure(InvalidInput)
  {
    VbytesExact(kind, inputCount, lengths);
    TimesAtLeast(Size(kind, inputCount, lengths), rate);
  }

  lemma TimesAtLeast(size: nat, rate: nat)
    requires rate >= 1
    ensures size * rate >= size
  {
    assert size * rate == size + size * (rate - 1);
  }

  lemma VbytesExact(kind: AddressType, inputCount: nat, lengths: seq<nat>)
    ensures
      var size := Size(kind, inputCount, lengths);
      EstimatedVbytes(kind, inputCount, lengths) == if size <= MAX_U64 then Success(size) else Failure(InvalidInput)
  {
    OutputVbytesExact(lengths, 0);
  }

  /** The parties and price of a transfer. */
  datatype Terms = Terms(sender: Address, recipient: Address, amount: nat, rate: nat) {
    ghost predicate Valid() {
      && sender.kind != Legacy
      && amount >= Dust(recipient.kind)
    }

    ghost function OneOutputFee(n: nat): nat {
      Size(sender.kind, n, [|recipient.script|]) * rate
    }

    ghost function TwoOutputFee(n: nat): nat {
      Size(sender.kind, n, [|recipient.script|, |sender.script|]) * rate
    }

    /** `n` coins worth `total` pay the amount and the fee of a transaction without change. */
    ghost predicate Covers(total: nat, n: nat) {
      total >= amount + OneOutputFee(n)
    }

    ghost predicate RateSupported() {
      1 <= rate <= MAX_FEE_RATE
    }

    /** Adding the `n`th coin meets an arithmetic or fee limit. */
    ghost predicate Blocked(total: nat, n: nat) {
      || !RateSupported()
      || total > MAX_U64
      || TwoOutputFee(n) > MAX_ABSOLUTE_FEE_SATS
      || amount + TwoOutputFee(n) + Dust(sender.kind) > MAX_U64
    }

    /** The payment is covered, with nothing for a change output and more than the largest fee left. */
    ghost predicate LeavesTooMuch(total: nat, n: nat) {
      amount + MAX_ABSOLUTE_FEE_SATS < total < amount + TwoOutputFee(n) + Dust(sender.kind)
    }

    /** Taking the `m`th coin neither stops the loop nor fails it. */
    ghost predicate Continues(utxos: seq<Utxo>, m: nat)
      requires m <= |utxos|
    {
      !Blocked(Total(utxos[..m]), m) && !Covers(Total(utxos[..m]), m)
    }

    /** What the loop leaves behind once `n` coins suffice. */
    ghost predicate Settles(total: nat, n: nat, fee: nat, change: nat) {
      && total == amount + fee + change
      && (if total >= amount + TwoOutputFee(n) + Dust(sender.kind)
          then fee == TwoOutputFee(n) && change >= Dust(sender.kind)
          else fee >= OneOutputFee(n) && change == 0)
    }
  }

  lemma ChangeOutputCost(t: Terms, n: nat)
    ensures t.TwoOutputFee(n) == t.OneOutputFee(n) + (9 + |t.sender.script|) * t.rate
  {
    assert OutputSize([|t.recipient.script|]) == 9 + |t.recipient.script|;
    var both: seq<nat> := [|t.recipient.script|, |t.sender.script|];
    assert both[1..] == [|t.sender.script|];
    assert OutputSize([|t.sender.script|]) == 9 + |t.sender.script|;
    assert OutputSize(both) == 9 + |t.recipient.script| + (9 + |t.sender.script|);
    var one := Size(t.sender.kind, n, [|t.recipient.script|]);
    assert (one + (9 + |t.sender.script|)) * t.rate == one * t.rate + (9 + |t.sender.script|) * t.rate;
  }

  lemma FeesPositive(t: Terms, n: nat)
    requires t.RateSupported()
    ensures t.OneOutputFee(n) > 0 && t.TwoOutputFee(n) >= t.OneOutputFee(n)
  {
    ChangeOutputCost(t, n);
    TimesAtLeast(Size(t.sender.kind, n, [|t.recipient.script|]), t.rate);
    TimesAtLeast(9 + |t.sender.script|, t.rate);
  }

  // ---------- Selection ----------

  datatype Selection = Enough(count: nat, fee: nat, change: nat, total: nat) | NotEnough

  ghost predicate Selected(t: Terms, utxos: seq<Utxo>, s: Selection)
    requires s.Enough?
  {
    && 1 <= s.count <= |utxos| && s.total == Total(utxos[..s.count])
    && !t.Blocked(s.total, s.count) && t.Covers(s.total, s.count)
    && (forall m :: 1 <= m < s.count ==> t.Continues(utxos, m))
    && t.Settles(s.total, s.count, s.fee, s.change)
  }

  /** The loop of `build_psbt`: take coins in order until they suffice. */
  method SelectCoins(t: Terms, utxos: seq<Utxo>) returns (r: Result<Selection, Error>)
    requires t.Valid()
    ensures r.Success? && r.value.Enough? ==> Selected(t, utxos, r.value)
    ensures r.Success? && r.value.NotEnough? ==>
              forall m :: 1 <= m <= |utxos| ==> t.Continues(utxos, m)
    ensures r.Failure? ==>
              r.error == InvalidInput &&
              exists n :: 1 <= n <= |utxos| && t.Blocked(Total(utxos[..n]), n)
                       && forall m :: 1 <= m < n ==> t.Continues(utxos, m)
  {
    var total, i := 0, 0;
    while i < |utxos|
      invariant 0 <= i <= |utxos| && total == Total(utxos[..i])
      invariant forall m :: 1 <= m <= i ==> t.Continues(utxos, m)
    {
      TotalGrows(utxos, i);
      ghost var n := i + 1;
      if t.RateSupported() {
        FeesPositive(t, n);
        FeeExact(t.sender.kind, n, [|t.recipient.script|, |t.sender.script|], t.rate);
        FeeExact(t.sender.kind, n, [|t.recipient.script|], t.rate);
      }
      var added := CheckedAdd(total, utxos[i].value);
      if added.Failure? {
        assert t.Blocked(Total(utxos[..n]), n);
        return Failure(added.error);
      }
      total := added.value;
      i := i + 1;
      var twoOutputFee := FeeFor(t.sender.kind, i, [|t.recipient.script|, |t.sender.script|], t.rate);
      if twoOutputFee.Failure? {
        assert t.Blocked(Total(utxos[..n]), n);
        return Failure(twoOutputFee.error);
      }
      var withChange := RequiredInputSats(t.amount, twoOutputFee.value, Dust(t.sender.kind));
      if withChange.Failure? {
        assert t.Blocked(Total(utxos[..n]), n);
        return Failure(withChange.error);
      }
      if total >= withChange.value {
        return Success(Enough(i, twoOutputFee.value, total - t.amount - twoOutputFee.value, total));
      }
      var oneOutputFee := FeeFor(t.sender.kind, i, [|t.recipient.script|], t.rate);
      assert oneOutputFee.Success?;
      var exact := RequiredInputSats(t.amount, oneOutputFee.value, 0);
      assert exact.Success?;
      if total >= exact.value {
        return Success(Enough(i, total - t.amount, 0, total));
      }
    }
    return Success(NotEnough);
  }

  /** A selection that settles cannot overpay by a change output and a dust limit. */
  lemma Overpayment(t: Terms, total: nat, n: nat, fee: nat, change: nat)
    requires t.Settles(total, n, fee, change)
    ensures change == 0 || change >= Dust(t.sender.kind)
    ensures change > 0 ==> fee == t.TwoOutputFee(n)
    ensures change == 0 ==>
              t.OneOutputFee(n) <= fee < t.OneOutputFee(n) + (9 + |t.sender.script|) * t.rate + Dust(t.sender.kind)
  {
    ChangeOutputCost(t, n);
  }

  // ---------- Building ----------

  function InputOf(sender: Address, coin: Utxo): Input {
    Input(coin.txid, coin.vout, Some(TxOut(coin.value, sender.script)))
  }

  /** The `i`th input spends the `i`th coin, under the sender's script. */
  ghost predicate Spends(input: Input, coin: Utxo, sender: Address) {
    && input.txid == coin.txid && input.vout == coin.vout
    && input.witnessUtxo.Some?
    && input.witnessUtxo.value.value == coin.value && input.witnessUtxo.value.script == sender.script
  }

  /** The inputs spend these coins, in order. */
  ghost predicate SpendsAll(inputs: seq<Input>, coins: seq<Utxo>, sender: Address) {
    |inputs| == |coins| && forall i :: 0 <= i < |coins| ==> Spends(inputs[i], coins[i], sender)
  }

  /** The first output is the payment; change, if there is any, is the second and last. */
  ghost predicate PaysOut(outputs: seq<TxOut>, t: Terms, change: nat) {
    && |outputs| == (if change > 0 then 2 else 1)
    && outputs[0].value == t.amount && outputs[0].script == t.recipient.script
    && (change > 0 ==> outputs[1].value == change && outputs[1].script == t.sender.script)
  }

  /** What every prepared transfer is: the first coins, in order, spent to the recipient and back. */
  ghost predicate PreparedFrom(p: Prepared, t: Terms, utxos: seq<Utxo>) {
    && t.Valid() && t.RateSupported()
    && 1 <= p.inputCount <= |utxos|
    && p.totalInputSats == Total(utxos[..p.inputCount])
    && p.amountSats == t.amount
    && SpendsAll(p.psbt.inputs, utxos[..p.inputCount], t.sender)
    && PaysOut(p.psbt.outputs, t, p.changeSats)
    && t.Settles(p.totalInputSats, p.inputCount, p.feeSats, p.changeSats)
    && p.feeSats <= MAX_ABSOLUTE_FEE_SATS
    && p.totalInputSats <= MAX_U64
    && (forall m :: 1 <= m < p.inputCount ==> t.Continues(utxos, m))
  }

  /** The count of coins at which the loop stops, for better or worse. */
  ghost predicate Stops(t: Terms, utxos: seq<Utxo>, n: nat) {
    && 1 <= n <= |utxos| && !t.Continues(utxos, n)
    && forall m :: 1 <= m < n ==> t.Continues(utxos, m)
  }

  lemma StopsOnce(t: Terms, utxos: seq<Utxo>, n: nat, m: nat)
    requires Stops(t, utxos, n) && Stops(t, utxos, m)
    ensures n == m
  {
  }

  /** The transfer is refused: the loop stops at an arithmetic or fee limit, or covers the payment but
      leaves no change and more than the largest fee. */
  ghost predicate Refused(t: Terms, utxos: seq<Utxo>) {
    exists n :: Stops(t, utxos, n) && RefusedAt(t, utxos, n)
  }

  ghost predicate RefusedAt(t: Terms, utxos: seq<Utxo>, n: nat)
    requires n <= |utxos|
  {
    t.Blocked(Total(utxos[..n]), n) || t.LeavesTooMuch(Total(utxos[..n]), n)
  }

  ghost predicate KnownCoins(utxos: seq<Utxo>, n: nat, knownTxid: string -> bool)
    requires n <= |utxos|
  {
    forall i :: 0 <= i < n ==> knownTxid(utxos[i].txid)
  }

  /** The loop stops at coins that cover the payment, within every limit, and their ids parse. */
  ghost predicate Payable(t: Terms, utxos: seq<Utxo>, knownTxid: string -> bool) {
    exists n :: Stops(t, utxos, n) && !RefusedAt(t, utxos, n) && KnownCoins(utxos, n, knownTxid)
  }

  ghost predicate PartiesOk(sender: Option<Address>, recipient: Option<Address>, amount: nat, rate: nat) {
    sender.Some? && recipient.Some? && Terms(sender.value, recipient.value, amount, rate).Valid()
  }

  /** `checked_address` yields an address of the right network or nothing; `knownTxid` says whether a
      UTXO's transaction id parses.  Which of the four ways a call ends is known beforehand. */
  method BuildPsbt(sender: Option<Address>, recipient: Option<Address>, amount: nat, rate: nat,
                   utxos: seq<Utxo>, knownTxid: string -> bool)
    returns (r: Result<Prepared, Error>)
    ensures r.Success? ==> PartiesOk(sender, recipient, amount, rate)
    ensures r.Success? ==> PreparedFrom(r.value, Terms(sender.value, recipient.value, amount, rate), utxos)
    ensures !PartiesOk(sender, recipient, amount, rate) ==> r == Failure(InvalidInput)
    ensures PartiesOk(sender, recipient, amount, rate) ==>
              var t := Terms(sender.value, recipient.value, amount, rate);
              && (r.Success? <==> Payable(t, utxos, knownTxid))
              && (r == Failure(InvalidInput) <==> Refused(t, utxos))
              && (r == Failure(InsufficientFunds) <==> forall m :: 1 <= m <= |utxos| ==> t.Continues(utxos, m))
  {
    if recipient.None? || amount < Dust(recipient.value.kind) {
      return Failure(InvalidInput);
    }
    if sender.None? || sender.value.kind == Legacy {
      return Failure(InvalidInput);
    }
    var t := Terms(sender.value, recipient.value, amount, rate);
    var selected := SelectCoins(t, utxos);
    if selected.Failure? {
      BlockedSelection(t, utxos, knownTxid);
      return Failure(selected.error);
    }
    var selection := selected.value;
    if selection.NotEnough? {
      return Failure(InsufficientFunds);
    }
    StoppedAt(t, utxos, selection, knownTxid);
    if selection.fee > MAX_ABSOLUTE_FEE_SATS {
      return Failure(InvalidInput);
    }
    var coins := utxos[..selection.count];
    var inputs := [];
    for i := 0 to |coins|
      invariant SpendsAll(inputs, coins[..i], t.sender)
      invariant KnownCoins(utxos, i, knownTxid)
    {
      if !knownTxid(coins[i].txid) {
        return Failure(Network);
      }
      inputs := inputs + [InputOf(t.sender, coins[i])];
    }
    assert coins[..|coins|] == coins;
    var outputs := [TxOut(amount, t.recipient.script)];
    if selection.change > 0 {
      outputs := outputs + [TxOut(selection.change, t.sender.script)];
    }
    r := Success(Prepared(Psbt(inputs, outputs), amount, selection.fee, selection.total, selection.change,
                          selection.count));
  }

  /** A selection that meets a limit means a refusal, and nothing else. */
  lemma BlockedSelection(t: Terms, utxos: seq<Utxo>, knownTxid: string -> bool)
    requires exists n :: 1 <= n <= |utxos| && t.Blocked(Total(utxos[..n]), n)
                      && forall m :: 1 <= m < n ==> t.Continues(utxos, m)
    ensures Refused(t, utxos) && !Payable(t, utxos, knownTxid)
    ensures exists m :: 1 <= m <= |utxos| && !t.Continues(utxos, m)
  {
    var n :| 1 <= n <= |utxos| && t.Blocked(Total(utxos[..n]), n) && forall m :: 1 <= m < n ==> t.Continues(utxos, m);
    assert Stops(t, utxos, n) && RefusedAt(t, utxos, n);
    forall m | Stops(t, utxos, m) ensures m == n {
      StopsOnce(t, utxos, n, m);
    }
  }

  /** What a selection that covers says about the outcome. */
  lemma StoppedAt(t: Terms, utxos: seq<Utxo>, selection: Selection, knownTxid: string -> bool)
    requires selection.Enough? && Selected(t, utxos, selection)
    ensures Stops(t, utxos, selection.count)
    ensures Refused(t, utxos) <==> selection.fee > MAX_ABSOLUTE_FEE_SATS
    ensures Payable(t, utxos, knownTxid) <==>
              selection.fee <= MAX_ABSOLUTE_FEE_SATS && KnownCoins(utxos, selection.count, knownTxid)
  {
    var n := selection.count;
    assert Stops(t, utxos, n);
    assert RefusedAt(t, utxos, n) <==> selection.fee > MAX_ABSOLUTE_FEE_SATS;
    forall m | Stops(t, utxos, m) ensures m == n {
      StopsOnce(t, utxos, n, m);
    }
  }

  // ---------- A transfer that is refused although its coins suffice ----------

  /** `n` coins of 100,000 sats from one transaction. */
  function EqualCoins(n: nat, txid: string): seq<Utxo> {
    seq(n, i requires 0 <= i < n => Utxo(txid, i, 100_000, true))
  }

  lemma {:induction false} EqualCoinsTotal(n: nat, txid: string, m: nat)
    requires m <= n
    ensures Total(EqualCoins(n, txid)[..m]) == m * 100_000
  {
    if m > 0 {
      EqualCoinsTotal(n, txid, m - 1);
      TotalGrows(EqualCoins(n, txid), m - 1);
    }
  }

  lemma WitnessFees(t: Terms, n: nat)
    requires |t.sender.script| == |t.recipient.script| == 22 && t.sender.kind == P2wpkh
    ensures t.OneOutputFee(n) == (42 + 69 * n) * t.rate && t.TwoOutputFee(n) == (73 + 69 * n) * t.rate
  {
    ChangeOutputCost(t, n);
    assert OutputSize([|t.recipient.script|]) == 31;
    assert (42 + 69 * n) * t.rate + 31 * t.rate == (73 + 69 * n) * t.rate;
  }

  /** At 254 sats per vbyte, 56 coins pay 4,599,900 sats and the fee of a transaction with one output,
      within every limit; but 1,000,100 sats are left, too little for change and too much for a fee. */
  lemma RefusedThoughCovered(sender: Address, recipient: Address, txid: string)
    requires sender.kind == recipient.kind == P2wpkh && |sender.script| == |recipient.script| == 22
    ensures
      var t, utxos := Terms(sender, recipient, 4_599_900, 254), EqualCoins(56, txid);
      && t.Valid() && t.Covers(Total(utxos), 56) && !t.Blocked(Total(utxos), 56)
      && Refused(t, utxos)
  {
    var t, utxos := Terms(sender, recipient, 4_599_900, 254), EqualCoins(56, txid);
    forall m | 1 <= m <= 56 ensures m < 56 ==> t.Continues(utxos, m) {
      EqualCoinsTotal(56, txid, m);
      WitnessFees(t, m);
    }
    EqualCoinsTotal(56, txid, 56);
    WitnessFees(t, 56);
    assert utxos[..56] == utxos;
    assert Stops(t, utxos, 56) && RefusedAt(t, utxos, 56);
  }

  lemma NoChoiceCovers(t: Terms, utxos: seq<Utxo>, chosen: multiset<Utxo>)
    requires LargestFirst(utxos) && chosen <= multiset(utxos) && |chosen| <= |utxos|
    requires t.Continues(utxos, |chosen|)
    ensures !t.Covers(Sum(chosen), |chosen|)
  {
    LargestAreBest(utxos, chosen);
  }

  lemma NothingCovers(t: Terms, chosen: multiset<Utxo>)
    requires t.Valid() && |chosen| == 0
    ensures !t.Covers(Sum(chosen), 0)
  {
    assert Size(t.sender.kind, 0, [|t.recipient.script|]) * t.rate >= 0;
  }

  /** Fewer coins never suffice: with the coins largest first, no choice of fewer of them pays the
      amount and the fee of its own one-output transaction. */
  lemma SelectionMinimal(p: Prepared, t: Terms, utxos: seq<Utxo>, chosen: multiset<Utxo>)
    requires LargestFirst(utxos) && PreparedFrom(p, t, utxos)
    requires chosen <= multiset(utxos) && |chosen| < p.inputCount
    ensures !t.Covers(Sum(chosen), |chosen|)
  {
    if |chosen| == 0 {
      NothingCovers(t, chosen);
      return;
    }
    assert t.Continues(utxos, |chosen|);
    NoChoiceCovers(t, utxos, chosen);
  }

  /** The same for every confirmed coin of the account, whether or not truncation kept it. */
  lemma SelectionMinimalOverAll(p: Prepared, t: Terms, response: seq<Utxo>, chosen: multiset<Utxo>)
    requires PreparedFrom(p, t, Truncate(SortedByValue(Confirmed(response))))
    requires chosen <= multiset(Confirmed(response)) && |chosen| < p.inputCount
    ensures !t.Covers(Sum(chosen), |chosen|)
  {
    if |chosen| == 0 {
      NothingCovers(t, chosen);
      return;
    }
    var all := SortedByValue(Confirmed(response));
    SortedByValueSorts(Confirmed(response));
    assert all[..|chosen|] == Truncate(all)[..|chosen|];
    assert t.Continues(Truncate(all), |chosen|);
    NoChoiceCovers(t, all, chosen);
  }

  /** When the loop runs out, no choice of the supplied coins would have been enough. */
  lemma InsufficientMeansNone(t: Terms, utxos: seq<Utxo>, chosen: multiset<Utxo>)
    requires LargestFirst(utxos) && t.Valid()
    requires forall m :: 1 <= m <= |utxos| ==> t.Continues(utxos, m)
    requires chosen <= multiset(utxos)
    ensures !t.Covers(Sum(chosen), |chosen|)
  {
    if |chosen| == 0 {
      NothingCovers(t, chosen);
      return;
    }
    LargestAreBest(utxos, chosen);
    assert t.Continues(utxos, |chosen|);
    NoChoiceCovers(t, utxos, chosen);
  }

  // ---------- Checking ----------

  ghost function InputValue(inputs: seq<Input>): nat {
    if inputs == [] then 0
    else
      var last := inputs[|inputs| - 1];
      InputValue(inputs[..|inputs| - 1]) + if last.witnessUtxo.Some? then last.witnessUtxo.value.value else 0
  }

  ghost function OutputValue(outputs: seq<TxOut>): nat {
    if outputs == [] then 0 else OutputValue(outputs[..|outputs| - 1]) + outputs[|outputs| - 1].value
  }

  ghost predicate SpendsOnlyFrom(inputs: seq<Input>, sender: Address) {
    forall i :: 0 <= i < |inputs| ==> inputs[i].witnessUtxo.Some? && inputs[i].witnessUtxo.value.script == sender.script
  }

  /** One output pays the recipient the amount, and every other output goes back to the sender. */
  ghost predicate PaysExactly(outputs: seq<TxOut>, sender: Address, recipient: Address, amount: nat) {
    exists i :: PaysAt(outputs, |outputs|, i, sender, recipient, amount)
  }

  /** Among the first `n` outputs, the `i`th is the payment and the others are the sender's. */
  ghost predicate PaysAt(outputs: seq<TxOut>, n: nat, i: int, sender: Address, recipient: Address, amount: nat)
    requires n <= |outputs|
  {
    && 0 <= i < n && outputs[i] == TxOut(amount, recipient.script)
    && forall j :: 0 <= j < n && j != i ==> outputs[j].script == sender.script
  }

  /** What a PSBT must be to be signed for this payment. */
  ghost predicate Acceptable(psbt: Psbt, sender: Address, recipient: Address, amount: nat) {
    && amount != 0
    && 1 <= |psbt.inputs| <= MAX_TRANSACTION_INPUTS
    && SpendsOnlyFrom(psbt.inputs, sender)
    && PaysExactly(psbt.outputs, sender, recipient, amount)
    && InputValue(psbt.inputs) <= MAX_U64 && OutputValue(psbt.outputs) <= MAX_U64
    && OutputValue(psbt.outputs) < InputValue(psbt.inputs) <= OutputValue(psbt.outputs) + MAX_ABSOLUTE_FEE_SATS
  }

  lemma InputValueGrows(inputs: seq<Input>, i: nat)
    requires i < |inputs|
    ensures InputValue(inputs[..i + 1])
         == InputValue(inputs[..i]) + if inputs[i].witnessUtxo.Some? then inputs[i].witnessUtxo.value.value else 0
    ensures InputValue(inputs[..i + 1]) <= InputValue(inputs)
    decreases |inputs| - i
  {
    assert inputs[..i + 1][..i] == inputs[..i];
    if i + 1 < |inputs| {
      InputValueGrows(inputs, i + 1);
    } else {
      assert inputs[..i + 1] == inputs;
    }
  }

  lemma OutputValueGrows(outputs: seq<TxOut>, i: nat)
    requires i < |outputs|
    ensures OutputValue(outputs[..i + 1]) == OutputValue(outputs[..i]) + outputs[i].value
    ensures OutputValue(outputs[..i + 1]) <= OutputValue(outputs)
    decreases |outputs| - i
  {
    assert outputs[..i + 1][..i] == outputs[..i];
    if i + 1 < |outputs| {
      OutputValueGrows(outputs, i + 1);
    } else {
      assert outputs[..i + 1] == outputs;
    }
  }

  method CheckInputs(inputs: seq<Input>, sender: Address) returns (r: Result<nat, Error>)
    ensures r.Success? <==> SpendsOnlyFrom(inputs, sender) && InputValue(inputs) <= MAX_U64
    ensures r.Success? ==> r.value == InputValue(inputs)
  {
    var total := 0;
    for i := 0 to |inputs|
      invariant total == InputValue(inputs[..i]) && total <= MAX_U64
      invariant SpendsOnlyFrom(inputs[..i], sender)
    {
      InputValueGrows(inputs, i);
      var utxo := inputs[i].witnessUtxo;
      if utxo.None? || utxo.value.script != sender.script {
        return Failure(InvalidInput);
      }
      total :- CheckedAdd(total, utxo.value.value);
    }
    assert inputs[..|inputs|] == inputs;
    return Success(total);
  }

  /** The state of the output fold: whether, and where, the payment has been found. */
  ghost predicate Scanned(outputs: seq<TxOut>, n: nat, found: bool, sender: Address, recipient: Address, amount: nat)
    requires n <= |outputs|
  {
    if found then
      exists i :: PaysAt(outputs, n, i, sender, recipient, amount)
    else
      forall j :: 0 <= j < n ==> outputs[j] != TxOut(amount, recipient.script) && outputs[j].script == sender.script
  }

  method CheckOutputs(outputs: seq<TxOut>, sender: Address, recipient: Address, amount: nat)
    returns (r: Result<(nat, bool), Error>)
    ensures r.Success? && r.value.1 <==>
              PaysExactly(outputs, sender, recipient, amount) && OutputValue(outputs) <= MAX_U64
    ensures r.Success? ==> r.value.0 == OutputValue(outputs)
  {
    var total, foundRecipient := 0, false;
    for n := 0 to |outputs|
      invariant total == OutputValue(outputs[..n]) && total <= MAX_U64
      invariant Scanned(outputs, n, foundRecipient, sender, recipient, amount)
    {
      OutputValueGrows(outputs, n);
      var output := outputs[n];
      if !foundRecipient && output.script == recipient.script && output.value == amount {
        foundRecipient := true;
        assert PaysAt(outputs, n + 1, n, sender, recipient, amount);
      } else if output.script != sender.script {
        StrayOutput(outputs, n, foundRecipient, sender, recipient, amount);
        return Failure(InvalidInput);
      } else if foundRecipient {
        ghost var i :| PaysAt(outputs, n, i, sender, recipient, amount);
        assert PaysAt(outputs, n + 1, i, sender, recipient, amount);
      }
      total :- CheckedAdd(total, output.value);
    }
    assert outputs[..|outputs|] == outputs;
    return Success((total, foundRecipient));
  }

  /** An output that is neither the first payment nor the sender's rules the PSBT out. */
  lemma StrayOutput(outputs: seq<TxOut>, n: nat, found: bool, sender: Address, recipient: Address, amount: nat)
    requires n < |outputs| && Scanned(outputs, n, found, sender, recipient, amount)
    requires outputs[n].script != sender.script
    requires found || outputs[n] != TxOut(amount, recipient.script)
    ensures !PaysExactly(outputs, sender, recipient, amount)
  {
    if found {
      var i :| PaysAt(outputs, n, i, sender, recipient, amount);
      assert outputs[i].script == recipient.script;
      assert forall k :: PaysAt(outputs, |outputs|, k, sender, recipient, amount) ==> k == n;
    }
  }

  /** The validator accepts exactly the acceptable PSBTs. */
  method ValidatePreparedPsbt(psbt: Psbt, sender: Address, recipient: Address, amount: nat)
    returns (r: Result<(), Error>)
    ensures r.Success? <==> Acceptable(psbt, sender, recipient, amount)
  {
    if amount == 0 || psbt.inputs == [] || |psbt.inputs| > MAX_TRANSACTION_INPUTS {
      return Failure(InvalidInput);
    }
    var totalInput :- CheckInputs(psbt.inputs, sender);
    var outputs :- CheckOutputs(psbt.outputs, sender, recipient, amount);
    var fee :- CheckedSub(totalInput, outputs.0);
    if !outputs.1 || fee == 0 || fee > MAX_ABSOLUTE_FEE_SATS {
      return Failure(InvalidInput);
    }
    return Success(());
  }

  // ---------- Builder and validator agree ----------

  lemma {:induction false} InputsWorth(inputs: seq<Input>, coins: seq<Utxo>, sender: Address)
    requires SpendsAll(inputs, coins, sender)
    ensures InputValue(inputs) == Total(coins)
  {
    if coins != [] {
      var n := |coins| - 1;
      InputsWorth(inputs[..n], coins[..n], sender);
      assert Spends(inputs[n], coins[n], sender);
    }
  }

  /** Each coin is spent as the output it is, so distinct outputs supplied are distinct outputs spent. */
  lemma DistinctSpent(p: Prepared, t: Terms, utxos: seq<Utxo>)
    requires PreparedFrom(p, t, utxos)
    requires forall i, j :: 0 <= i < j < |utxos| ==> utxos[i].txid != utxos[j].txid || utxos[i].vout != utxos[j].vout
    ensures |p.psbt.inputs| == p.inputCount
    ensures forall i :: 0 <= i < p.inputCount ==>
              p.psbt.inputs[i].txid == utxos[i].txid && p.psbt.inputs[i].vout == utxos[i].vout
    ensures forall i, j :: 0 <= i < j < p.inputCount ==>
              p.psbt.inputs[i].txid != p.psbt.inputs[j].txid || p.psbt.inputs[i].vout != p.psbt.inputs[j].vout
  {
    forall i | 0 <= i < p.inputCount
      ensures p.psbt.inputs[i].txid == utxos[i].txid && p.psbt.inputs[i].vout == utxos[i].vout
    {
      assert Spends(p.psbt.inputs[i], utxos[..p.inputCount][i], t.sender);
    }
  }

  ghost function ScriptLengths(outputs: seq<TxOut>): seq<nat> {
    seq(|outputs|, i requires 0 <= i < |outputs| => |outputs[i].script|)
  }

  /** Value is conserved, the change is nothing or not dust, and the fee is what the actual outputs
      cost, within the limit and without overpaying by more than a change output and dust. */
  lemma PreparedConserves(p: Prepared, t: Terms, utxos: seq<Utxo>)
    requires PreparedFrom(p, t, utxos)
    ensures InputValue(p.psbt.inputs) == t.amount + p.feeSats + p.changeSats
    ensures OutputValue(p.psbt.outputs) == t.amount + p.changeSats
    ensures p.changeSats == 0 || p.changeSats >= Dust(t.sender.kind)
    ensures
      var actual := Size(t.sender.kind, |p.psbt.inputs|, ScriptLengths(p.psbt.outputs)) * t.rate;
      && 0 < actual <= p.feeSats <= MAX_ABSOLUTE_FEE_SATS
      && p.feeSats < actual + (9 + |t.sender.script|) * t.rate + Dust(t.sender.kind)
      && (p.changeSats > 0 ==> p.feeSats == actual)
  {
    InputsWorth(p.psbt.inputs, utxos[..p.inputCount], t.sender);
    FeesPositive(t, p.inputCount);
    Overpayment(t, p.totalInputSats, p.inputCount, p.feeSats, p.changeSats);
    OutputsWorth(p.psbt.outputs, t, p.changeSats);
    TimesAtLeast(9 + |t.sender.script|, t.rate);
  }

  lemma OutputsWorth(outputs: seq<TxOut>, t: Terms, change: nat)
    requires PaysOut(outputs, t, change)
    ensures OutputValue(outputs) == t.amount + change
    ensures ScriptLengths(outputs)
         == if change > 0 then [|t.recipient.script|, |t.sender.script|] else [|t.recipient.script|]
  {
    assert outputs[..1][..0] == [] && outputs[..1][0] == outputs[0];
    assert OutputValue(outputs[..1]) == t.amount;
    assert change == 0 ==> outputs == outputs[..1];
  }

  /** The validator accepts every transfer the builder prepares from at most 200 coins. */
  lemma PreparedAcceptable(p: Prepared, t: Terms, utxos: seq<Utxo>)
    requires PreparedFrom(p, t, utxos)
    requires p.inputCount <= MAX_TRANSACTION_INPUTS
    ensures Acceptable(p.psbt, t.sender, t.recipient, t.amount)
  {
    PreparedConserves(p, t, utxos);
    forall i | 0 <= i < |p.psbt.inputs|
      ensures p.psbt.inputs[i].witnessUtxo.Some? && p.psbt.inputs[i].witnessUtxo.value.script == t.sender.script
    {
      assert Spends(p.psbt.inputs[i], utxos[..p.inputCount][i], t.sender);
    }
    var outputs := p.psbt.outputs;
    assert PaysAt(outputs, |outputs|, 0, t.sender, t.recipient, t.amount);
  }

  ghost function PaidTo(outputs: seq<TxOut>, script: seq<bv8>): nat {
    if outputs == [] then 0
    else
      var last := outputs[|outputs| - 1];
      PaidTo(outputs[..|outputs| - 1], script) + if last.script == script then last.value else 0
  }

  lemma {:induction false} AllPaidTo(outputs: seq<TxOut>, script: seq<bv8>)
    requires forall j :: 0 <= j < |outputs| ==> outputs[j].script == script
    ensures PaidTo(outputs, script) == OutputValue(outputs)
  {
    if outputs != [] {
      AllPaidTo(outputs[..|outputs| - 1], script);
    }
  }

  lemma {:induction false} PaidExceptOne(outputs: seq<TxOut>, script: seq<bv8>, i: nat)
    requires i < |outputs| && outputs[i].script != script
    requires forall j :: 0 <= j < |outputs| && j != i ==> outputs[j].script == script
    ensures PaidTo(outputs, script) + outputs[i].value == OutputValue(outputs)
  {
    var init := outputs[..|outputs| - 1];
    if i == |outputs| - 1 {
      AllPaidTo(init, script);
    } else {
      PaidExceptOne(init, script, i);
    }
  }

  /** Of any accepted PSBT: the sender, who alone pays, loses exactly the amount and the fee, or only
      the fee when paying itself. */
  lemma SenderLosesExactly(psbt: Psbt, sender: Address, recipient: Address, amount: nat)
    requires Acceptable(psbt, sender, recipient, amount)
    ensures
      var fee := InputValue(psbt.inputs) - OutputValue(psbt.outputs);
      var loss := InputValue(psbt.inputs) - PaidTo(psbt.outputs, sender.script);
      && 0 < fee <= MAX_ABSOLUTE_FEE_SATS
      && loss == (if recipient.script != sender.script then amount + fee else fee)
  {
    var i :| PaysAt(psbt.outputs, |psbt.outputs|, i, sender, recipient, amount);
    if recipient.script != sender.script {
      PaidExceptOne(psbt.outputs, sender.script, i);
    } else {
      AllPaidTo(psbt.outputs, sender.script);
    }
  }
}
