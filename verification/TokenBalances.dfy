/** Model of token aggregation and balance printing (apps/extension/src/background.ts). */
module TokenBalances {
  import opened Wrappers
  import opened Numerals

  predicate IsDigit(c: char) {
    '0' <= c <= '9'
  }

  predicate AllDigits(text: string) {
    forall i :: 0 <= i < |text| ==> IsDigit(text[i])
  }

  function DigitOf(c: char): nat
    requires IsDigit(c)
  {
    c as int - '0' as int
  }

  function CharOf(d: nat): char
    requires d < 10
  {
    ('0' as int + d) as char
  }

  function DigitsOf(text: string): (r: seq<nat>)
    requires AllDigits(text)
    ensures |r| == |text| && Proper(r, 10)
  {
    seq(|text|, i requires 0 <= i < |text| => DigitOf(text[i]))
  }

  function TextOf(digits: seq<nat>): (r: string)
    requires forall i :: 0 <= i < |digits| ==> digits[i] < 10
    ensures |r| == |digits| && AllDigits(r)
  {
    seq(|digits|, i requires 0 <= i < |digits| => CharOf(digits[i]))
  }

  /** `BigInt(text)`. */
  function Amount(text: string): nat
    requires AllDigits(text)
  {
    Value(DigitsOf(text), 10)
  }

  /** `BigInt.toString()`. */
  function Decimal(n: nat): (r: string)
    ensures AllDigits(r)
  {
    DigitsValue(n, 10);
    if n == 0 then "0" else TextOf(Digits(n, 10))
  }

  /** Written the way `BigInt.toString()` writes: digits, and no leading zero unless it is "0". */
  predicate Canonical(raw: string) {
    AllDigits(raw) && raw != [] && (raw[0] == '0' ==> raw == "0")
  }

  lemma DecimalAmount(n: nat)
    ensures Canonical(Decimal(n)) && Amount(Decimal(n)) == n
  {
    DigitsValue(n, 10);
    if n == 0 {
      assert DigitsOf("0") == [] + [0];
      ValueSnoc([], 0, 10);
    } else {
      DigitsFirst(n, 10);
      assert DigitsOf(TextOf(Digits(n, 10))) == Digits(n, 10);
    }
  }

  /** A canonical text is the decimal of its amount. */
  lemma CanonicalUnique(raw: string)
    requires Canonical(raw)
    ensures Decimal(Amount(raw)) == raw
  {
    var digits := DigitsOf(raw);
    if raw == "0" {
      assert digits == [] + [0];
      ValueSnoc([], 0, 10);
    } else {
      assert digits[0] != 0;
      DigitsUnique(digits, 10);
      ValuePositive(digits, 10);
      assert TextOf(digits) == raw;
    }
  }

  // ---------- Printing ----------

  function PadStart(text: string, width: nat): (r: string)
    ensures |r| >= width && |r| >= |text|
    ensures AllDigits(text) ==> AllDigits(r)
  {
    if |text| >= width then text else seq(width - |text|, _ => '0') + text
  }

  /** `replace(/0+$/, '')`. */
  function TrimZeros(text: string): (r: string)
    ensures AllDigits(text) ==> AllDigits(r)
    ensures r != [] ==> r[|r| - 1] != '0'
  {
    if text != [] && text[|text| - 1] == '0' then TrimZeros(text[..|text| - 1]) else text
  }

  /** The padded text before the point, and the `decimals` digits after it. */
  function WholePart(raw: string, decimals: nat): (r: string)
    ensures r != [] && (AllDigits(raw) ==> AllDigits(r))
  {
    var padded := PadStart(raw, decimals + 1);
    padded[..|padded| - decimals]
  }

  function LowPart(raw: string, decimals: nat): (r: string)
    ensures |r| == decimals && (AllDigits(raw) ==> AllDigits(r))
  {
    var padded := PadStart(raw, decimals + 1);
    padded[|padded| - decimals..]
  }

  function FormatAtomicBalance(raw: string, decimals: nat): string {
    var padded := PadStart(raw, decimals + 1);
    if decimals == 0 then padded
    else
      var whole := padded[..|padded| - decimals];
      var fraction := TrimZeros(padded[|padded| - decimals..]);
      if fraction != [] then whole + "." + fraction else whole
  }

  // ---------- Reading back ----------

  function Power(base: nat, n: nat): nat {
    if n == 0 then 1 else base * Power(base, n - 1)
  }

  /** The digits before and after the point. */
  function Split(text: string): (r: (string, string)) {
    if text == [] then ([], [])
    else if text[0] == '.' then ([], text[1..])
    else
      var rest := Split(text[1..]);
      ([text[0]] + rest.0, rest.1)
  }

  /** Reads a decimal number in units of 10^-decimals; None if it is not one, or is too fine. */
  function ParseBalance(text: string, decimals: nat): Option<nat> {
    var parts := Split(text);
    if parts.0 != [] && AllDigits(parts.0) && AllDigits(parts.1) && |parts.1| <= decimals
    then Some(Amount(parts.0) * Power(10, decimals) + Amount(parts.1) * Power(10, decimals - |parts.1|))
    else None
  }

  lemma {:induction false} SplitDigits(whole: string, fraction: string)
    requires AllDigits(whole)
    ensures Split(whole) == (whole, [])
    ensures Split(whole + "." + fraction) == (whole, fraction)
  {
    if whole == [] {
      assert whole + "." + fraction == "." + fraction;
    } else {
      assert (whole + "." + fraction)[1..] == whole[1..] + "." + fraction;
      SplitDigits(whole[1..], fraction);
      assert [whole[0]] + whole[1..] == whole;
    }
  }

  lemma AmountSnoc(text: string, c: char)
    requires AllDigits(text) && IsDigit(c)
    ensures AllDigits(text + [c]) && Amount(text + [c]) == Amount(text) * 10 + DigitOf(c)
  {
    assert DigitsOf(text + [c]) == DigitsOf(text) + [DigitOf(c)];
    ValueSnoc(DigitsOf(text), DigitOf(c), 10);
  }

  lemma PowerStep(x: nat, n: nat)
    ensures x * Power(10, n) * 10 == x * Power(10, n + 1)
  {
    assert Power(10, n + 1) == Power(10, n) * 10;
    Associate(x, Power(10, n), 10);
  }

  lemma Associate(x: nat, y: nat, z: nat)
    ensures x * y * z == x * (y * z)
  {
  }

  lemma {:induction false} AmountConcat(a: string, b: string)
    requires AllDigits(a) && AllDigits(b)
    ensures Amount(a + b) == Amount(a) * Power(10, |b|) + Amount(b)
  {
    if b == [] {
      assert a + b == a;
    } else {
      var init, last := b[..|b| - 1], b[|b| - 1];
      AmountConcat(a, init);
      AmountSnoc(a + init, last);
      AmountSnoc(init, last);
      assert a + init + [last] == a + b && init + [last] == b;
      PowerStep(Amount(a), |init|);
    }
  }

  lemma AmountPadded(text: string, width: nat)
    requires AllDigits(text)
    ensures Amount(PadStart(text, width)) == Amount(text)
  {
    if |text| < width {
      var zeros := seq(width - |text|, _ => '0');
      assert DigitsOf(zeros + text) == Zeros(width - |text|) + DigitsOf(text);
      ValueIgnoresZeros(width - |text|, DigitsOf(text), 10);
    }
  }

  lemma {:induction false} AmountTrimmed(text: string)
    requires AllDigits(text)
    ensures |TrimZeros(text)| <= |text|
    ensures Amount(TrimZeros(text)) * Power(10, |text| - |TrimZeros(text)|) == Amount(text)
  {
    if text != [] && text[|text| - 1] == '0' {
      var init := text[..|text| - 1];
      AmountTrimmed(init);
      AmountSnoc(init, '0');
      assert text == init + ['0'];
      PowerStep(Amount(TrimZeros(text)), |init| - |TrimZeros(text)|);
    }
  }

  lemma ParsesTo(whole: string, fraction: string, decimals: nat, text: string)
    requires whole != [] && AllDigits(whole) && AllDigits(fraction) && |fraction| <= decimals
    requires text == if fraction != [] then whole + "." + fraction else whole
    ensures ParseBalance(text, decimals)
         == Some(Amount(whole) * Power(10, decimals) + Amount(fraction) * Power(10, decimals - |fraction|))
  {
    SplitDigits(whole, fraction);
  }

  lemma FormatParts(raw: string, decimals: nat)
    ensures
      var whole, fraction := WholePart(raw, decimals), TrimZeros(LowPart(raw, decimals));
      FormatAtomicBalance(raw, decimals) == if fraction != [] then whole + "." + fraction else whole
  {
    if decimals == 0 {
      assert LowPart(raw, 0) == [];
      assert WholePart(raw, 0) == PadStart(raw, 1);
    }
  }

  lemma PartsAmount(raw: string, decimals: nat)
    requires AllDigits(raw)
    ensures Amount(WholePart(raw, decimals)) * Power(10, decimals) + Amount(LowPart(raw, decimals)) == Amount(raw)
  {
    AmountPadded(raw, decimals + 1);
    assert PadStart(raw, decimals + 1) == WholePart(raw, decimals) + LowPart(raw, decimals);
    AmountConcat(WholePart(raw, decimals), LowPart(raw, decimals));
  }

  /** What is printed reads back as exactly the raw amount, for every digit string and precision. */
  lemma FormatReadsBack(raw: string, decimals: nat)
    requires AllDigits(raw)
    ensures ParseBalance(FormatAtomicBalance(raw, decimals), decimals) == Some(Amount(raw))
  {
    var whole, low := WholePart(raw, decimals), LowPart(raw, decimals);
    FormatParts(raw, decimals);
    PartsAmount(raw, decimals);
    AmountTrimmed(low);
    ParsesTo(whole, TrimZeros(low), decimals, FormatAtomicBalance(raw, decimals));
  }

  /** The printed form is canonical: no superfluous zero in front, none behind the point. */
  lemma FormatCanonical(raw: string, decimals: nat)
    requires Canonical(raw)
    ensures
      var parts := Split(FormatAtomicBalance(raw, decimals));
      && Canonical(parts.0) && AllDigits(parts.1) && |parts.1| <= decimals
      && (parts.1 != [] ==> parts.1[|parts.1| - 1] != '0')
      && FormatAtomicBalance(raw, decimals) == (if parts.1 == [] then parts.0 else parts.0 + "." + parts.1)
  {
    var whole, low := WholePart(raw, decimals), LowPart(raw, decimals);
    FormatParts(raw, decimals);
    SplitDigits(whole, TrimZeros(low));
    AmountTrimmed(low);
    if |raw| <= decimals {
      assert whole == "0";
    }
  }

  /** For a fixed precision, different canonical amounts print differently. */
  lemma FormatInjective(raw: string, other: string, decimals: nat)
    requires Canonical(raw) && Canonical(other)
    requires FormatAtomicBalance(raw, decimals) == FormatAtomicBalance(other, decimals)
    ensures raw == other
  {
    FormatReadsBack(raw, decimals);
    FormatReadsBack(other, decimals);
    CanonicalUnique(raw);
    CanonicalUnique(other);
  }

  // ---------- Aggregation ----------

  /** One parsed token account; fields of the wrong type are None.  `decimals` is what `Number(...)`
      makes of that field, None when that is not an integer. */
  datatype TokenAccount =
    TokenAccount(parsed: bool, mint: Option<string>, amount: Option<string>, decimals: Option<int>)

  datatype Asset = Asset(rawBalance: string, decimals: nat, balance: string)

  predicate ValidAccount(a: TokenAccount) {
    && a.parsed
    && a.mint.Some? && a.mint.value != ""
    && a.amount.Some? && a.amount.value != "" && AllDigits(a.amount.value) && Amount(a.amount.value) != 0
    && a.decimals.Some? && 0 <= a.decimals.value <= 255
  }

  /** An account counts if it was parsed, names its mint, and has a positive amount written in digits and
      a precision that fits a byte. */
  lemma ValidExactly(parsed: bool, mint: string, amount: string, decimals: int)
    ensures ValidAccount(TokenAccount(parsed, Some(mint), Some(amount), Some(decimals)))
       <==> parsed && |mint| > 0 && |amount| > 0 && AllDigits(amount) && Amount(amount) > 0 && 0 <= decimals < 256
    ensures forall a :: ValidAccount(a) ==> a.mint.Some? && a.amount.Some? && a.decimals.Some?
  {
  }

  predicate Holds(a: TokenAccount, mint: string) {
    ValidAccount(a) && a.mint.value == mint
  }

  function MintTotal(accounts: seq<TokenAccount>, mint: string): nat {
    if accounts == [] then 0
    else
      var last := accounts[|accounts| - 1];
      MintTotal(accounts[..|accounts| - 1], mint) + if Holds(last, mint) then Amount(last.amount.value) else 0
  }

  /** The precision of the last valid account of a mint, which is the one that is shown. */
  function LastDecimals(accounts: seq<TokenAccount>, mint: string): nat {
    if accounts == [] then 0
    else
      var last := accounts[|accounts| - 1];
      if Holds(last, mint) then last.decimals.value else LastDecimals(accounts[..|accounts| - 1], mint)
  }

  /** What must be shown for a mint: its total, canonically, and its balance in whole units. */
  ghost predicate Shows(asset: Asset, accounts: seq<TokenAccount>, mint: string) {
    && ShowsTotal(asset, MintTotal(accounts, mint))
    && asset.balance == FormatAtomicBalance(asset.rawBalance, asset.decimals)
    && asset.decimals == LastDecimals(accounts, mint)
  }

  ghost predicate ShowsTotal(asset: Asset, total: nat) {
    Canonical(asset.rawBalance) && Amount(asset.rawBalance) == total
  }

  ghost predicate Aggregates(assets: map<string, Asset>, accounts: seq<TokenAccount>) {
    && (forall mint :: mint in assets <==> exists a :: a in accounts && Holds(a, mint))
    && (forall mint :: mint in assets ==> Shows(assets[mint], accounts, mint))
  }

  lemma MintTotalSnoc(accounts: seq<TokenAccount>, a: TokenAccount, mint: string)
    ensures MintTotal(accounts + [a], mint)
         == MintTotal(accounts, mint) + if Holds(a, mint) then Amount(a.amount.value) else 0
    ensures LastDecimals(accounts + [a], mint)
         == if Holds(a, mint) then a.decimals.value else LastDecimals(accounts, mint)
  {
    assert (accounts + [a])[..|accounts|] == accounts;
  }

  lemma {:induction false} NoHolderNoTotal(accounts: seq<TokenAccount>, mint: string)
    requires forall a :: a in accounts ==> !Holds(a, mint)
    ensures MintTotal(accounts, mint) == 0
  {
    if accounts != [] {
      NoHolderNoTotal(accounts[..|accounts| - 1], mint);
    }
  }

  lemma OthersAggregate(assets: map<string, Asset>, accounts: seq<TokenAccount>, a: TokenAccount, mint: string)
    requires Aggregates(assets, accounts) && mint in assets && !Holds(a, mint)
    ensures Shows(assets[mint], accounts + [a], mint)
  {
    MintTotalSnoc(accounts, a, mint);
  }

  method AddAccount(assets: map<string, Asset>, a: TokenAccount, ghost accounts: seq<TokenAccount>)
    returns (r: map<string, Asset>)
    requires Aggregates(assets, accounts)
    ensures Aggregates(r, accounts + [a])
  {
    if !ValidAccount(a) {
      r := assets;
      NothingAdded(assets, accounts, a);
      return;
    }
    var mint := a.mint.value;
    PreviousTotal(assets, accounts, mint);
    var previous := if mint in assets then Amount(assets[mint].rawBalance) else 0;
    var asset := Combine(previous, a);
    NewTotalShown(accounts, a);
    SomethingAdded(assets, accounts, a, asset);
    r := assets[mint := asset];
  }

  function Combine(previous: nat, a: TokenAccount): Asset
    requires ValidAccount(a)
  {
    var combined := Decimal(previous + Amount(a.amount.value));
    Asset(combined, a.decimals.value, FormatAtomicBalance(combined, a.decimals.value))
  }

  lemma NothingAdded(assets: map<string, Asset>, accounts: seq<TokenAccount>, a: TokenAccount)
    requires Aggregates(assets, accounts) && !ValidAccount(a)
    ensures Aggregates(assets, accounts + [a])
  {
    assert forall x :: x in accounts + [a] <==> x in accounts || x == a;
    forall mint | mint in assets ensures Shows(assets[mint], accounts + [a], mint) {
      OthersAggregate(assets, accounts, a, mint);
    }
  }

  lemma SomethingAdded(assets: map<string, Asset>, accounts: seq<TokenAccount>, a: TokenAccount, asset: Asset)
    requires Aggregates(assets, accounts) && ValidAccount(a)
    requires Shows(asset, accounts + [a], a.mint.value)
    ensures Aggregates(assets[a.mint.value := asset], accounts + [a])
  {
    assert forall x :: x in accounts + [a] <==> x in accounts || x == a;
    var r := assets[a.mint.value := asset];
    assert Holds(a, a.mint.value);
    forall m | m in r ensures Shows(r[m], accounts + [a], m) {
      if m != a.mint.value { OthersAggregate(assets, accounts, a, m); }
    }
  }

  lemma PreviousTotal(assets: map<string, Asset>, accounts: seq<TokenAccount>, mint: string)
    requires Aggregates(assets, accounts)
    ensures mint in assets ==> Canonical(assets[mint].rawBalance)
    ensures (if mint in assets then Amount(assets[mint].rawBalance) else 0) == MintTotal(accounts, mint)
  {
    if mint in assets {
      assert Shows(assets[mint], accounts, mint);
    } else {
      NoHolderNoTotal(accounts, mint);
    }
  }

  lemma DecimalShows(asset: Asset, total: nat)
    requires asset.rawBalance == Decimal(total)
    ensures ShowsTotal(asset, total)
  {
    DecimalAmount(total);
  }

  lemma CombineShows(previous: nat, a: TokenAccount)
    requires ValidAccount(a)
    ensures ShowsTotal(Combine(previous, a), previous + Amount(a.amount.value))
  {
    CombinedRaw(previous, a);
    DecimalShows(Combine(previous, a), previous + Amount(a.amount.value));
  }

  lemma CombinedRaw(previous: nat, a: TokenAccount)
    requires ValidAccount(a)
    ensures Combine(previous, a).rawBalance == Decimal(previous + Amount(a.amount.value))
  {
  }

  lemma NewTotalShown(accounts: seq<TokenAccount>, a: TokenAccount)
    requires ValidAccount(a)
    ensures Shows(Combine(MintTotal(accounts, a.mint.value), a), accounts + [a], a.mint.value)
  {
    CombineShows(MintTotal(accounts, a.mint.value), a);
    MintTotalSnoc(accounts, a, a.mint.value);
  }

  /** Every mint with a valid account, and no other, is shown with the total over its valid accounts. */
  method SolanaTokenAssets(accounts: seq<TokenAccount>) returns (assets: map<string, Asset>)
    ensures Aggregates(assets, accounts)
  {
    assets := map[];
    for i := 0 to |accounts|
      invariant Aggregates(assets, accounts[..i])
    {
      assert accounts[..i + 1] == accounts[..i] + [accounts[i]];
      assets := AddAccount(assets, accounts[i], accounts[..i]);
    }
    assert accounts[..|accounts|] == accounts;
  }
}
