/** What grouping makes of a payload from before there were wallets (apps/extension/src/vault.ts), and
    when the result passes validation. */
module VaultLegacy {
  import opened Wrappers
  import opened VaultModel

  // ---------- The wallets, in closed form ----------

  const FIRST_NAME := "Wallet 1"

  /** The name of the wallet that account `k` gets for itself. */
  function OwnName(o: Oracle, p: Payload, k: nat): string
    requires k < |p.accounts|
  {
    if RootOf(o, p, 0).Some? || k > 0 then p.accounts[k].name else FIRST_NAME
  }

  /** One wallet for each of the first `n` accounts that is not recoverable. */
  function OwnWallets(o: Oracle, p: Payload, n: nat): seq<Wallet>
    requires n <= |p.accounts|
  {
    if n == 0 then []
    else if Belongs(o, p, p.accounts[n - 1]) then OwnWallets(o, p, n - 1)
    else OwnWallets(o, p, n - 1) + [Wallet(p.accounts[n - 1].id, OwnName(o, p, n - 1), "")]
  }

  ghost predicate WalletOf(o: Oracle, p: Payload, k: nat, w: Wallet)
    requires k < |p.accounts|
  {
    !Belongs(o, p, p.accounts[k]) && w == Wallet(p.accounts[k].id, OwnName(o, p, k), "")
  }

  /** `w` is the own wallet of one of the first `n` accounts. */
  ghost predicate Owned(o: Oracle, p: Payload, n: nat, w: Wallet)
    requires n <= |p.accounts|
  {
    exists k :: 0 <= k < n && WalletOf(o, p, k, w)
  }

  /** Account `k` is recoverable or has its own wallet. */
  ghost predicate HasOwn(o: Oracle, p: Payload, k: nat, wallets: seq<Wallet>)
    requires k < |p.accounts|
  {
    Belongs(o, p, p.accounts[k]) || exists j :: 0 <= j < |wallets| && WalletOf(o, p, k, wallets[j])
  }

  lemma {:induction false} OwnWalletsOwned(o: Oracle, p: Payload, n: nat, j: nat)
    requires n <= |p.accounts| && j < |OwnWallets(o, p, n)|
    ensures Owned(o, p, n, OwnWallets(o, p, n)[j])
  {
    var w := OwnWallets(o, p, n)[j];
    if j < |OwnWallets(o, p, n - 1)| {
      OwnWalletsOwned(o, p, n - 1, j);
      var k :| 0 <= k < n - 1 && WalletOf(o, p, k, w);
    } else {
      assert WalletOf(o, p, n - 1, w);
    }
  }

  lemma {:induction false} OwnWalletsHave(o: Oracle, p: Payload, n: nat, k: nat)
    requires k < n <= |p.accounts|
    ensures HasOwn(o, p, k, OwnWallets(o, p, n))
  {
    var before := OwnWallets(o, p, n - 1);
    if Belongs(o, p, p.accounts[k]) {
    } else if k < n - 1 {
      OwnWalletsHave(o, p, n - 1, k);
      var j :| 0 <= j < |before| && WalletOf(o, p, k, before[j]);
      assert OwnWallets(o, p, n)[j] == before[j];
    } else {
      assert WalletOf(o, p, k, OwnWallets(o, p, n)[|before|]);
    }
  }

  /** A wallet each at most, and none for a recoverable account. */
  lemma {:induction false} OwnWalletsCount(o: Oracle, p: Payload, n: nat, k: nat)
    requires n <= |p.accounts|
    ensures |OwnWallets(o, p, n)| <= n
    ensures k < n && Belongs(o, p, p.accounts[k]) ==> |OwnWallets(o, p, n)| < n
    ensures RootOf(o, p, 0).None? ==> |OwnWallets(o, p, n)| == n
  {
    if n > 0 {
      OwnWalletsCount(o, p, n - 1, k);
    }
  }

  /** The wallet of a recoverable account is listed first; the others' are new when they come up. */
  lemma WalletListed(o: Oracle, p: Payload, n: nat)
    requires DistinctIds(p.accounts) && n < |p.accounts|
    ensures
      var root := RootOf(o, p, 0);
      var id := Regrouped(o, p, root, p.accounts[n]).walletId.value;
      HasWallet(FirstWallets(p, root) + OwnWallets(o, p, n), id) <==> Belongs(o, p, p.accounts[n])
  {
    var root := RootOf(o, p, 0);
    var first: seq<Wallet>, own := FirstWallets(p, root), OwnWallets(o, p, n);
    if Belongs(o, p, p.accounts[n]) {
      assert (first + own)[0].id == root.value.id;
    } else {
      RootIsAnother(o, p, n);
      forall j | 0 <= j < |own| ensures own[j].id != p.accounts[n].id {
        OwnIsAnother(o, p, n, j);
      }
      assert forall j :: 0 <= j < |first + own| ==> (first + own)[j].id != p.accounts[n].id;
    }
  }

  lemma OwnIsAnother(o: Oracle, p: Payload, n: nat, j: nat)
    requires DistinctIds(p.accounts) && n < |p.accounts| && j < |OwnWallets(o, p, n)|
    ensures OwnWallets(o, p, n)[j].id != p.accounts[n].id
  {
    OwnWalletsOwned(o, p, n, j);
    var k :| 0 <= k < n && WalletOf(o, p, k, OwnWallets(o, p, n)[j]);
  }

  /** The wallets after the loop's first `n` turns. */
  ghost function Listed(o: Oracle, p: Payload, n: nat): seq<Wallet>
    requires n <= |p.accounts|
  {
    var root := RootOf(o, p, 0);
    AddWallets(RegroupedAll(o, p, root), n, root.Some?, FirstWallets(p, root))
  }

  lemma {:induction false} LegacyClosed(o: Oracle, p: Payload, n: nat)
    requires DistinctIds(p.accounts) && n <= |p.accounts|
    ensures Listed(o, p, n) == FirstWallets(p, RootOf(o, p, 0)) + OwnWallets(o, p, n)
  {
    if n == 0 {
      assert Listed(o, p, 0) == FirstWallets(p, RootOf(o, p, 0)) + [];
    } else {
      LegacyClosed(o, p, n - 1);
      LegacyStep(o, p, n - 1);
    }
  }

  lemma LegacyStep(o: Oracle, p: Payload, n: nat)
    requires DistinctIds(p.accounts) && n < |p.accounts|
    requires Listed(o, p, n) == FirstWallets(p, RootOf(o, p, 0)) + OwnWallets(o, p, n)
    ensures Listed(o, p, n + 1) == FirstWallets(p, RootOf(o, p, 0)) + OwnWallets(o, p, n + 1)
  {
    var root := RootOf(o, p, 0);
    var a := RegroupedAll(o, p, root)[n];
    assert a == Regrouped(o, p, root, p.accounts[n]) && a.name == p.accounts[n].name;
    WalletListed(o, p, n);
    OwnWalletsCount(o, p, n, 0);
    if !Belongs(o, p, p.accounts[n]) {
      var w := Wallet(p.accounts[n].id, OwnName(o, p, n), "");
      assert FirstWallets(p, root) + (OwnWallets(o, p, n) + [w]) == Listed(o, p, n) + [w];
    }
  }

  // ---------- Validity ----------

  /** Every account the phrase recovers also passes validation under it. */
  ghost predicate SeedsOk(o: Oracle, p: Payload) {
    forall i {:trigger Belongs(o, p, p.accounts[i])} :: 0 <= i < |p.accounts| && Belongs(o, p, p.accounts[i]) ==>
      o.matchesSeed(p.recoveryMnemonic, KeyOf(p.accounts[i]))
  }

  /** Account `i` is not recoverable, and its wallet takes its blank name. */
  predicate BlankAt(o: Oracle, p: Payload, i: nat)
    requires i < |p.accounts|
  {
    && !Belongs(o, p, p.accounts[i]) && (RootOf(o, p, 0).Some? || i > 0)
    && Blank(o, p.accounts[i].name)
  }

  /** The first wallet's name is not blank. */
  predicate NamesLawful(o: Oracle) {
    !Blank(o, FIRST_NAME)
  }

  predicate NameFits(o: Oracle, name: string) {
    !Blank(o, name) && |name| <= MAX_NAME
  }

  /** The same wallets, but for their names. */
  ghost predicate SameButNames(before: seq<Wallet>, after: seq<Wallet>) {
    && |after| == |before|
    && forall j :: 0 <= j < |before| ==> after[j].(name := "") == before[j].(name := "")
  }

  ghost predicate NamesFit(o: Oracle, wallets: seq<Wallet>) {
    forall j {:trigger NameFits(o, wallets[j].name)} :: 0 <= j < |wallets| ==> NameFits(o, wallets[j].name)
  }

  /** All that validation asks, the wallets aside. */
  ghost predicate Sound(o: Oracle, p: Payload) {
    && MnemonicOk(o, p.recoveryMnemonic) && 1 <= |p.accounts| <= MAX_ACCOUNTS && AccountsOk(o, p.accounts)
    && (exists i :: 0 <= i < |p.accounts| && p.accounts[i].id == p.selectedAccountId)
  }

  /** A sound payload without wallets that can be grouped. */
  ghost predicate Legacy(o: Oracle, p: Payload) {
    Sound(o, p) && p.wallets.None? && (p.recoveryMnemonic != "" ==> RootOf(o, p, 0).Some?)
  }

  lemma LegacyAccounts(o: Oracle, p: Payload)
    requires Legacy(o, p)
    ensures
      var g := LegacyGroups(o, p);
      && AccountsOk(o, g.accounts) && |g.accounts| == |p.accounts|
      && (exists i :: 0 <= i < |g.accounts| && g.accounts[i].id == g.selectedAccountId)
  {
    var g := LegacyGroups(o, p);
    forall i | 0 <= i < |g.accounts| ensures AccountOk(o, g.accounts[i]) && g.accounts[i].id == p.accounts[i].id {
      assert AccountOk(o, p.accounts[i]);
    }
    var i :| 0 <= i < |p.accounts| && p.accounts[i].id == p.selectedAccountId;
    assert g.accounts[i].id == g.selectedAccountId;
  }

  /** The number of wallets, and the phrase of the first. */
  lemma LegacyShape(o: Oracle, p: Payload)
    requires Legacy(o, p)
    ensures
      var wallets := LegacyGroups(o, p).wallets.value;
      && wallets == FirstWallets(p, RootOf(o, p, 0)) + OwnWallets(o, p, |p.accounts|)
      && 1 <= |wallets| <= |p.accounts|
      && wallets[0].recoveryMnemonic == p.recoveryMnemonic
  {
    var root := RootOf(o, p, 0);
    LegacyClosed(o, p, |p.accounts|);
    if root.Some? {
      var first :| 0 <= first < |p.accounts| && p.accounts[first] == root.value && Belongs(o, p, root.value);
      OwnWalletsCount(o, p, |p.accounts|, first);
    } else {
      OwnWalletsCount(o, p, |p.accounts|, 0);
      OwnWalletsOwned(o, p, |p.accounts|, 0);
    }
  }

  /** The grouped wallets, by position. */
  lemma LegacyAt(o: Oracle, p: Payload, j: nat)
    requires DistinctIds(p.accounts)
    ensures
      var first, own := FirstWallets(p, RootOf(o, p, 0)), OwnWallets(o, p, |p.accounts|);
      && |LegacyGroups(o, p).wallets.value| == |first| + |own|
      && (j < |first| ==> LegacyGroups(o, p).wallets.value[j] == first[j])
      && (j < |own| ==> LegacyGroups(o, p).wallets.value[|first| + j] == own[j])
  {
    LegacyClosed(o, p, |p.accounts|);
    assert LegacyGroups(o, p).wallets.value == Listed(o, p, |p.accounts|);
  }

  lemma OwnAt(o: Oracle, p: Payload, j: nat) returns (k: nat)
    requires j < |OwnWallets(o, p, |p.accounts|)|
    ensures k < |p.accounts| && WalletOf(o, p, k, OwnWallets(o, p, |p.accounts|)[j])
  {
    OwnWalletsOwned(o, p, |p.accounts|, j);
    k :| 0 <= k < |p.accounts| && WalletOf(o, p, k, OwnWallets(o, p, |p.accounts|)[j]);
  }

  /** The account whose own wallet stands behind the phrase's. */
  lemma OwnerAt(o: Oracle, p: Payload, j: nat) returns (k: nat)
    requires DistinctIds(p.accounts) && |FirstWallets(p, RootOf(o, p, 0))| <= j < |LegacyGroups(o, p).wallets.value|
    ensures k < |p.accounts| && WalletOf(o, p, k, LegacyGroups(o, p).wallets.value[j])
  {
    var own := j - |FirstWallets(p, RootOf(o, p, 0))|;
    LegacyAt(o, p, own);
    k := OwnAt(o, p, own);
  }

  lemma LegacyWalletOk(o: Oracle, p: Payload, j: nat)
    requires Legacy(o, p) && j < |LegacyGroups(o, p).wallets.value|
    ensures
      var w := LegacyGroups(o, p).wallets.value[j];
      0 < |w.id| <= MAX_ID && MnemonicOk(o, w.recoveryMnemonic)
  {
    var root := RootOf(o, p, 0);
    if j < |FirstWallets(p, root)| {
      LegacyAt(o, p, j);
      var k :| 0 <= k < |p.accounts| && p.accounts[k] == root.value && Belongs(o, p, root.value);
      assert AccountOk(o, p.accounts[k]);
    } else {
      var k := OwnerAt(o, p, j);
      assert AccountOk(o, p.accounts[k]);
    }
  }

  /** The accounts in a wallet with a phrase are the recoverable ones. */
  lemma PhraseAccounts(o: Oracle, p: Payload, i: nat, j: nat)
    requires Legacy(o, p) && i < |p.accounts|
    requires
      var g := LegacyGroups(o, p);
      j < |g.wallets.value| && g.accounts[i].walletId == Some(g.wallets.value[j].id)
    ensures
      LegacyGroups(o, p).wallets.value[j].recoveryMnemonic
      == if Belongs(o, p, p.accounts[i]) then p.recoveryMnemonic else ""
  {
    var g := LegacyGroups(o, p);
    LegacyWallets(o, p);
    LegacyRecoverable(o, p);
    var mnemonic := if Belongs(o, p, p.accounts[i]) then p.recoveryMnemonic else "";
    assert UnderPhrase(g, i, mnemonic);
    var k :| 0 <= k < |g.wallets.value| && g.accounts[i].walletId == Some(g.wallets.value[k].id)
             && g.wallets.value[k].recoveryMnemonic == mnemonic;
    assert k == j;
  }

  /** The grouped payload, with its wallets renamed. */
  function WithWallets(o: Oracle, p: Payload, wallets: seq<Wallet>): Payload {
    LegacyGroups(o, p).(wallets := Some(wallets))
  }

  lemma ValidSeeds(o: Oracle, p: Payload, wallets: seq<Wallet>)
    requires Legacy(o, p) && SameButNames(LegacyGroups(o, p).wallets.value, wallets)
    requires Valid(o, WithWallets(o, p, wallets))
    ensures SeedsOk(o, p) && NamesFit(o, wallets)
  {
    var g := WithWallets(o, p, wallets);
    forall i | 0 <= i < |p.accounts| && Belongs(o, p, p.accounts[i])
      ensures o.matchesSeed(p.recoveryMnemonic, KeyOf(p.accounts[i]))
    {
      assert HasWallet(wallets, g.accounts[i].walletId.value);
      var j :| 0 <= j < |wallets| && wallets[j].id == g.accounts[i].walletId.value;
      assert wallets[j].(name := "") == LegacyGroups(o, p).wallets.value[j].(name := "");
      PhraseAccounts(o, p, i, j);
      assert WalletOk(o, wallets[j], g.accounts);
      assert KeyOf(g.accounts[i]) == KeyOf(p.accounts[i]);
    }
    forall j | 0 <= j < |wallets| ensures NameFits(o, wallets[j].name) {
      assert WalletOk(o, wallets[j], g.accounts);
    }
  }

  lemma NamedWalletOk(o: Oracle, p: Payload, j: nat, w: Wallet)
    requires Legacy(o, p) && j < |LegacyGroups(o, p).wallets.value| && SeedsOk(o, p) && NameFits(o, w.name)
    requires w.(name := "") == LegacyGroups(o, p).wallets.value[j].(name := "")
    ensures WalletOk(o, w, LegacyGroups(o, p).accounts)
  {
    var g := LegacyGroups(o, p);
    LegacyWalletOk(o, p, j);
    LegacyWallets(o, p);
    assert w.id == g.wallets.value[j].id && w.recoveryMnemonic == g.wallets.value[j].recoveryMnemonic;
    assert HasAccount(g.accounts, g.wallets.value[j].id);
    forall i | 0 <= i < |g.accounts| && w.recoveryMnemonic != "" && g.accounts[i].walletId == Some(w.id)
      ensures o.matchesSeed(w.recoveryMnemonic, KeyOf(g.accounts[i]))
    {
      PhraseAccounts(o, p, i, j);
      assert KeyOf(g.accounts[i]) == KeyOf(p.accounts[i]);
    }
  }

  lemma NamedWalletsOk(o: Oracle, p: Payload, wallets: seq<Wallet>)
    requires Legacy(o, p) && SameButNames(LegacyGroups(o, p).wallets.value, wallets)
    requires SeedsOk(o, p) && NamesFit(o, wallets)
    ensures WalletsOk(o, wallets, LegacyGroups(o, p).accounts) && Assigned(wallets, LegacyGroups(o, p).accounts)
  {
    var g := LegacyGroups(o, p);
    LegacyWallets(o, p);
    SameIds(g.wallets.value, wallets, g.accounts);
    forall j | 0 <= j < |wallets| ensures WalletOk(o, wallets[j], g.accounts) {
      assert NameFits(o, wallets[j].name);
      NamedWalletOk(o, p, j, wallets[j]);
    }
  }

  lemma SameIds(before: seq<Wallet>, after: seq<Wallet>, accounts: seq<Account>)
    requires SameButNames(before, after) && DistinctWallets(before) && Assigned(before, accounts)
    ensures DistinctWallets(after) && Assigned(after, accounts)
  {
    forall j | 0 <= j < |after| ensures after[j].id == before[j].id {
      assert after[j].(name := "") == before[j].(name := "");
    }
    forall i | 0 <= i < |accounts|
      ensures accounts[i].walletId.Some? && HasWallet(after, accounts[i].walletId.value)
    {
      var j :| 0 <= j < |before| && before[j].id == accounts[i].walletId.value;
      assert after[j].id == accounts[i].walletId.value;
    }
  }

  lemma ValidSound(o: Oracle, p: Payload, wallets: seq<Wallet>)
    requires Valid(o, WithWallets(o, p, wallets))
    ensures Sound(o, p)
  {
    var g := WithWallets(o, p, wallets);
    forall i | 0 <= i < |p.accounts| ensures AccountOk(o, p.accounts[i]) && g.accounts[i].id == p.accounts[i].id {
      assert AccountOk(o, g.accounts[i]);
    }
    var i :| 0 <= i < |g.accounts| && g.accounts[i].id == g.selectedAccountId;
    assert p.accounts[i].id == p.selectedAccountId;
  }

  /** A grouped payload, its wallets renamed in any way, is valid exactly when validation finds every
      recoverable account under the phrase and the names fit. */
  lemma LegacyValidExactly(o: Oracle, p: Payload, wallets: seq<Wallet>)
    requires Legacy(o, p) && SameButNames(LegacyGroups(o, p).wallets.value, wallets)
    ensures Valid(o, WithWallets(o, p, wallets)) <==> SeedsOk(o, p) && NamesFit(o, wallets)
  {
    if Valid(o, WithWallets(o, p, wallets)) {
      ValidSeeds(o, p, wallets);
    }
    if SeedsOk(o, p) && NamesFit(o, wallets) {
      NamedWalletsOk(o, p, wallets);
      LegacyAccounts(o, p);
      LegacyShape(o, p);
      assert wallets[0].recoveryMnemonic == wallets[0].(name := "").recoveryMnemonic == p.recoveryMnemonic;
    }
  }

  /** Every wallet but perhaps the one called `id` has a name that fits. */
  ghost predicate OthersFit(o: Oracle, wallets: seq<Wallet>, id: Option<string>) {
    forall j {:trigger NameFits(o, wallets[j].name)} :: 0 <= j < |wallets| && Some(wallets[j].id) != id ==>
      NameFits(o, wallets[j].name)
  }

  /** Only the wallet called `id` may take a blank name from its account. */
  ghost predicate BlankOnly(o: Oracle, p: Payload, id: Option<string>) {
    forall i {:trigger BlankAt(o, p, i)} :: 0 <= i < |p.accounts| && BlankAt(o, p, i) ==> id == Some(p.accounts[i].id)
  }

  lemma OwnBlank(o: Oracle, p: Payload, i: nat) returns (k: nat)
    requires i < |p.accounts| && BlankAt(o, p, i)
    ensures
      var own := OwnWallets(o, p, |p.accounts|);
      k < |own| && own[k].id == p.accounts[i].id && !NameFits(o, own[k].name)
  {
    var own := OwnWallets(o, p, |p.accounts|);
    OwnWalletsHave(o, p, |p.accounts|, i);
    k :| 0 <= k < |own| && WalletOf(o, p, i, own[k]);
  }

  lemma BlankListed(o: Oracle, p: Payload, i: nat) returns (j: nat)
    requires DistinctIds(p.accounts) && i < |p.accounts| && BlankAt(o, p, i)
    ensures
      var wallets := LegacyGroups(o, p).wallets.value;
      j < |wallets| && wallets[j].id == p.accounts[i].id && !NameFits(o, wallets[j].name)
  {
    var k := OwnBlank(o, p, i);
    LegacyAt(o, p, k);
    j := |FirstWallets(p, RootOf(o, p, 0))| + k;
  }

  lemma UnfitBlank(o: Oracle, p: Payload, j: nat) returns (i: nat)
    requires Legacy(o, p) && NamesLawful(o) && j < |LegacyGroups(o, p).wallets.value|
    requires !NameFits(o, LegacyGroups(o, p).wallets.value[j].name)
    ensures i < |p.accounts| && BlankAt(o, p, i) && p.accounts[i].id == LegacyGroups(o, p).wallets.value[j].id
  {
    LegacyAt(o, p, j);
    i := OwnerAt(o, p, j);
    assert AccountOk(o, p.accounts[i]);
  }

  lemma NamesFitExactly(o: Oracle, p: Payload, id: Option<string>)
    requires Legacy(o, p) && NamesLawful(o)
    ensures OthersFit(o, LegacyGroups(o, p).wallets.value, id) <==> BlankOnly(o, p, id)
  {
    var wallets := LegacyGroups(o, p).wallets.value;
    if OthersFit(o, wallets, id) {
      forall i | 0 <= i < |p.accounts| && BlankAt(o, p, i) ensures id == Some(p.accounts[i].id) {
        var j := BlankListed(o, p, i);
      }
    }
    if BlankOnly(o, p, id) {
      forall j | 0 <= j < |wallets| && Some(wallets[j].id) != id ensures NameFits(o, wallets[j].name) {
        if !NameFits(o, wallets[j].name) {
          var i := UnfitBlank(o, p, j);
        }
      }
    }
  }

  // ---------- Results ----------

  /** Grouping gives a payload that is valid once the wallet called `id` has a name that fits. */
  ghost predicate GroupsSoundly(o: Oracle, p: Payload, id: Option<string>) {
    p.wallets.Some? || (Sound(o, p) && SeedsOk(o, p) && BlankOnly(o, p, id))
  }

  /** When what grouping gives is valid: if the phrase, as validation checks it, covers all the accounts
      that grouping puts under it, and no account with a blank name names a wallet. */
  lemma GroupedValidExactly(o: Oracle, p: Payload)
    requires NamesLawful(o) && Grouped(o, p).Success?
    ensures Valid(o, Grouped(o, p).value) <==> GroupsSoundly(o, p, None)
  {
    if p.wallets.None? {
      var wallets := LegacyGroups(o, p).wallets.value;
      assert WithWallets(o, p, wallets) == LegacyGroups(o, p);
      if Valid(o, LegacyGroups(o, p)) {
        ValidSound(o, p, wallets);
      }
      if Sound(o, p) {
        LegacyValidExactly(o, p, wallets);
        NamesFitExactly(o, p, None);
        assert NamesFit(o, wallets) <==> OthersFit(o, wallets, None);
      }
    }
  }

  /** The same after one wallet is given another name. */
  lemma RenamedValidExactly(o: Oracle, p: Payload, at: nat, name: string)
    requires NamesLawful(o) && Grouped(o, p).Success? && Grouped(o, p).value.wallets.Some? && NameFits(o, name)
    requires at < |Grouped(o, p).value.wallets.value|
    ensures
      var g := Grouped(o, p).value;
      var w := g.wallets.value[at];
      Valid(o, g.(wallets := Some(g.wallets.value[at := w.(name := name)]))) <==> GroupsSoundly(o, p, Some(w.id))
  {
    var g := Grouped(o, p).value;
    var wallets, w := g.wallets.value, g.wallets.value[at];
    var renamed := wallets[at := w.(name := name)];
    if p.wallets.Some? {
      RenamedValid(o, g, at, name);
    } else {
      assert WithWallets(o, p, renamed) == g.(wallets := Some(renamed));
      if Valid(o, WithWallets(o, p, renamed)) {
        ValidSound(o, p, renamed);
      }
      if Sound(o, p) {
        LegacyValidExactly(o, p, renamed);
        LegacyWallets(o, p);
        RenamedFit(o, wallets, at, name);
        NamesFitExactly(o, p, Some(w.id));
      }
    }
  }

  lemma RenamedFit(o: Oracle, wallets: seq<Wallet>, at: nat, name: string)
    requires DistinctWallets(wallets) && at < |wallets| && NameFits(o, name)
    ensures NamesFit(o, wallets[at := wallets[at].(name := name)]) <==> OthersFit(o, wallets, Some(wallets[at].id))
  {
    var renamed := wallets[at := wallets[at].(name := name)];
    forall j | 0 <= j < |wallets| && j != at ensures renamed[j] == wallets[j] && wallets[j].id != wallets[at].id {
      assert j < at || at < j;
    }
    if NamesFit(o, renamed) {
      forall j | 0 <= j < |wallets| && wallets[j].id != wallets[at].id ensures NameFits(o, wallets[j].name) {
        assert NameFits(o, renamed[j].name);
      }
    }
    if OthersFit(o, wallets, Some(wallets[at].id)) {
      forall j | 0 <= j < |wallets| ensures NameFits(o, renamed[j].name) {
        assert j != at ==> NameFits(o, wallets[j].name);
      }
    }
  }

  lemma RenamedValid(o: Oracle, g: Payload, i: nat, name: string)
    requires g.wallets.Some? && Valid(o, g) && i < |g.wallets.value| && NameFits(o, name)
    ensures Valid(o, g.(wallets := Some(g.wallets.value[i := g.wallets.value[i].(name := name)])))
  {
    var wallets, renamed := g.wallets.value, g.wallets.value[i := g.wallets.value[i].(name := name)];
    forall j | 0 <= j < |renamed| ensures WalletOk(o, renamed[j], g.accounts) {
      assert WalletOk(o, wallets[j], g.accounts);
    }
    forall k | 0 <= k < |g.accounts| ensures HasWallet(renamed, g.accounts[k].walletId.value) {
      var j :| 0 <= j < |wallets| && wallets[j].id == g.accounts[k].walletId.value;
      assert renamed[j].id == wallets[j].id;
    }
  }

  // ---------- Valid payloads that do not group soundly ----------

  /** Every key is in order; the phrase recovers those grouping `finds` and passes validation for none. */
  function Sample(finds: bool): Oracle {
    Oracle(m => true, k => true, (m, k) => finds, (m, k) => false, s => if s == " " then "" else s, s => s,
           wallets => "Wallet 2")
  }

  function SampleAccount(id: string, name: string): Account {
    Account(id, name, Evm, "0x" + id, id, None, None)
  }

  /** A second account with a blank name. */
  const BLANK_NAME := Payload(None, "", [SampleAccount("a", "First"), SampleAccount("b", " ")], "a")

  /** An account grouping finds under the phrase, with a path under which validation does not. */
  const OTHER_PATH := Payload(None, "seed", [SampleAccount("a", "First").(derivationPath := Some("m/1"))], "a")

  /** The account with the blank name passes validation; the wallet it names does not. */
  lemma BlankNameUnsound()
    ensures Valid(Sample(false), BLANK_NAME) && Grouped(Sample(false), BLANK_NAME).Success?
    ensures !Valid(Sample(false), Grouped(Sample(false), BLANK_NAME).value)
  {
    var o, p := Sample(false), BLANK_NAME;
    assert p.accounts[0].id == p.selectedAccountId;
    assert BlankAt(o, p, 1);
    GroupedValidExactly(o, p);
  }

  lemma OtherPathUnsound()
    ensures Valid(Sample(true), OTHER_PATH) && Grouped(Sample(true), OTHER_PATH).Success?
    ensures !Valid(Sample(true), Grouped(Sample(true), OTHER_PATH).value)
  {
    var o, p := Sample(true), OTHER_PATH;
    assert p.accounts[0].id == p.selectedAccountId;
    assert Belongs(o, p, p.accounts[0]);
    GroupedValidExactly(o, p);
  }
}
