/** Vault payloads: validation and grouping into wallets (apps/extension/src/vault.ts).  Key derivation,
    seeds and mnemonic checksums are parameters. */
module VaultModel {
  import opened Wrappers

  datatype Family = Evm | Solana | Bitcoin | Tron

  datatype Account = Account(
    id: string,
    name: string,
    family: Family,
    address: string,
    privateKey: string,
    derivationPath: Option<string>,
    walletId: Option<string>)

  datatype Wallet = Wallet(id: string, name: string, recoveryMnemonic: string)

  datatype Payload = Payload(
    wallets: Option<seq<Wallet>>,
    recoveryMnemonic: string,
    accounts: seq<Account>,
    selectedAccountId: string)

  datatype Error =
    | InvalidContents | InvalidGroups | Unmatched | NameTaken | NameInvalid | AlreadyImported | UnknownWallet

  /** What the checks of an account's key look at. */
  datatype Key = Key(family: Family, address: string, privateKey: string, derivationPath: Option<string>)

  function KeyOf(a: Account): (key: Key)
    ensures key.family == a.family && key.address == a.address
    ensures key.privateKey == a.privateKey && key.derivationPath == a.derivationPath
  {
    Key(a.family, a.address, a.privateKey, a.derivationPath)
  }

  /** `recoverable(mnemonic, key)`: grouping finds the key under the phrase; `matchesSeed`: validation
      does; `keyOk`: the key belongs to its address and its path is allowed.  `trim` and `lower` are
      the string methods, and `nextName` is the next free wallet name. */
  datatype Oracle = Oracle(
    validMnemonic: string -> bool,
    keyOk: Key -> bool,
    recoverable: (string, Key) -> bool,
    matchesSeed: (string, Key) -> bool,
    trim: string -> string,
    lower: string -> string,
    nextName: seq<Wallet> -> string)

  predicate Blank(o: Oracle, name: string) {
    o.trim(name) == ""
  }

  predicate SameName(o: Oracle, a: string, b: string) {
    o.lower(a) == o.lower(b)
  }

  const MAX_ACCOUNTS := 100
  const MAX_WALLETS := 100
  const MAX_ID := 128
  const MAX_NAME := 80
  const MAX_MNEMONIC := 512

  // ---------- Validity ----------

  predicate MnemonicOk(o: Oracle, mnemonic: string) {
    |mnemonic| <= 512 && (mnemonic == "" || o.validMnemonic(mnemonic))
  }

  predicate AccountOk(o: Oracle, a: Account) {
    0 < |a.id| <= 128 && 0 < |a.name| <= 80 && o.keyOk(KeyOf(a))
  }

  predicate HasAccount(accounts: seq<Account>, walletId: string) {
    exists i :: 0 <= i < |accounts| && accounts[i].walletId == Some(walletId)
  }

  predicate HasWallet(wallets: seq<Wallet>, id: string) {
    exists i :: 0 <= i < |wallets| && wallets[i].id == id
  }

  predicate WalletOk(o: Oracle, w: Wallet, accounts: seq<Account>) {
    && 0 < |w.id| <= 128 && o.trim(w.name) != "" && |w.name| <= 80 && MnemonicOk(o, w.recoveryMnemonic)
    && HasAccount(accounts, w.id)
    && (w.recoveryMnemonic != "" ==>
          forall i :: 0 <= i < |accounts| && accounts[i].walletId == Some(w.id) ==>
            o.matchesSeed(w.recoveryMnemonic, KeyOf(accounts[i])))
  }

  ghost predicate DistinctIds(accounts: seq<Account>) {
    forall i, j :: 0 <= i < j < |accounts| ==> accounts[i].id != accounts[j].id
  }

  ghost predicate DistinctWallets(wallets: seq<Wallet>) {
    forall i, j :: 0 <= i < j < |wallets| ==> wallets[i].id != wallets[j].id
  }

  ghost predicate AccountsOk(o: Oracle, accounts: seq<Account>) {
    DistinctIds(accounts) && forall i :: 0 <= i < |accounts| ==> AccountOk(o, accounts[i])
  }

  ghost predicate WalletsOk(o: Oracle, wallets: seq<Wallet>, accounts: seq<Account>) {
    && DistinctWallets(wallets)
    && (forall i {:trigger WalletOk(o, wallets[i], accounts)} ::
          0 <= i < |wallets| ==> WalletOk(o, wallets[i], accounts))
  }

  /** Every account belongs to one of the wallets. */
  ghost predicate Assigned(wallets: seq<Wallet>, accounts: seq<Account>) {
    forall i :: 0 <= i < |accounts| ==>
      accounts[i].walletId.Some? && HasWallet(wallets, accounts[i].walletId.value)
  }

  /** What `validateVaultPayload` accepts. */
  ghost predicate Valid(o: Oracle, p: Payload) {
    && MnemonicOk(o, p.recoveryMnemonic)
    && 1 <= |p.accounts| <= 100
    && AccountsOk(o, p.accounts)
    && (exists i :: 0 <= i < |p.accounts| && p.accounts[i].id == p.selectedAccountId)
    && (p.wallets.Some? ==>
          && 1 <= |p.wallets.value| <= 100
          && WalletsOk(o, p.wallets.value, p.accounts)
          && Assigned(p.wallets.value, p.accounts)
          && p.recoveryMnemonic == p.wallets.value[0].recoveryMnemonic)
    && (p.wallets.None? ==> forall i :: 0 <= i < |p.accounts| ==> p.accounts[i].walletId.None?)
  }

  method CheckAccounts(o: Oracle, accounts: seq<Account>) returns (ok: bool, ids: set<string>)
    ensures ok <==> AccountsOk(o, accounts)
    ensures ok ==> forall x :: x in ids <==> exists i :: 0 <= i < |accounts| && accounts[i].id == x
  {
    ids := {};
    for i := 0 to |accounts|
      invariant forall x :: x in ids <==> exists k :: 0 <= k < i && accounts[k].id == x
      invariant AccountsOk(o, accounts[..i])
    {
      if accounts[i].id in ids {
        ghost var k :| 0 <= k < i && accounts[k].id == accounts[i].id;
        return false, ids;
      }
      var a := accounts[i];
      if a.id == "" || |a.id| > MAX_ID || a.name == "" || |a.name| > MAX_NAME || !o.keyOk(KeyOf(a)) {
        return false, ids;
      }
      ids := ids + {a.id};
    }
    assert accounts[..|accounts|] == accounts;
    return true, ids;
  }

  method CheckWallets(o: Oracle, wallets: seq<Wallet>, accounts: seq<Account>) returns (ok: bool, ids: set<string>)
    ensures ok <==> WalletsOk(o, wallets, accounts)
    ensures ok ==> forall x :: x in ids <==> exists i :: 0 <= i < |wallets| && wallets[i].id == x
  {
    ids := {};
    for i := 0 to |wallets|
      invariant forall x :: x in ids <==> exists k :: 0 <= k < i && wallets[k].id == x
      invariant WalletsOk(o, wallets[..i], accounts)
    {
      if wallets[i].id in ids {
        ghost var k :| 0 <= k < i && wallets[k].id == wallets[i].id;
        return false, ids;
      }
      var w := wallets[i];
      if || w.id == "" || |w.id| > MAX_ID || Blank(o, w.name) || |w.name| > MAX_NAME
         || |w.recoveryMnemonic| > MAX_MNEMONIC
         || (w.recoveryMnemonic != "" && !o.validMnemonic(w.recoveryMnemonic))
         || forall k :: 0 <= k < |accounts| ==> accounts[k].walletId != Some(w.id)
      {
        assert !WalletOk(o, wallets[i], accounts);
        return false, ids;
      }
      if w.recoveryMnemonic != "" {
        for k := 0 to |accounts|
          invariant forall j :: 0 <= j < k && accounts[j].walletId == Some(w.id) ==>
                      o.matchesSeed(w.recoveryMnemonic, KeyOf(accounts[j]))
        {
          if accounts[k].walletId == Some(w.id) && !o.matchesSeed(w.recoveryMnemonic, KeyOf(accounts[k])) {
            assert !WalletOk(o, wallets[i], accounts);
            return false, ids;
          }
        }
      }
      ids := ids + {w.id};
    }
    assert wallets[..|wallets|] == wallets;
    return true, ids;
  }

  method ValidateVaultPayload(o: Oracle, p: Payload) returns (ok: bool)
    ensures ok <==> Valid(o, p)
  {
    if || |p.recoveryMnemonic| > MAX_MNEMONIC || (p.recoveryMnemonic != "" && !o.validMnemonic(p.recoveryMnemonic))
       || p.accounts == [] || |p.accounts| > MAX_ACCOUNTS
    {
      return false;
    }
    var accountsOk, ids := CheckAccounts(o, p.accounts);
    if !accountsOk || p.selectedAccountId !in ids {
      return false;
    }
    if p.wallets.None? {
      return forall i :: 0 <= i < |p.accounts| ==> p.accounts[i].walletId.None?;
    }
    var wallets := p.wallets.value;
    if wallets == [] || |wallets| > MAX_WALLETS {
      return false;
    }
    var walletsOk, walletIds := CheckWallets(o, wallets, p.accounts);
    if !walletsOk {
      return false;
    }
    ok := (forall i :: 0 <= i < |p.accounts| ==>
             p.accounts[i].walletId.Some? && p.accounts[i].walletId.value in walletIds)
          && p.recoveryMnemonic == wallets[0].recoveryMnemonic;
    assert ok ==> Assigned(wallets, p.accounts);
    assert Assigned(wallets, p.accounts) ==>
             forall i :: 0 <= i < |p.accounts| ==>
               p.accounts[i].walletId.Some? && p.accounts[i].walletId.value in walletIds;
  }

  // ---------- Grouping ----------

  function Belongs(o: Oracle, p: Payload, a: Account): bool {
    p.recoveryMnemonic != "" && o.recoverable(p.recoveryMnemonic, KeyOf(a))
  }

  /** The first account the recorded phrase recovers. */
  function RootOf(o: Oracle, p: Payload, i: nat): (r: Option<Account>)
    requires i <= |p.accounts|
    ensures r.None? <==> forall k :: i <= k < |p.accounts| ==> !Belongs(o, p, p.accounts[k])
    ensures r.Some? ==> exists k :: i <= k < |p.accounts| && p.accounts[k] == r.value && Belongs(o, p, r.value)
    decreases |p.accounts| - i
  {
    if i == |p.accounts| then None
    else if Belongs(o, p, p.accounts[i]) then Some(p.accounts[i])
    else RootOf(o, p, i + 1)
  }

  /** The account with its wallet: the root's for recoverable accounts, its own otherwise. */
  function Regrouped(o: Oracle, p: Payload, root: Option<Account>, a: Account): Account {
    a.(walletId := Some(if root.Some? && Belongs(o, p, a) then root.value.id else a.id))
  }

  /** The loop that gives each remaining account a wallet of its own. */
  function AddWallets(accounts: seq<Account>, n: nat, hasRoot: bool, start: seq<Wallet>): seq<Wallet>
    requires n <= |accounts| && forall i :: 0 <= i < n ==> accounts[i].walletId.Some?
  {
    if n == 0 then start
    else
      var before, a := AddWallets(accounts, n - 1, hasRoot, start), accounts[n - 1];
      if HasWallet(before, a.walletId.value) then before
      else before + [Wallet(a.walletId.value, if hasRoot || before != [] then a.name else "Wallet 1", "")]
  }

  function RegroupedAll(o: Oracle, p: Payload, root: Option<Account>): (r: seq<Account>)
    ensures |r| == |p.accounts| && forall i :: 0 <= i < |r| ==> r[i] == Regrouped(o, p, root, p.accounts[i])
  {
    seq(|p.accounts|, i requires 0 <= i < |p.accounts| => Regrouped(o, p, root, p.accounts[i]))
  }

  function FirstWallets(p: Payload, root: Option<Account>): seq<Wallet> {
    if root.Some? then [Wallet(root.value.id, "Wallet 1", p.recoveryMnemonic)] else []
  }

  /** The grouped form of a legacy payload. */
  function LegacyGroups(o: Oracle, p: Payload): Payload {
    var root := RootOf(o, p, 0);
    var accounts := RegroupedAll(o, p, root);
    p.(wallets := Some(AddWallets(accounts, |accounts|, root.Some?, FirstWallets(p, root))), accounts := accounts)
  }

  ghost function Grouped(o: Oracle, p: Payload): Result<Payload, Error> {
    if p.wallets.Some? then
      if Valid(o, p) then Success(p) else Failure(InvalidContents)
    else if p.recoveryMnemonic != "" && RootOf(o, p, 0).None? then Failure(Unmatched)
    else Success(LegacyGroups(o, p))
  }

  method GroupedVault(o: Oracle, p: Payload) returns (r: Result<Payload, Error>)
    ensures r == Grouped(o, p)
  {
    if p.wallets.Some? {
      var ok := ValidateVaultPayload(o, p);
      return if ok then Success(p) else Failure(InvalidContents);
    }
    var root := RootOf(o, p, 0);
    var accounts := RegroupedAll(o, p, root);
    var wallets := FirstWallets(p, root);
    for n := 0 to |accounts|
      invariant wallets == AddWallets(accounts, n, root.Some?, FirstWallets(p, root))
    {
      var id := accounts[n].walletId.value;
      if !HasWallet(wallets, id) {
        wallets := wallets + [Wallet(id, if root.Some? || wallets != [] then accounts[n].name else "Wallet 1", "")];
      }
    }
    if p.recoveryMnemonic != "" && root.None? {
      return Failure(Unmatched);
    }
    return Success(p.(wallets := Some(wallets), accounts := accounts));
  }

  ghost predicate NonEmpty(wallets: seq<Wallet>, accounts: seq<Account>) {
    forall j :: 0 <= j < |wallets| ==> HasAccount(accounts, wallets[j].id)
  }

  /** Non-empty wallets with distinct ids that together hold every account. */
  ghost predicate Partitioned(wallets: seq<Wallet>, accounts: seq<Account>) {
    DistinctWallets(wallets) && Assigned(wallets, accounts) && NonEmpty(wallets, accounts)
  }

  lemma HasWalletGrows(wallets: seq<Wallet>, w: Wallet, id: string)
    ensures HasWallet(wallets + [w], id) <==> HasWallet(wallets, id) || w.id == id
  {
    if HasWallet(wallets, id) {
      var i :| 0 <= i < |wallets| && wallets[i].id == id;
      assert (wallets + [w])[i] == wallets[i];
    }
    assert (wallets + [w])[|wallets|] == w;
  }

  lemma {:induction false} AddWalletsExact(accounts: seq<Account>, n: nat, hasRoot: bool, start: seq<Wallet>)
    requires n <= |accounts| && forall i :: 0 <= i < |accounts| ==> accounts[i].walletId.Some?
    requires DistinctWallets(start) && NonEmpty(start, accounts)
    ensures
      var r := AddWallets(accounts, n, hasRoot, start);
      && DistinctWallets(r) && NonEmpty(r, accounts)
      && |start| <= |r| && r[..|start|] == start
      && (forall i :: 0 <= i < n ==> HasWallet(r, accounts[i].walletId.value))
      && (forall j :: |start| <= j < |r| ==> r[j].recoveryMnemonic == "")
  {
    if n > 0 {
      AddWalletsExact(accounts, n - 1, hasRoot, start);
      var before, r := AddWallets(accounts, n - 1, hasRoot, start), AddWallets(accounts, n, hasRoot, start);
      if !HasWallet(before, accounts[n - 1].walletId.value) {
        var w := AddWalletsStep(accounts, n, hasRoot, start);
        NewWallet(accounts, before, w, n - 1);
        KeepsStart(before, w, start);
      }
    }
  }

  lemma KeepsStart(before: seq<Wallet>, w: Wallet, start: seq<Wallet>)
    requires |start| <= |before| && before[..|start|] == start && w.recoveryMnemonic == ""
    requires forall j :: |start| <= j < |before| ==> before[j].recoveryMnemonic == ""
    ensures (before + [w])[..|start|] == start
    ensures forall j :: |start| <= j < |before + [w]| ==> (before + [w])[j].recoveryMnemonic == ""
  {
  }

  lemma AddWalletsStep(accounts: seq<Account>, n: nat, hasRoot: bool, start: seq<Wallet>) returns (w: Wallet)
    requires 0 < n <= |accounts| && forall i :: 0 <= i < n ==> accounts[i].walletId.Some?
    requires !HasWallet(AddWallets(accounts, n - 1, hasRoot, start), accounts[n - 1].walletId.value)
    ensures AddWallets(accounts, n, hasRoot, start) == AddWallets(accounts, n - 1, hasRoot, start) + [w]
    ensures w.id == accounts[n - 1].walletId.value && w.recoveryMnemonic == ""
  {
    w := AddWallets(accounts, n, hasRoot, start)[|AddWallets(accounts, n - 1, hasRoot, start)|];
  }

  lemma NewWallet(accounts: seq<Account>, before: seq<Wallet>, w: Wallet, n: nat)
    requires n < |accounts| && forall i :: 0 <= i < |accounts| ==> accounts[i].walletId.Some?
    requires accounts[n].walletId == Some(w.id) && !HasWallet(before, w.id)
    requires DistinctWallets(before) && NonEmpty(before, accounts)
    requires forall i :: 0 <= i < n ==> HasWallet(before, accounts[i].walletId.value)
    ensures DistinctWallets(before + [w]) && NonEmpty(before + [w], accounts)
    ensures forall i :: 0 <= i < n + 1 ==> HasWallet(before + [w], accounts[i].walletId.value)
  {
    var r := before + [w];
    forall i, j | 0 <= i < j < |r| ensures r[i].id != r[j].id {
      assert r[i] == before[i];
    }
    assert HasAccount(accounts, w.id);
    forall i | 0 <= i < n + 1 ensures HasWallet(r, accounts[i].walletId.value) {
      HasWalletGrows(before, w, accounts[i].walletId.value);
    }
  }

  /** Account `i` is shown under this recovery phrase. */
  ghost predicate UnderPhrase(g: Payload, i: nat, mnemonic: string)
    requires g.wallets.Some? && i < |g.accounts|
  {
    exists j :: 0 <= j < |g.wallets.value| && g.accounts[i].walletId == Some(g.wallets.value[j].id)
      && g.wallets.value[j].recoveryMnemonic == mnemonic
  }

  /** The accounts the phrase recovers, and no others, are shown under it; the rest under none. */
  ghost predicate RecoverableExactly(o: Oracle, p: Payload, g: Payload)
    requires g.wallets.Some? && |g.accounts| == |p.accounts|
  {
    forall i :: 0 <= i < |p.accounts| ==>
      UnderPhrase(g, i, if Belongs(o, p, p.accounts[i]) then p.recoveryMnemonic else "")
  }

  /** Grouping keeps every account but for its wallet, partitions them into non-empty wallets, and puts
      exactly the recoverable accounts under the recovery phrase. */
  lemma GroupingExact(o: Oracle, p: Payload)
    requires Valid(o, p) && Grouped(o, p).Success?
    ensures
      var g := Grouped(o, p).value;
      && g.wallets.Some? && Partitioned(g.wallets.value, g.accounts)
      && |g.accounts| == |p.accounts|
      && (forall i :: 0 <= i < |p.accounts| ==> g.accounts[i] == p.accounts[i].(walletId := g.accounts[i].walletId))
      && (p.wallets.Some? ==> g == p)
      && (p.wallets.None? ==> RecoverableExactly(o, p, g))
  {
    if p.wallets.Some? {
      ValidPartitioned(o, p);
    } else {
      LegacyPartitioned(o, p);
      LegacyRecoverable(o, p);
    }
  }

  lemma ValidPartitioned(o: Oracle, p: Payload)
    requires Valid(o, p) && p.wallets.Some?
    ensures Partitioned(p.wallets.value, p.accounts)
  {
    forall j | 0 <= j < |p.wallets.value| ensures HasAccount(p.accounts, p.wallets.value[j].id) {
      assert WalletOk(o, p.wallets.value[j], p.accounts);
    }
  }

  lemma LegacyWallets(o: Oracle, p: Payload)
    ensures
      var root := RootOf(o, p, 0);
      var g := LegacyGroups(o, p);
      var start := FirstWallets(p, root);
      && Partitioned(g.wallets.value, g.accounts)
      && |start| <= |g.wallets.value| && g.wallets.value[..|start|] == start
      && (forall j :: |start| <= j < |g.wallets.value| ==> g.wallets.value[j].recoveryMnemonic == "")
  {
    var root := RootOf(o, p, 0);
    var accounts := RegroupedAll(o, p, root);
    var start := FirstWallets(p, root);
    if root.Some? {
      var k :| 0 <= k < |p.accounts| && p.accounts[k] == root.value && Belongs(o, p, root.value);
      assert accounts[k].walletId == Some(start[0].id);
      assert HasAccount(accounts, start[0].id);
    }
    AddWalletsExact(accounts, |accounts|, root.Some?, start);
  }

  lemma LegacyPartitioned(o: Oracle, p: Payload)
    ensures var g := LegacyGroups(o, p); Partitioned(g.wallets.value, g.accounts)
  {
    LegacyWallets(o, p);
  }

  lemma LegacyRecoverable(o: Oracle, p: Payload)
    requires DistinctIds(p.accounts) && (p.recoveryMnemonic != "" ==> RootOf(o, p, 0).Some?)
    ensures RecoverableExactly(o, p, LegacyGroups(o, p))
  {
    var root := RootOf(o, p, 0);
    var g := LegacyGroups(o, p);
    var start, wallets := FirstWallets(p, root), g.wallets.value;
    LegacyWallets(o, p);
    forall i | 0 <= i < |p.accounts|
      ensures UnderPhrase(g, i, if Belongs(o, p, p.accounts[i]) then p.recoveryMnemonic else "")
    {
      if Belongs(o, p, p.accounts[i]) {
        assert wallets[0] == wallets[..|start|][0] == start[0];
      } else {
        assert HasWallet(wallets, g.accounts[i].walletId.value);
        var j :| 0 <= j < |wallets| && wallets[j].id == g.accounts[i].walletId.value;
        OwnWallet(o, p, i, j);
      }
    }
  }

  /** An account that is not recoverable has a wallet other than the root's. */
  lemma OwnWallet(o: Oracle, p: Payload, i: nat, j: nat)
    requires DistinctIds(p.accounts) && i < |p.accounts| && !Belongs(o, p, p.accounts[i])
    requires
      var wallets := LegacyGroups(o, p).wallets.value;
      j < |wallets| && wallets[j].id == p.accounts[i].id
    ensures LegacyGroups(o, p).wallets.value[j].recoveryMnemonic == ""
  {
    LegacyWallets(o, p);
    RootIsAnother(o, p, i);
    var start, wallets := FirstWallets(p, RootOf(o, p, 0)), LegacyGroups(o, p).wallets.value;
    assert forall k :: 0 <= k < |start| ==> wallets[k] == wallets[..|start|][k];
  }

  lemma RootIsAnother(o: Oracle, p: Payload, i: nat)
    requires DistinctIds(p.accounts) && i < |p.accounts| && !Belongs(o, p, p.accounts[i])
    ensures RootOf(o, p, 0).Some? ==> RootOf(o, p, 0).value.id != p.accounts[i].id
  {
    var root := RootOf(o, p, 0);
    if root.Some? {
      var k :| 0 <= k < |p.accounts| && p.accounts[k] == root.value && Belongs(o, p, root.value);
      assert k != i;
    }
  }
}
