/** The loop of `mergeVaultAccounts` (apps/extension/src/vault.ts) over the wallets of an import. */
module VaultMerge {
  import opened Wrappers
  import opened VaultModel

  /** The n-th `crypto.randomUUID()` of a call; assumed fresh and distinct. */
  type Ids = nat -> string

  ghost predicate Apart(uuid: Ids, i: nat, j: nat) {
    i != j ==> uuid(i) != uuid(j)
  }

  ghost predicate AllApart(uuid: Ids) {
    forall i, j :: Apart(uuid, i, j)
  }

  ghost predicate FreshIds(uuid: Ids, accounts: seq<Account>, wallets: seq<Wallet>) {
    && AllApart(uuid)
    && (forall i, k :: 0 <= k < |accounts| ==> uuid(i) != accounts[k].id && accounts[k].walletId != Some(uuid(i)))
    && (forall i, k :: 0 <= k < |wallets| ==> wallets[k].id != uuid(i))
  }

  /** The first wallet with this recovery phrase. */
  function KnownRoot(wallets: seq<Wallet>, mnemonic: string): (r: Option<string>)
    ensures r.Some? <==> mnemonic != "" && exists i :: 0 <= i < |wallets| && wallets[i].recoveryMnemonic == mnemonic
    ensures r.Some? ==>
              exists i :: 0 <= i < |wallets| && wallets[i].id == r.value && wallets[i].recoveryMnemonic == mnemonic
                       && forall j :: 0 <= j < i ==> wallets[j].recoveryMnemonic != mnemonic
  {
    if mnemonic == "" || wallets == [] then None
    else if wallets[0].recoveryMnemonic == mnemonic then Some(wallets[0].id)
    else
      var rest := KnownRoot(wallets[1..], mnemonic);
      assert forall i :: 1 <= i < |wallets| ==> wallets[i] == wallets[1..][i - 1];
      rest
  }

  predicate SameKey(a: Account, b: Account) {
    a.family == b.family && a.address == b.address
  }

  /** Already there: anywhere for independent keys, in the phrase's own wallet otherwise. */
  predicate Present(accounts: seq<Account>, a: Account, mnemonic: string, walletId: string) {
    exists i :: 0 <= i < |accounts| && SameKey(accounts[i], a)
      && (mnemonic == "" || accounts[i].walletId == Some(walletId))
  }

  /** `b` is source account `a` under a new id, in another wallet. */
  ghost predicate CopyOf(b: Account, a: Account) {
    b == a.(id := b.id, walletId := b.walletId)
  }

  /** What the additions of a wallet are, once the first `i` source accounts have been looked at. */
  ghost predicate AddedSoFar(accounts: seq<Account>, source: seq<Account>, i: nat, w: Wallet, walletId: string,
                             uuid: Ids, n: nat, r: seq<Account>)
    requires i <= |source|
  {
    && (forall k :: 0 <= k < |r| ==> r[k].id == uuid(n + k) && r[k].walletId == Some(walletId))
    && (forall k {:trigger AddedFrom(accounts, source[..i], w, walletId, r[k])} ::
          0 <= k < |r| ==> AddedFrom(accounts, source[..i], w, walletId, r[k]))
    && AllHandled(accounts, r, source, i, w, walletId)
    && (NoDuplicates(source) ==> NoDuplicates(r))
  }

  /** If it belongs to `w`, the account is there already or among the additions. */
  ghost predicate Handled(accounts: seq<Account>, r: seq<Account>, a: Account, w: Wallet, walletId: string) {
    a.walletId == Some(w.id) ==> Present(accounts, a, w.recoveryMnemonic, walletId) || HasKey(r, a)
  }

  ghost predicate AllHandled(accounts: seq<Account>, r: seq<Account>, source: seq<Account>, i: nat, w: Wallet,
                             walletId: string)
    requires i <= |source|
  {
    forall j {:trigger Handled(accounts, r, source[j], w, walletId)} :: 0 <= j < i ==>
      Handled(accounts, r, source[j], w, walletId)
  }

  lemma SkipAccount(accounts: seq<Account>, source: seq<Account>, i: nat, w: Wallet, walletId: string,
                    uuid: Ids, n: nat, r: seq<Account>)
    requires i < |source| && AddedSoFar(accounts, source, i, w, walletId, uuid, n, r)
    requires source[i].walletId != Some(w.id) || Present(accounts, source[i], w.recoveryMnemonic, walletId)
    ensures AddedSoFar(accounts, source, i + 1, w, walletId, uuid, n, r)
  {
    assert source[..i + 1] == source[..i] + [source[i]];
    forall k | 0 <= k < |r| ensures AddedFrom(accounts, source[..i + 1], w, walletId, r[k]) {
      AddedFromMore(accounts, source[..i], source[i], w, walletId, r[k]);
    }
    forall j | 0 <= j < i + 1 ensures Handled(accounts, r, source[j], w, walletId) {
      if j < i { assert Handled(accounts, r, source[j], w, walletId); }
    }
  }

  lemma AddedKeysDiffer(accounts: seq<Account>, source: seq<Account>, i: nat, w: Wallet, walletId: string,
                        uuid: Ids, n: nat, r: seq<Account>, k: nat)
    requires i < |source| && AddedSoFar(accounts, source, i, w, walletId, uuid, n, r)
    requires NoDuplicates(source) && source[i].walletId == Some(w.id) && k < |r|
    ensures !SameKey(r[k], source[i])
  {
    assert AddedFrom(accounts, source[..i], w, walletId, r[k]);
    var j :| 0 <= j < |source[..i]| && source[..i][j].walletId == Some(w.id) && CopyOf(r[k], source[..i][j]);
    assert source[..i][j] == source[j];
    assert Differ(source[j], source[i]);
  }

  lemma TakenIsAdded(accounts: seq<Account>, source: seq<Account>, i: nat, w: Wallet, walletId: string, b: Account)
    requires i < |source| && source[i].walletId == Some(w.id)
    requires !Present(accounts, source[i], w.recoveryMnemonic, walletId) && CopyOf(b, source[i])
    ensures AddedFrom(accounts, source[..i + 1], w, walletId, b)
  {
    SamePresence(accounts, source[i], b, w.recoveryMnemonic, walletId);
    assert source[..i + 1][i] == source[i];
  }

  lemma NoDuplicatesSnoc(r: seq<Account>, b: Account)
    requires NoDuplicates(r) && forall k :: 0 <= k < |r| ==> !SameKey(r[k], b)
    ensures NoDuplicates(r + [b])
  {
  }

  lemma HandledMore(accounts: seq<Account>, source: seq<Account>, i: nat, w: Wallet, walletId: string,
                    r: seq<Account>, b: Account)
    requires i < |source| && AllHandled(accounts, r, source, i, w, walletId) && SameKey(b, source[i])
    ensures AllHandled(accounts, r + [b], source, i + 1, w, walletId)
  {
    HasKeyGrows(r, b);
    forall j | 0 <= j < i + 1 ensures Handled(accounts, r + [b], source[j], w, walletId) {
      if j < i {
        assert Handled(accounts, r, source[j], w, walletId);
      } else {
        assert SameKey((r + [b])[|r|], source[i]);
      }
    }
  }

  lemma TakeAccount(accounts: seq<Account>, source: seq<Account>, i: nat, w: Wallet, walletId: string,
                    uuid: Ids, n: nat, r: seq<Account>, b: Account)
    requires i < |source| && AddedSoFar(accounts, source, i, w, walletId, uuid, n, r)
    requires source[i].walletId == Some(w.id) && !Present(accounts, source[i], w.recoveryMnemonic, walletId)
    requires b == source[i].(id := uuid(n + |r|), walletId := Some(walletId))
    ensures AddedSoFar(accounts, source, i + 1, w, walletId, uuid, n, r + [b])
  {
    var longer := r + [b];
    TakenIsAdded(accounts, source, i, w, walletId, b);
    forall k | 0 <= k < |longer| ensures AddedFrom(accounts, source[..i + 1], w, walletId, longer[k]) {
      if k < |r| {
        assert source[..i + 1] == source[..i] + [source[i]];
        AddedFromMore(accounts, source[..i], source[i], w, walletId, r[k]);
      }
    }
    HandledMore(accounts, source, i, w, walletId, r, b);
    if NoDuplicates(source) {
      forall k | 0 <= k < |r| ensures !SameKey(r[k], b) {
        AddedKeysDiffer(accounts, source, i, w, walletId, uuid, n, r, k);
      }
      NoDuplicatesSnoc(r, b);
    }
  }

  predicate Missing(accounts: seq<Account>, a: Account, w: Wallet, walletId: string) {
    a.walletId == Some(w.id) && !Present(accounts, a, w.recoveryMnemonic, walletId)
  }

  function AddIfMissing(accounts: seq<Account>, a: Account, w: Wallet, walletId: string, uuid: Ids, n: nat,
                        before: seq<Account>): seq<Account>
  {
    if Missing(accounts, a, w, walletId) then before + [a.(id := uuid(n + |before|), walletId := Some(walletId))]
    else before
  }

  /** The missing accounts of a wallet among the first `i`, in order, each under the next new id. */
  function AdditionsOf(accounts: seq<Account>, source: seq<Account>, i: nat, w: Wallet, walletId: string,
                       uuid: Ids, n: nat): seq<Account>
    requires i <= |source|
  {
    if i == 0 then []
    else
      AddIfMissing(accounts, source[i - 1], w, walletId, uuid, n,
                   AdditionsOf(accounts, source, i - 1, w, walletId, uuid, n))
  }

  lemma AddedNext(accounts: seq<Account>, source: seq<Account>, i: nat, w: Wallet, walletId: string, uuid: Ids, n: nat,
                  before: seq<Account>, r: seq<Account>)
    requires 0 < i <= |source| && AddedSoFar(accounts, source, i - 1, w, walletId, uuid, n, before)
    requires r == AddIfMissing(accounts, source[i - 1], w, walletId, uuid, n, before)
    ensures AddedSoFar(accounts, source, i, w, walletId, uuid, n, r)
  {
    if Missing(accounts, source[i - 1], w, walletId) {
      var b := source[i - 1].(id := uuid(n + |before|), walletId := Some(walletId));
      TakeAccount(accounts, source, i - 1, w, walletId, uuid, n, before, b);
    } else {
      SkipAccount(accounts, source, i - 1, w, walletId, uuid, n, before);
    }
  }

  lemma {:induction false} AdditionsExact(accounts: seq<Account>, source: seq<Account>, i: nat, w: Wallet,
                                          walletId: string, uuid: Ids, n: nat)
    returns (r: seq<Account>)
    requires i <= |source|
    ensures r == AdditionsOf(accounts, source, i, w, walletId, uuid, n)
    ensures AddedSoFar(accounts, source, i, w, walletId, uuid, n, r)
  {
    if i == 0 {
      r := [];
    } else {
      var before := AdditionsExact(accounts, source, i - 1, w, walletId, uuid, n);
      r := AddIfMissing(accounts, source[i - 1], w, walletId, uuid, n, before);
      AddedNext(accounts, source, i, w, walletId, uuid, n, before, r);
    }
  }

  method Additions(accounts: seq<Account>, source: seq<Account>, w: Wallet, walletId: string, uuid: Ids, n: nat)
    returns (r: seq<Account>)
    ensures r == AdditionsOf(accounts, source, |source|, w, walletId, uuid, n)
  {
    r := [];
    for i := 0 to |source|
      invariant r == AdditionsOf(accounts, source, i, w, walletId, uuid, n)
    {
      if Missing(accounts, source[i], w, walletId) {
        r := r + [source[i].(id := uuid(n + |r|), walletId := Some(walletId))];
      }
    }
  }

  predicate HasKey(accounts: seq<Account>, a: Account) {
    exists k :: 0 <= k < |accounts| && SameKey(accounts[k], a)
  }

  lemma HasKeyGrows(accounts: seq<Account>, b: Account)
    ensures forall a :: HasKey(accounts, a) ==> HasKey(accounts + [b], a)
    ensures HasKey(accounts + [b], b)
  {
    forall a | HasKey(accounts, a) ensures HasKey(accounts + [b], a) {
      var k :| 0 <= k < |accounts| && SameKey(accounts[k], a);
      assert (accounts + [b])[k] == accounts[k];
    }
    assert (accounts + [b])[|accounts|] == b;
  }

  ghost predicate AddedFrom(accounts: seq<Account>, source: seq<Account>, w: Wallet, walletId: string, b: Account) {
    && !Present(accounts, b, w.recoveryMnemonic, walletId)
    && exists j :: 0 <= j < |source| && source[j].walletId == Some(w.id) && CopyOf(b, source[j])
  }

  lemma AddedFromMore(accounts: seq<Account>, source: seq<Account>, a: Account, w: Wallet, walletId: string, b: Account)
    requires AddedFrom(accounts, source, w, walletId, b)
    ensures AddedFrom(accounts, source + [a], w, walletId, b)
  {
    var j :| 0 <= j < |source| && source[j].walletId == Some(w.id) && CopyOf(b, source[j]);
    assert (source + [a])[j] == source[j];
  }

  /** No wallet holds the same key twice. */
  ghost predicate NoDuplicates(accounts: seq<Account>) {
    forall i, j {:trigger Differ(accounts[i], accounts[j])} ::
      0 <= i < j < |accounts| ==> Differ(accounts[i], accounts[j])
  }

  ghost predicate Differ(a: Account, b: Account) {
    !(a.walletId == b.walletId && SameKey(a, b))
  }

  // ---------- What a merge does ----------

  /** Everything of wallet `w` is in the vault: a merge would add nothing for it. */
  ghost predicate Covered(wallets: seq<Wallet>, accounts: seq<Account>, source: seq<Account>, w: Wallet) {
    forall i :: 0 <= i < |source| && source[i].walletId == Some(w.id) ==> Has(wallets, accounts, source[i], w)
  }

  /** An account of source wallet `w` is there: an independent key in any wallet, a recoverable one in
      the wallet of its phrase. */
  ghost predicate Has(wallets: seq<Wallet>, accounts: seq<Account>, a: Account, w: Wallet) {
    if w.recoveryMnemonic == "" then HasIn(accounts, a, None)
    else
      var root := KnownRoot(wallets, w.recoveryMnemonic);
      root.Some? && HasIn(accounts, a, root)
  }

  /** There is an account of this family and address, in this wallet if one is given. */
  ghost predicate HasIn(accounts: seq<Account>, a: Account, walletId: Option<string>) {
    exists i :: 0 <= i < |accounts| && accounts[i].family == a.family && accounts[i].address == a.address
      && (walletId.Some? ==> accounts[i].walletId == walletId)
  }

  ghost predicate AllCovered(wallets: seq<Wallet>, accounts: seq<Account>, source: Payload, n: nat)
    requires source.wallets.Some? && n <= |source.wallets.value|
  {
    forall k {:trigger Covered(wallets, accounts, source.accounts, source.wallets.value[k])} ::
      0 <= k < n ==> Covered(wallets, accounts, source.accounts, source.wallets.value[k])
  }

  /** The vault after merging: the old one, unchanged, and new copies of source accounts behind it. */
  ghost predicate Extends(base: Payload, wallets: seq<Wallet>, accounts: seq<Account>, source: Payload, uuid: Ids,
                          n: nat)
    requires base.wallets.Some?
  {
    && |base.wallets.value| <= |wallets| && wallets[..|base.wallets.value|] == base.wallets.value
    && |base.accounts| <= |accounts| && accounts[..|base.accounts|] == base.accounts
    && NewAccounts(accounts, |base.accounts|, source, uuid, n)
    && NewWallets(wallets, |base.wallets.value|, uuid, n)
    && Assigned(wallets, accounts)
  }

  /** From `start` on, every account is a copy of a source account, under its own drawn id. */
  ghost predicate NewAccounts(accounts: seq<Account>, start: nat, source: Payload, uuid: Ids, n: nat) {
    && (forall i {:trigger NewAccount(accounts[i], source, uuid, n)} ::
          start <= i < |accounts| ==> NewAccount(accounts[i], source, uuid, n))
    && (forall i, j :: start <= i < j < |accounts| ==> accounts[i].id != accounts[j].id)
  }

  ghost predicate NewWallets(wallets: seq<Wallet>, start: nat, uuid: Ids, n: nat) {
    && (forall i {:trigger Drawn(wallets[i].id, uuid, n)} ::
          start <= i < |wallets| ==> Drawn(wallets[i].id, uuid, n))
    && (forall i, j :: start <= i < j < |wallets| ==> wallets[i].id != wallets[j].id)
  }

  /** Every wallet from `start` on holds some account. */
  ghost predicate NewInUse(wallets: seq<Wallet>, start: nat, accounts: seq<Account>) {
    forall i {:trigger HasAccount(accounts, wallets[i].id)} ::
      start <= i < |wallets| ==> HasAccount(accounts, wallets[i].id)
  }

  lemma InUseGrows(wallets: seq<Wallet>, start: nat, accounts: seq<Account>, extra: seq<Wallet>, more: seq<Account>)
    requires start <= |wallets| && NewInUse(wallets, start, accounts) && more != []
    requires forall i :: 0 <= i < |extra| ==> more[0].walletId == Some(extra[i].id)
    ensures NewInUse(wallets + extra, start, accounts + more)
  {
    var all := accounts + more;
    forall i | start <= i < |wallets + extra| ensures HasAccount(all, (wallets + extra)[i].id) {
      if i < |wallets| {
        assert HasAccount(accounts, wallets[i].id);
        var k :| 0 <= k < |accounts| && accounts[k].walletId == Some(wallets[i].id);
        assert all[k] == accounts[k];
      } else {
        assert all[|accounts|] == more[0];
      }
    }
  }

  ghost predicate Drawn(id: string, uuid: Ids, n: nat) {
    exists k :: 0 <= k < n && id == uuid(k)
  }

  ghost predicate NewAccount(b: Account, source: Payload, uuid: Ids, n: nat) {
    && Drawn(b.id, uuid, n)
    && (exists j :: 0 <= j < |source.accounts| && CopyOf(b, source.accounts[j]))
  }

  /** A copy sits under the recovery phrase (or the lack of one) its original sits under. */
  ghost predicate Placed(wallets: seq<Wallet>, b: Account, source: Payload)
    requires source.wallets.Some?
  {
    exists j, k :: 0 <= j < |source.accounts| && 0 <= k < |source.wallets.value|
      && CopyOf(b, source.accounts[j]) && source.accounts[j].walletId == Some(source.wallets.value[k].id)
      && Holds(wallets, b.walletId, source.wallets.value[k].recoveryMnemonic)
  }

  ghost predicate Holds(wallets: seq<Wallet>, walletId: Option<string>, mnemonic: string) {
    exists l :: 0 <= l < |wallets| && walletId == Some(wallets[l].id) && wallets[l].recoveryMnemonic == mnemonic
  }

  ghost predicate AllPlaced(wallets: seq<Wallet>, accounts: seq<Account>, start: nat, source: Payload)
    requires source.wallets.Some?
  {
    forall i {:trigger Placed(wallets, accounts[i], source)} ::
      start <= i < |accounts| ==> Placed(wallets, accounts[i], source)
  }

  lemma PlacedGrows(wallets: seq<Wallet>, extra: seq<Wallet>, b: Account, source: Payload)
    requires source.wallets.Some? && Placed(wallets, b, source)
    ensures Placed(wallets + extra, b, source)
  {
    var j, k :| 0 <= j < |source.accounts| && 0 <= k < |source.wallets.value|
      && CopyOf(b, source.accounts[j]) && source.accounts[j].walletId == Some(source.wallets.value[k].id)
      && Holds(wallets, b.walletId, source.wallets.value[k].recoveryMnemonic);
    var l :| 0 <= l < |wallets| && b.walletId == Some(wallets[l].id)
      && wallets[l].recoveryMnemonic == source.wallets.value[k].recoveryMnemonic;
    assert (wallets + extra)[l] == wallets[l];
  }

  lemma AdditionsPlaced(source: Payload, k: nat, s: Merging, start: nat, extra: seq<Wallet>, more: seq<Account>,
                        walletId: string)
    requires source.wallets.Some? && k < |source.wallets.value| && start <= |s.accounts|
    requires AllPlaced(s.wallets, s.accounts, start, source)
    requires Holds(s.wallets + extra, Some(walletId), source.wallets.value[k].recoveryMnemonic)
    requires forall i :: 0 <= i < |more| ==>
               && more[i].walletId == Some(walletId)
               && AddedFrom(s.accounts, source.accounts, source.wallets.value[k], walletId, more[i])
    ensures AllPlaced(s.wallets + extra, s.accounts + more, start, source)
  {
    var all := s.accounts + more;
    forall i | start <= i < |all| ensures Placed(s.wallets + extra, all[i], source) {
      if i < |s.accounts| {
        PlacedGrows(s.wallets, extra, s.accounts[i], source);
      } else {
        assert all[i] == more[i - |s.accounts|];
        assert AddedFrom(s.accounts, source.accounts, source.wallets.value[k], walletId, more[i - |s.accounts|]);
      }
    }
  }

  lemma KnownRootStable(wallets: seq<Wallet>, w: Wallet, mnemonic: string)
    ensures KnownRoot(wallets, mnemonic).Some? ==> KnownRoot(wallets + [w], mnemonic) == KnownRoot(wallets, mnemonic)
    ensures KnownRoot(wallets, mnemonic).None? && mnemonic != "" && w.recoveryMnemonic == mnemonic ==>
              KnownRoot(wallets + [w], mnemonic) == Some(w.id)
  {
    if wallets != [] && mnemonic != "" {
      assert (wallets + [w])[1..] == wallets[1..] + [w];
      KnownRootStable(wallets[1..], w, mnemonic);
    } else if wallets == [] {
      assert [] + [w] == [w];
    }
  }

  lemma PresentGrows(accounts: seq<Account>, more: seq<Account>, a: Account, mnemonic: string, walletId: string)
    ensures Present(accounts, a, mnemonic, walletId) ==> Present(accounts + more, a, mnemonic, walletId)
  {
    if Present(accounts, a, mnemonic, walletId) {
      var i :| 0 <= i < |accounts| && SameKey(accounts[i], a)
               && (mnemonic == "" || accounts[i].walletId == Some(walletId));
      assert (accounts + more)[i] == accounts[i];
    }
  }

  lemma CoveredGrows(wallets: seq<Wallet>, accounts: seq<Account>, source: seq<Account>, w: Wallet,
                     extra: seq<Wallet>, more: seq<Account>)
    requires Covered(wallets, accounts, source, w) && |extra| <= 1
    ensures Covered(wallets + extra, accounts + more, source, w)
  {
    if extra == [] { assert wallets + extra == wallets; }
    else {
      assert extra == [extra[0]];
      KnownRootStable(wallets, extra[0], w.recoveryMnemonic);
    }
    forall i | 0 <= i < |source| && source[i].walletId == Some(w.id)
      ensures
        if w.recoveryMnemonic == "" then Present(accounts + more, source[i], "", "")
        else
          var root := KnownRoot(wallets + extra, w.recoveryMnemonic);
          root.Some? && Present(accounts + more, source[i], w.recoveryMnemonic, root.value)
    {
      PresentGrows(accounts, more, source[i], "", "");
      if w.recoveryMnemonic != "" {
        PresentGrows(accounts, more, source[i], w.recoveryMnemonic, KnownRoot(wallets, w.recoveryMnemonic).value);
      }
    }
  }

  // ---------- One source wallet ----------

  datatype Merging = Merging(wallets: seq<Wallet>, accounts: seq<Account>, next: nat, firstNew: Option<string>)

  ghost predicate IsNew(accounts: seq<Account>, start: nat, id: string) {
    exists i :: start <= i < |accounts| && accounts[i].id == id
  }

  ghost predicate MergeOk(base: Payload, source: Payload, s: Merging, uuid: Ids)
    requires base.wallets.Some? && source.wallets.Some?
  {
    && Extends(base, s.wallets, s.accounts, source, uuid, s.next)
    && AllPlaced(s.wallets, s.accounts, |base.accounts|, source)
    && NewInUse(s.wallets, |base.wallets.value|, s.accounts)
    && (NoDuplicates(base.accounts) && NoDuplicates(source.accounts) ==> NoDuplicates(s.accounts))
    && (s.firstNew.None? ==> s.accounts == base.accounts && s.wallets == base.wallets.value)
    && (s.firstNew.Some? ==> IsNew(s.accounts, |base.accounts|, s.firstNew.value))
  }

  /** No account can be in a wallet whose id has not been drawn yet. */
  lemma UnusedWallet(base: Payload, source: Payload, s: Merging, uuid: Ids, a: Account, mnemonic: string)
    requires base.wallets.Some? && source.wallets.Some? && MergeOk(base, source, s, uuid)
    requires FreshIds(uuid, base.accounts, base.wallets.value) && mnemonic != ""
    ensures !HasWallet(s.wallets, uuid(s.next)) && !Present(s.accounts, a, mnemonic, uuid(s.next))
  {
    forall i | 0 <= i < |s.wallets| ensures s.wallets[i].id != uuid(s.next) {
      if i < |base.wallets.value| {
        assert s.wallets[i] == s.wallets[..|base.wallets.value|][i];
      } else {
        assert Drawn(s.wallets[i].id, uuid, s.next);
        var k :| 0 <= k < s.next && s.wallets[i].id == uuid(k);
        assert Apart(uuid, k, s.next);
      }
    }
  }

  lemma NoDuplicatesConcat(accounts: seq<Account>, more: seq<Account>, mnemonic: string, walletId: string)
    requires NoDuplicates(accounts) && NoDuplicates(more)
    requires forall k :: 0 <= k < |more| ==>
               more[k].walletId == Some(walletId) && !Present(accounts, more[k], mnemonic, walletId)
    ensures NoDuplicates(accounts + more)
  {
    var all := accounts + more;
    forall i, j | 0 <= i < j < |all| ensures Differ(all[i], all[j]) {
      if i < |accounts| <= j {
        assert !Present(accounts, more[j - |accounts|], mnemonic, walletId);
        assert all[j] == more[j - |accounts|] && all[i] == accounts[i];
      } else if j < |accounts| {
        assert all[i] == accounts[i] && all[j] == accounts[j];
      } else {
        assert all[i] == more[i - |accounts|] && all[j] == more[j - |accounts|];
      }
    }
  }

  lemma AccountsDrawn(s: Merging, start: nat, source: Payload, uuid: Ids, n: nat, more: seq<Account>, w: Wallet,
                      walletId: string)
    requires start <= |s.accounts| && NewAccounts(s.accounts, start, source, uuid, s.next) && s.next <= n
    requires AllApart(uuid)
    requires forall k :: 0 <= k < |more| ==>
               more[k].id == uuid(n + k) && AddedFrom(s.accounts, source.accounts, w, walletId, more[k])
    ensures NewAccounts(s.accounts + more, start, source, uuid, n + |more|)
  {
    var accounts := s.accounts + more;
    forall i | start <= i < |accounts| ensures NewAccount(accounts[i], source, uuid, n + |more|) {
      if i < |s.accounts| {
        assert NewAccount(s.accounts[i], source, uuid, s.next);
      } else {
        var k := i - |s.accounts|;
        assert accounts[i] == more[k] && AddedFrom(s.accounts, source.accounts, w, walletId, more[k]);
        assert 0 <= n + k < n + |more| && accounts[i].id == uuid(n + k);
      }
    }
    forall i, j | start <= i < j < |accounts| ensures accounts[i].id != accounts[j].id {
      if i < |s.accounts| <= j {
        assert NewAccount(s.accounts[i], source, uuid, s.next);
        var k :| 0 <= k < s.next && s.accounts[i].id == uuid(k);
        assert accounts[j] == more[j - |s.accounts|];
        assert Apart(uuid, k, n + (j - |s.accounts|));
      } else if j < |s.accounts| {
        assert accounts[i] == s.accounts[i] && accounts[j] == s.accounts[j];
      } else {
        assert accounts[i] == more[i - |s.accounts|] && accounts[j] == more[j - |s.accounts|];
        assert Apart(uuid, n + (i - |s.accounts|), n + (j - |s.accounts|));
      }
    }
  }

  /** At most one wallet is created for a source wallet, under the next id. */
  ghost predicate OneDrawn(extra: seq<Wallet>, uuid: Ids, before: nat, n: nat) {
    extra != [] ==> |extra| == 1 && before < n && extra[0].id == uuid(before)
  }

  lemma WalletsDrawn(wallets: seq<Wallet>, start: nat, uuid: Ids, before: nat, n: nat, extra: seq<Wallet>)
    requires start <= |wallets| && NewWallets(wallets, start, uuid, before) && before <= n
    requires OneDrawn(extra, uuid, before, n) && AllApart(uuid)
    ensures NewWallets(wallets + extra, start, uuid, n)
  {
    forall i, j | start <= i < j < |wallets + extra| ensures (wallets + extra)[i].id != (wallets + extra)[j].id {
      if j >= |wallets| {
        assert Drawn(wallets[i].id, uuid, before);
        var k :| 0 <= k < before && wallets[i].id == uuid(k);
        assert Apart(uuid, k, before);
      }
    }
    forall i | start <= i < |wallets + extra| ensures Drawn((wallets + extra)[i].id, uuid, n) {
      if i < |wallets| {
        assert Drawn(wallets[i].id, uuid, before);
      } else {
        assert (wallets + extra)[i] == extra[i - |wallets|];
        assert 0 <= before < n && extra[i - |wallets|].id == uuid(before);
      }
    }
  }

  lemma AssignedGrows(wallets: seq<Wallet>, extra: seq<Wallet>, accounts: seq<Account>, more: seq<Account>,
                      walletId: string)
    requires Assigned(wallets, accounts) && HasWallet(wallets + extra, walletId)
    requires forall k :: 0 <= k < |more| ==> more[k].walletId == Some(walletId)
    ensures Assigned(wallets + extra, accounts + more)
  {
    var all := accounts + more;
    forall i | 0 <= i < |all| ensures all[i].walletId.Some? && HasWallet(wallets + extra, all[i].walletId.value) {
      if i < |accounts| {
        var k :| 0 <= k < |wallets| && wallets[k].id == accounts[i].walletId.value;
        assert (wallets + extra)[k] == wallets[k];
      } else {
        assert all[i] == more[i - |accounts|];
      }
    }
  }

  lemma ExtendsBy(base: Payload, source: Payload, s: Merging, uuid: Ids, n: nat,
                  extra: seq<Wallet>, more: seq<Account>, w: Wallet, walletId: string)
    requires base.wallets.Some? && Extends(base, s.wallets, s.accounts, source, uuid, s.next)
    requires AllApart(uuid)
    requires s.next <= n && OneDrawn(extra, uuid, s.next, n)
    requires HasWallet(s.wallets + extra, walletId)
    requires forall k :: 0 <= k < |more| ==>
               && more[k].id == uuid(n + k) && more[k].walletId == Some(walletId)
               && AddedFrom(s.accounts, source.accounts, w, walletId, more[k])
    ensures Extends(base, s.wallets + extra, s.accounts + more, source, uuid, n + |more|)
  {
    assert (s.wallets + extra)[..|base.wallets.value|] == s.wallets[..|base.wallets.value|];
    assert (s.accounts + more)[..|base.accounts|] == s.accounts[..|base.accounts|];
    AccountsDrawn(s, |base.accounts|, source, uuid, n, more, w, walletId);
    WalletsDrawn(s.wallets, |base.wallets.value|, uuid, s.next, n + |more|, extra);
    AssignedGrows(s.wallets, extra, s.accounts, more, walletId);
  }

  /** After its turn, a source wallet is covered. */
  lemma NowCovered(s: Merging, source: seq<Account>, w: Wallet, walletId: string, extra: seq<Wallet>,
                   more: seq<Account>)
    requires forall k :: 0 <= k < |more| ==> more[k].walletId == Some(walletId)
    requires AllHandled(s.accounts, more, source, |source|, w, walletId)
    requires w.recoveryMnemonic != "" ==>
               KnownRoot(s.wallets + extra, w.recoveryMnemonic) == Some(walletId)
               || forall i :: 0 <= i < |source| ==> source[i].walletId != Some(w.id)
    ensures Covered(s.wallets + extra, s.accounts + more, source, w)
  {
    forall i | 0 <= i < |source| && source[i].walletId == Some(w.id)
      ensures Present(s.accounts + more, source[i], w.recoveryMnemonic, walletId)
      ensures w.recoveryMnemonic == "" ==> Present(s.accounts + more, source[i], "", "")
    {
      assert Handled(s.accounts, more, source[i], w, walletId);
      PresentGrows(s.accounts, more, source[i], w.recoveryMnemonic, walletId);
      if !Present(s.accounts, source[i], w.recoveryMnemonic, walletId) {
        var k :| 0 <= k < |more| && SameKey(more[k], source[i]);
        assert (s.accounts + more)[|s.accounts| + k] == more[k];
      }
    }
  }

  /** A covered wallet has nothing to add. */
  lemma CoveredAddsNothing(s: Merging, source: seq<Account>, w: Wallet, walletId: string, b: Account)
    requires Covered(s.wallets, s.accounts, source, w)
    requires KnownRoot(s.wallets, w.recoveryMnemonic).Some? ==>
               walletId == KnownRoot(s.wallets, w.recoveryMnemonic).value
    ensures !AddedFrom(s.accounts, source, w, walletId, b)
  {
  }

  lemma SamePresence(accounts: seq<Account>, a: Account, b: Account, mnemonic: string, walletId: string)
    requires SameKey(a, b)
    ensures Present(accounts, a, mnemonic, walletId) <==> Present(accounts, b, mnemonic, walletId)
    ensures Present(accounts, a, "", "") <==> Present(accounts, b, "", walletId)
  {
  }

  /** The first EVM account, or else the first account. */
  ghost predicate ChosenAt(accounts: seq<Account>, l: nat) {
    && l < |accounts|
    && if exists j :: 0 <= j < |accounts| && accounts[j].family == Evm
       then accounts[l].family == Evm && forall j :: 0 <= j < l ==> accounts[j].family != Evm
       else l == 0
  }

  ghost predicate SelectedIn(accounts: seq<Account>, selected: string) {
    exists l: nat :: ChosenAt(accounts, l) && accounts[l].id == selected
  }

  /** `find(a => a.family === 'evm')`, as a position. */
  function EvmFrom(accounts: seq<Account>, i: nat): (r: Option<nat>)
    requires i <= |accounts|
    ensures r.None? ==> forall j :: i <= j < |accounts| ==> accounts[j].family != Evm
    ensures r.Some? ==> i <= r.value < |accounts| && accounts[r.value].family == Evm
    ensures r.Some? ==> forall j :: i <= j < r.value ==> accounts[j].family != Evm
    decreases |accounts| - i
  {
    if i == |accounts| then None
    else if accounts[i].family == Evm then Some(i)
    else EvmFrom(accounts, i + 1)
  }

  /** The account a merge selects among the first additions. */
  function FirstEvm(accounts: seq<Account>): (r: string)
    requires accounts != []
    ensures SelectedIn(accounts, r)
  {
    var found := EvmFrom(accounts, 0);
    var l: nat := if found.Some? then found.value else 0;
    assert ChosenAt(accounts, l);
    accounts[l].id
  }

  // ---------- Which account is selected ----------

  /** The account of source wallet `w` is not in the vault. */
  ghost predicate Lacks(wallets: seq<Wallet>, accounts: seq<Account>, a: Account, w: Wallet) {
    a.walletId == Some(w.id) && !Has(wallets, accounts, a, w)
  }

  /** In ascending order, the places of the source accounts that the vault lacks. */
  ghost predicate PlacesOf(picks: seq<nat>, wallets: seq<Wallet>, accounts: seq<Account>, source: seq<Account>,
                           w: Wallet)
  {
    && (forall l :: 0 <= l < |picks| ==> picks[l] < |source|)
    && (forall l, m :: 0 <= l < m < |picks| ==> picks[l] < picks[m])
    && (forall i {:trigger Lacks(wallets, accounts, source[i], w)} ::
          0 <= i < |source| ==> (Lacks(wallets, accounts, source[i], w) <==> i in picks))
  }

  /** The accounts from `start` on are copies of those picked, and this one of them is selected. */
  ghost predicate SelectsAmong(accounts: seq<Account>, start: nat, source: seq<Account>, picks: seq<nat>,
                               selected: string)
  {
    && start + |picks| <= |accounts|
    && (forall l :: 0 <= l < |picks| ==> picks[l] < |source| && CopyOf(accounts[start + l], source[picks[l]]))
    && SelectedIn(accounts[start..start + |picks|], selected)
  }

  /** Source wallet `k` is the first that the vault lacks anything of.  What it lacks is added first, and
      of that the first EVM account is selected, or else the first account. */
  ghost predicate SelectsFrom(base: Payload, source: Payload, accounts: seq<Account>, selected: string, k: nat)
    requires base.wallets.Some? && source.wallets.Some?
  {
    && k < |source.wallets.value|
    && AllCovered(base.wallets.value, base.accounts, source, k)
    && exists picks ::
         && picks != []
         && PlacesOf(picks, base.wallets.value, base.accounts, source.accounts, source.wallets.value[k])
         && SelectsAmong(accounts, |base.accounts|, source.accounts, picks, selected)
  }

  /** The places of the missing accounts among the first `i`. */
  ghost function Picks(accounts: seq<Account>, source: seq<Account>, i: nat, w: Wallet, walletId: string): seq<nat>
    requires i <= |source|
  {
    if i == 0 then []
    else
      Picks(accounts, source, i - 1, w, walletId)
      + if Missing(accounts, source[i - 1], w, walletId) then [i - 1] else []
  }

  lemma {:induction false} PicksExact(accounts: seq<Account>, source: seq<Account>, i: nat, w: Wallet, walletId: string)
    requires i <= |source|
    ensures
      var picks := Picks(accounts, source, i, w, walletId);
      && (forall l :: 0 <= l < |picks| ==> picks[l] < i)
      && (forall l, m :: 0 <= l < m < |picks| ==> picks[l] < picks[m])
      && (forall j {:trigger Missing(accounts, source[j], w, walletId)} ::
            0 <= j < i ==> (Missing(accounts, source[j], w, walletId) <==> j in picks))
  {
    if i > 0 {
      PicksExact(accounts, source, i - 1, w, walletId);
      var before := Picks(accounts, source, i - 1, w, walletId);
      assert i - 1 !in before;
    }
  }

  /** The additions copy the accounts picked, one by one. */
  lemma {:induction false} AdditionsPicked(accounts: seq<Account>, source: seq<Account>, i: nat, w: Wallet,
                                           walletId: string, uuid: Ids, n: nat)
    requires i <= |source|
    ensures
      var r, picks := AdditionsOf(accounts, source, i, w, walletId, uuid, n), Picks(accounts, source, i, w, walletId);
      && |r| == |picks|
      && forall l :: 0 <= l < |r| ==> picks[l] < |source| && CopyOf(r[l], source[picks[l]])
  {
    if i > 0 {
      AdditionsPicked(accounts, source, i - 1, w, walletId, uuid, n);
    }
  }

  lemma MissingExactly(base: Payload, source: Payload, s: Merging, uuid: Ids, w: Wallet, walletId: string, a: Account)
    requires base.wallets.Some? && source.wallets.Some? && MergeOk(base, source, s, uuid)
    requires FreshIds(uuid, base.accounts, base.wallets.value)
    requires
      var knownRoot := KnownRoot(s.wallets, w.recoveryMnemonic);
      walletId == if knownRoot.Some? then knownRoot.value else uuid(s.next)
    ensures Missing(s.accounts, a, w, walletId) <==> Lacks(s.wallets, s.accounts, a, w)
  {
    if w.recoveryMnemonic == "" {
      SamePresence(s.accounts, a, a, "", walletId);
    } else if KnownRoot(s.wallets, w.recoveryMnemonic).None? {
      UnusedWallet(base, source, s, uuid, a, w.recoveryMnemonic);
    }
  }

  /** The first additions of a merge settle what is selected. */
  lemma FirstSelected(base: Payload, source: Payload, k: nat, s: Merging, uuid: Ids, walletId: string, drawn: nat)
    requires base.wallets.Some? && source.wallets.Some? && MergeOk(base, source, s, uuid)
    requires FreshIds(uuid, base.accounts, base.wallets.value) && k < |source.wallets.value|
    requires s.firstNew.None? && AllCovered(base.wallets.value, base.accounts, source, k)
    requires
      var knownRoot := KnownRoot(s.wallets, source.wallets.value[k].recoveryMnemonic);
      walletId == if knownRoot.Some? then knownRoot.value else uuid(s.next)
    ensures
      var w := source.wallets.value[k];
      var additions := AdditionsOf(s.accounts, source.accounts, |source.accounts|, w, walletId, uuid, drawn);
      additions != [] ==> SelectsFrom(base, source, s.accounts + additions, FirstEvm(additions), k)
  {
    var w, n := source.wallets.value[k], |source.accounts|;
    var additions := AdditionsOf(s.accounts, source.accounts, n, w, walletId, uuid, drawn);
    var picks := Picks(s.accounts, source.accounts, n, w, walletId);
    PicksExact(s.accounts, source.accounts, n, w, walletId);
    AdditionsPicked(s.accounts, source.accounts, n, w, walletId, uuid, drawn);
    forall i | 0 <= i < n
      ensures Missing(s.accounts, source.accounts[i], w, walletId)
         <==> Lacks(base.wallets.value, base.accounts, source.accounts[i], w)
    {
      MissingExactly(base, source, s, uuid, w, walletId, source.accounts[i]);
    }
    if additions != [] {
      assert PlacesOf(picks, base.wallets.value, base.accounts, source.accounts, w);
      SelectedHere(s.accounts, source.accounts, picks, additions);
    }
  }

  lemma SelectedHere(accounts: seq<Account>, source: seq<Account>, picks: seq<nat>, additions: seq<Account>)
    requires additions != [] && |additions| == |picks|
    requires forall l :: 0 <= l < |picks| ==> picks[l] < |source| && CopyOf(additions[l], source[picks[l]])
    ensures SelectsAmong(accounts + additions, |accounts|, source, picks, FirstEvm(additions))
  {
    var all := accounts + additions;
    assert all[|accounts|..|accounts| + |picks|] == additions;
  }

  /** Later additions change nothing about it. */
  lemma SelectedStays(base: Payload, source: Payload, accounts: seq<Account>, more: seq<Account>, selected: string,
                      k: nat)
    requires base.wallets.Some? && source.wallets.Some? && SelectsFrom(base, source, accounts, selected, k)
    ensures SelectsFrom(base, source, accounts + more, selected, k)
  {
    var w, start := source.wallets.value[k], |base.accounts|;
    var picks :| picks != [] && PlacesOf(picks, base.wallets.value, base.accounts, source.accounts, w)
                 && SelectsAmong(accounts, start, source.accounts, picks, selected);
    assert (accounts + more)[start..start + |picks|] == accounts[start..start + |picks|];
    assert SelectsAmong(accounts + more, start, source.accounts, picks, selected);
  }

  /** How one source wallet changes the merge. */
  ghost predicate WalletMerged(base: Payload, source: Payload, w: Wallet, s: Merging, t: Merging, uuid: Ids)
    requires base.wallets.Some? && source.wallets.Some?
  {
    && MergeOk(base, source, t, uuid)
    && Covered(t.wallets, t.accounts, source.accounts, w)
    && |s.wallets| <= |t.wallets| <= |s.wallets| + 1 && t.wallets[..|s.wallets|] == s.wallets
    && |s.accounts| <= |t.accounts| && t.accounts[..|s.accounts|] == s.accounts
    && (Covered(s.wallets, s.accounts, source.accounts, w) ==>
          t.wallets == s.wallets && t.accounts == s.accounts && t.firstNew == s.firstNew)
  }

  predicate NameTakenIn(o: Oracle, wallets: seq<Wallet>, name: string) {
    exists i :: 0 <= i < |wallets| && SameName(o, wallets[i].name, name)
  }

  /** The name given for the import, or else the next free one. */
  function WalletName(o: Oracle, name: Option<string>, wallets: seq<Wallet>): string {
    if name.Some? then name.value else o.nextName(wallets)
  }

  /** A source wallet keeps its own name if the import has several wallets and that name is free. */
  function AddedName(o: Oracle, name: Option<string>, source: Payload, before: seq<Wallet>, w: Wallet): string
    requires source.wallets.Some?
  {
    if |source.wallets.value| == 1 || NameTakenIn(o, before, w.name) then WalletName(o, name, before) else w.name
  }

  /** `w` as it is added behind `before`. */
  ghost predicate AddedAs(o: Oracle, name: Option<string>, source: Payload, before: seq<Wallet>, w: Wallet,
                          added: Wallet)
    requires source.wallets.Some?
  {
    && added.recoveryMnemonic == w.recoveryMnemonic
    && (if |source.wallets.value| != 1 && (forall i :: 0 <= i < |before| ==> o.lower(before[i].name) != o.lower(w.name))
        then added.name == w.name
        else added.name == if name.Some? then name.value else o.nextName(before))
    && |if name.Some? then name.value else o.nextName(before)| <= MAX_NAME
  }

  ghost predicate AddedAt(o: Oracle, name: Option<string>, source: Payload, wallets: seq<Wallet>, i: nat)
    requires source.wallets.Some? && i < |wallets|
  {
    exists k :: 0 <= k < |source.wallets.value|
      && AddedAs(o, name, source, wallets[..i], source.wallets.value[k], wallets[i])
  }

  /** Every wallet from `start` on is a source wallet, named as it was when it was added. */
  ghost predicate AllNamed(o: Oracle, name: Option<string>, source: Payload, wallets: seq<Wallet>, start: nat)
    requires source.wallets.Some?
  {
    forall i :: start <= i < |wallets| ==> AddedAt(o, name, source, wallets, i)
  }

  /** At most this one wallet is added. */
  ghost predicate AddsWallet(o: Oracle, name: Option<string>, source: Payload, w: Wallet, before: seq<Wallet>,
                             after: seq<Wallet>)
    requires source.wallets.Some?
  {
    after == before
    || (|after| == |before| + 1 && after[..|before|] == before && AddedAs(o, name, source, before, w, after[|before|]))
  }

  lemma NamedGrows(o: Oracle, name: Option<string>, source: Payload, k: nat, before: seq<Wallet>, after: seq<Wallet>,
                   start: nat)
    requires source.wallets.Some? && k < |source.wallets.value| && start <= |before|
    requires AllNamed(o, name, source, before, start)
    requires AddsWallet(o, name, source, source.wallets.value[k], before, after)
    ensures AllNamed(o, name, source, after, start)
  {
    forall i | start <= i < |after| ensures AddedAt(o, name, source, after, i) {
      if i < |before| {
        assert AddedAt(o, name, source, before, i);
        assert after[..i] == after[..|before|][..i] == before[..i] && after[i] == after[..|before|][i];
      }
    }
  }

  /** What one source wallet does to the merge. */
  function MergeOne(o: Oracle, name: Option<string>, source: Payload, k: nat, s: Merging,
                    uuid: Ids): Result<Merging, Error>
    requires source.wallets.Some? && k < |source.wallets.value|
  {
    var w := source.wallets.value[k];
    var knownRoot := KnownRoot(s.wallets, w.recoveryMnemonic);
    var walletId := if knownRoot.Some? then knownRoot.value else uuid(s.next);
    var drawn := if knownRoot.Some? then s.next else s.next + 1;
    var additions := AdditionsOf(s.accounts, source.accounts, |source.accounts|, w, walletId, uuid, drawn);
    if additions == [] then Success(s.(next := drawn))
    else if |WalletName(o, name, s.wallets)| > MAX_NAME then Failure(NameInvalid)
    else
      var added := Wallet(walletId, AddedName(o, name, source, s.wallets, w), w.recoveryMnemonic);
      Success(After(s, drawn, if knownRoot.Some? then [] else [added], additions))
  }

  /** The merge after the first `n` source wallets. */
  function MergeUpTo(o: Oracle, name: Option<string>, base: Payload, source: Payload, n: nat,
                     uuid: Ids): Result<Merging, Error>
    requires base.wallets.Some? && source.wallets.Some? && n <= |source.wallets.value|
  {
    if n == 0 then Success(Merging(base.wallets.value, base.accounts, 0, None))
    else
      var s :- MergeUpTo(o, name, base, source, n - 1, uuid);
      MergeOne(o, name, source, n - 1, s, uuid)
  }

  /** The body of the merge loop for one source wallet. */
  method MergeWallet(o: Oracle, name: Option<string>, source: Payload, k: nat, s: Merging, uuid: Ids)
    returns (r: Result<Merging, Error>)
    requires source.wallets.Some? && k < |source.wallets.value|
    ensures r == MergeOne(o, name, source, k, s, uuid)
  {
    var w := source.wallets.value[k];
    var knownRoot := KnownRoot(s.wallets, w.recoveryMnemonic);
    var walletId := if knownRoot.Some? then knownRoot.value else uuid(s.next);
    var drawn := if knownRoot.Some? then s.next else s.next + 1;
    var additions := Additions(s.accounts, source.accounts, w, walletId, uuid, drawn);
    if additions == [] {
      return Success(s.(next := drawn));
    }
    var walletName := WalletName(o, name, s.wallets);
    if |walletName| > MAX_NAME {
      return Failure(NameInvalid);
    }
    var wallets := s.wallets;
    if knownRoot.None? {
      var taken := |source.wallets.value| == 1 || NameTakenIn(o, s.wallets, w.name);
      wallets := wallets + [Wallet(walletId, if taken then walletName else w.name, w.recoveryMnemonic)];
    }
    var firstNew := if s.firstNew.Some? then s.firstNew else Some(FirstEvm(additions));
    assert s.wallets + [] == s.wallets;
    return Success(Merging(wallets, s.accounts + additions, drawn + |additions|, firstNew));
  }

  /** One source wallet's turn extends the vault, covers the wallet, and changes nothing if it was
      covered; it fails only when something is missing and no name is short enough. */
  lemma MergeOneMerges(o: Oracle, name: Option<string>, base: Payload, source: Payload, k: nat, s: Merging, uuid: Ids)
    requires base.wallets.Some? && source.wallets.Some? && MergeOk(base, source, s, uuid)
    requires FreshIds(uuid, base.accounts, base.wallets.value) && k < |source.wallets.value|
    ensures
      var r, w := MergeOne(o, name, source, k, s, uuid), source.wallets.value[k];
      && (r.Success? ==> WalletMerged(base, source, w, s, r.value, uuid))
      && (r.Success? ==> AddsWallet(o, name, source, w, s.wallets, r.value.wallets))
      && (r.Success? && r.value.firstNew.Some? && s.firstNew.None? ==> |WalletName(o, name, s.wallets)| <= MAX_NAME)
      && (r.Failure? ==> r.error == NameInvalid && !Covered(s.wallets, s.accounts, source.accounts, w))
      && (r.Failure? ==> |WalletName(o, name, s.wallets)| > MAX_NAME)
  {
    var w := source.wallets.value[k];
    var knownRoot := KnownRoot(s.wallets, w.recoveryMnemonic);
    var walletId := if knownRoot.Some? then knownRoot.value else uuid(s.next);
    var drawn := if knownRoot.Some? then s.next else s.next + 1;
    var additions := AdditionsExact(s.accounts, source.accounts, |source.accounts|, w, walletId, uuid, drawn);
    if additions == [] {
      NothingMerged(base, source, w, s, uuid, drawn, walletId);
    } else {
      var added := Wallet(walletId, AddedName(o, name, source, s.wallets, w), w.recoveryMnemonic);
      var extra := if knownRoot.Some? then [] else [added];
      AdditionsNeeded(source, w, s, uuid, drawn, extra, additions, walletId);
      if |WalletName(o, name, s.wallets)| <= MAX_NAME {
        AddedIsNamed(o, name, source, w, s.wallets, added);
        ExtraNamed(o, name, source, w, s.wallets, extra);
        AdditionsMerged(base, source, k, s, After(s, drawn, extra, additions), uuid, drawn, extra, additions, walletId);
      }
    }
  }

  lemma AddedIsNamed(o: Oracle, name: Option<string>, source: Payload, w: Wallet, before: seq<Wallet>, added: Wallet)
    requires source.wallets.Some? && |WalletName(o, name, before)| <= MAX_NAME
    requires added.recoveryMnemonic == w.recoveryMnemonic && added.name == AddedName(o, name, source, before, w)
    ensures AddedAs(o, name, source, before, w, added)
  {
    if NameTakenIn(o, before, w.name) {
      var i :| 0 <= i < |before| && SameName(o, before[i].name, w.name);
    } else {
      forall i | 0 <= i < |before| ensures o.lower(before[i].name) != o.lower(w.name) {
        assert !SameName(o, before[i].name, w.name);
      }
    }
  }

  lemma ExtraNamed(o: Oracle, name: Option<string>, source: Payload, w: Wallet, before: seq<Wallet>, extra: seq<Wallet>)
    requires source.wallets.Some? && |extra| <= 1
    requires extra != [] ==> AddedAs(o, name, source, before, w, extra[0])
    ensures AddsWallet(o, name, source, w, before, before + extra)
  {
    assert extra == [] ==> before + extra == before;
  }

  lemma NothingMerged(base: Payload, source: Payload, w: Wallet, s: Merging, uuid: Ids, drawn: nat, walletId: string)
    requires base.wallets.Some? && source.wallets.Some? && MergeOk(base, source, s, uuid) && s.next <= drawn
    requires FreshIds(uuid, base.accounts, base.wallets.value)
    requires
      var knownRoot := KnownRoot(s.wallets, w.recoveryMnemonic);
      walletId == if knownRoot.Some? then knownRoot.value else uuid(s.next)
    requires AddedSoFar(s.accounts, source.accounts, |source.accounts|, w, walletId, uuid, drawn, [])
    ensures WalletMerged(base, source, w, s, s.(next := drawn), uuid)
  {
    NothingMissing(base, source, s, uuid, w, walletId);
    WeakerCounter(base, source, s, uuid, drawn);
  }

  /** The wallet the additions go to, and the ids drawn for it. */
  ghost predicate Target(s: Merging, w: Wallet, uuid: Ids, drawn: nat, extra: seq<Wallet>, walletId: string) {
    var knownRoot := KnownRoot(s.wallets, w.recoveryMnemonic);
    if knownRoot.Some? then walletId == knownRoot.value && drawn == s.next && extra == []
    else walletId == uuid(s.next) && drawn == s.next + 1 && |extra| == 1
         && extra[0].id == walletId && extra[0].recoveryMnemonic == w.recoveryMnemonic
  }

  lemma AdditionsMerged(base: Payload, source: Payload, k: nat, s: Merging, t: Merging, uuid: Ids, drawn: nat,
                        extra: seq<Wallet>, additions: seq<Account>, walletId: string)
    requires base.wallets.Some? && source.wallets.Some? && k < |source.wallets.value|
    requires MergeOk(base, source, s, uuid) && FreshIds(uuid, base.accounts, base.wallets.value)
    requires Target(s, source.wallets.value[k], uuid, drawn, extra, walletId) && additions != []
    requires AddedSoFar(s.accounts, source.accounts, |source.accounts|, source.wallets.value[k], walletId, uuid, drawn,
                        additions)
    requires t == After(s, drawn, extra, additions)
    ensures WalletMerged(base, source, source.wallets.value[k], s, t, uuid)
  {
    var w := source.wallets.value[k];
    TargetWallet(s, w, extra, walletId);
    PreparedExtends(base, source, k, s, uuid, drawn, extra, additions, walletId);
    AdditionsOk(base, source, k, s, t, uuid, drawn, extra, additions, walletId);
    AdditionsCover(source, w, s, uuid, drawn, extra, additions, walletId);
    AdditionsNeeded(source, w, s, uuid, drawn, extra, additions, walletId);
  }

  lemma AdditionsCover(source: Payload, w: Wallet, s: Merging, uuid: Ids, drawn: nat, extra: seq<Wallet>,
                       additions: seq<Account>, walletId: string)
    requires Target(s, w, uuid, drawn, extra, walletId)
    requires AddedSoFar(s.accounts, source.accounts, |source.accounts|, w, walletId, uuid, drawn, additions)
    ensures Covered(s.wallets + extra, s.accounts + additions, source.accounts, w)
  {
    TargetWallet(s, w, extra, walletId);
    NowCovered(s, source.accounts, w, walletId, extra, additions);
  }

  lemma AdditionsNeeded(source: Payload, w: Wallet, s: Merging, uuid: Ids, drawn: nat, extra: seq<Wallet>,
                        additions: seq<Account>, walletId: string)
    requires Target(s, w, uuid, drawn, extra, walletId) && additions != []
    requires AddedSoFar(s.accounts, source.accounts, |source.accounts|, w, walletId, uuid, drawn, additions)
    ensures !Covered(s.wallets, s.accounts, source.accounts, w)
  {
    if Covered(s.wallets, s.accounts, source.accounts, w) {
      assert source.accounts[..|source.accounts|] == source.accounts;
      assert AddedFrom(s.accounts, source.accounts, w, walletId, additions[0]);
      CoveredAddsNothing(s, source.accounts, w, walletId, additions[0]);
    }
  }

  /** What is to be added for source wallet `k`, and where. */
  ghost predicate Prepared(source: Payload, k: nat, s: Merging, uuid: Ids, drawn: nat, extra: seq<Wallet>,
                           additions: seq<Account>, walletId: string)
    requires source.wallets.Some? && k < |source.wallets.value|
  {
    && s.next <= drawn && OneDrawn(extra, uuid, s.next, drawn)
    && (forall i :: 0 <= i < |extra| ==> extra[i].id == walletId)
    && HasWallet(s.wallets + extra, walletId)
    && Holds(s.wallets + extra, Some(walletId), source.wallets.value[k].recoveryMnemonic)
    && additions != []
    && AddedSoFar(s.accounts, source.accounts, |source.accounts|, source.wallets.value[k], walletId, uuid, drawn,
                  additions)
  }

  lemma PreparedExtends(base: Payload, source: Payload, k: nat, s: Merging, uuid: Ids, drawn: nat,
                        extra: seq<Wallet>, additions: seq<Account>, walletId: string)
    requires base.wallets.Some? && source.wallets.Some? && k < |source.wallets.value|
    requires Extends(base, s.wallets, s.accounts, source, uuid, s.next)
    requires FreshIds(uuid, base.accounts, base.wallets.value)
    requires Prepared(source, k, s, uuid, drawn, extra, additions, walletId)
    ensures Extends(base, s.wallets + extra, s.accounts + additions, source, uuid, drawn + |additions|)
  {
    assert source.accounts[..|source.accounts|] == source.accounts;
    ExtendsBy(base, source, s, uuid, drawn, extra, additions, source.wallets.value[k], walletId);
  }

  lemma PreparedPlaced(source: Payload, k: nat, s: Merging, start: nat, uuid: Ids, drawn: nat,
                       extra: seq<Wallet>, additions: seq<Account>, walletId: string)
    requires source.wallets.Some? && k < |source.wallets.value| && start <= |s.accounts|
    requires AllPlaced(s.wallets, s.accounts, start, source)
    requires Prepared(source, k, s, uuid, drawn, extra, additions, walletId)
    ensures AllPlaced(s.wallets + extra, s.accounts + additions, start, source)
  {
    assert source.accounts[..|source.accounts|] == source.accounts;
    AdditionsPlaced(source, k, s, start, extra, additions, walletId);
  }

  lemma PreparedDistinct(source: Payload, k: nat, s: Merging, uuid: Ids, drawn: nat,
                         extra: seq<Wallet>, additions: seq<Account>, walletId: string)
    requires source.wallets.Some? && k < |source.wallets.value|
    requires Prepared(source, k, s, uuid, drawn, extra, additions, walletId)
    requires NoDuplicates(s.accounts) && NoDuplicates(source.accounts)
    ensures NoDuplicates(s.accounts + additions)
  {
    var w := source.wallets.value[k];
    assert source.accounts[..|source.accounts|] == source.accounts;
    assert forall i :: 0 <= i < |additions| ==> AddedFrom(s.accounts, source.accounts, w, walletId, additions[i]);
    NoDuplicatesConcat(s.accounts, additions, w.recoveryMnemonic, walletId);
  }

  lemma AdditionsOk(base: Payload, source: Payload, k: nat, s: Merging, t: Merging, uuid: Ids, drawn: nat,
                    extra: seq<Wallet>, additions: seq<Account>, walletId: string)
    requires base.wallets.Some? && source.wallets.Some? && k < |source.wallets.value|
    requires MergeOk(base, source, s, uuid)
    requires Prepared(source, k, s, uuid, drawn, extra, additions, walletId)
    requires t == After(s, drawn, extra, additions) && Extends(base, t.wallets, t.accounts, source, uuid, t.next)
    ensures MergeOk(base, source, t, uuid)
  {
    PreparedPlaced(source, k, s, |base.accounts|, uuid, drawn, extra, additions, walletId);
    if NoDuplicates(s.accounts) && NoDuplicates(source.accounts) {
      PreparedDistinct(source, k, s, uuid, drawn, extra, additions, walletId);
    }
    InUseGrows(s.wallets, |base.wallets.value|, s.accounts, extra, additions);
    FirstNewListed(base, s, additions, t.firstNew);
  }

  function After(s: Merging, drawn: nat, extra: seq<Wallet>, additions: seq<Account>): Merging
    requires additions != []
  {
    Merging(s.wallets + extra, s.accounts + additions, drawn + |additions|,
            if s.firstNew.Some? then s.firstNew else Some(FirstEvm(additions)))
  }

  /** The wallet additions go to is listed, and is the one its phrase leads to. */
  lemma TargetWallet(s: Merging, w: Wallet, extra: seq<Wallet>, walletId: string)
    requires
      var knownRoot := KnownRoot(s.wallets, w.recoveryMnemonic);
      if knownRoot.Some? then walletId == knownRoot.value && extra == []
      else |extra| == 1 && extra[0].id == walletId && extra[0].recoveryMnemonic == w.recoveryMnemonic
    ensures HasWallet(s.wallets + extra, walletId) && Holds(s.wallets + extra, Some(walletId), w.recoveryMnemonic)
    ensures w.recoveryMnemonic != "" ==> KnownRoot(s.wallets + extra, w.recoveryMnemonic) == Some(walletId)
  {
    if KnownRoot(s.wallets, w.recoveryMnemonic).Some? {
      assert s.wallets + extra == s.wallets;
    } else {
      assert extra == [extra[0]];
      HasWalletGrows(s.wallets, extra[0], walletId);
      assert (s.wallets + extra)[|s.wallets|] == extra[0];
      KnownRootStable(s.wallets, extra[0], w.recoveryMnemonic);
    }
  }

  lemma FirstNewListed(base: Payload, s: Merging, additions: seq<Account>, firstNew: Option<string>)
    requires additions != [] && |base.accounts| <= |s.accounts|
    requires firstNew == if s.firstNew.Some? then s.firstNew else Some(FirstEvm(additions))
    requires s.firstNew.Some? ==> IsNew(s.accounts, |base.accounts|, s.firstNew.value)
    ensures IsNew(s.accounts + additions, |base.accounts|, firstNew.value)
  {
    var all := s.accounts + additions;
    if s.firstNew.Some? {
      var i :| |base.accounts| <= i < |s.accounts| && s.accounts[i].id == s.firstNew.value;
      assert all[i] == s.accounts[i];
    } else {
      var l: nat :| ChosenAt(additions, l) && additions[l].id == FirstEvm(additions);
      assert all[|s.accounts| + l] == additions[l];
    }
  }

  lemma WeakerCounter(base: Payload, source: Payload, s: Merging, uuid: Ids, next: nat)
    requires base.wallets.Some? && source.wallets.Some? && MergeOk(base, source, s, uuid) && s.next <= next
    ensures MergeOk(base, source, s.(next := next), uuid)
  {
    forall i | |base.accounts| <= i < |s.accounts| ensures NewAccount(s.accounts[i], source, uuid, next) {
      assert NewAccount(s.accounts[i], source, uuid, s.next);
    }
    forall i | |base.wallets.value| <= i < |s.wallets| ensures Drawn(s.wallets[i].id, uuid, next) {
      assert Drawn(s.wallets[i].id, uuid, s.next);
    }
  }

  /** When nothing is added, the wallet was covered already. */
  lemma NothingMissing(base: Payload, source: Payload, s: Merging, uuid: Ids, w: Wallet, walletId: string)
    requires base.wallets.Some? && source.wallets.Some? && MergeOk(base, source, s, uuid)
    requires FreshIds(uuid, base.accounts, base.wallets.value)
    requires
      var knownRoot := KnownRoot(s.wallets, w.recoveryMnemonic);
      walletId == if knownRoot.Some? then knownRoot.value else uuid(s.next)
    requires AllHandled(s.accounts, [], source.accounts, |source.accounts|, w, walletId)
    ensures Covered(s.wallets, s.accounts, source.accounts, w)
  {
    var knownRoot := KnownRoot(s.wallets, w.recoveryMnemonic);
    forall i | 0 <= i < |source.accounts| && source.accounts[i].walletId == Some(w.id)
      ensures w.recoveryMnemonic == "" ==> Present(s.accounts, source.accounts[i], "", "")
      ensures w.recoveryMnemonic != "" ==>
                knownRoot.Some? && Present(s.accounts, source.accounts[i], w.recoveryMnemonic, walletId)
    {
      assert Handled(s.accounts, [], source.accounts[i], w, walletId);
      if w.recoveryMnemonic != "" && knownRoot.None? {
        UnusedWallet(base, source, s, uuid, source.accounts[i], w.recoveryMnemonic);
      }
      SamePresence(s.accounts, source.accounts[i], source.accounts[i], "", walletId);
    }
  }

  // ---------- The loop ----------

  lemma AllCoveredKept(source: Payload, n: nat, s: Merging, t: Merging)
    requires source.wallets.Some? && n <= |source.wallets.value|
    requires AllCovered(s.wallets, s.accounts, source, n)
    requires |s.wallets| <= |t.wallets| <= |s.wallets| + 1 && t.wallets[..|s.wallets|] == s.wallets
    requires |s.accounts| <= |t.accounts| && t.accounts[..|s.accounts|] == s.accounts
    ensures AllCovered(t.wallets, t.accounts, source, n)
  {
    var extra, more := t.wallets[|s.wallets|..], t.accounts[|s.accounts|..];
    assert t.wallets == s.wallets + extra && t.accounts == s.accounts + more;
    forall k | 0 <= k < n ensures Covered(t.wallets, t.accounts, source.accounts, source.wallets.value[k]) {
      CoveredGrows(s.wallets, s.accounts, source.accounts, source.wallets.value[k], extra, more);
    }
  }

  /** What holds after the first `n` source wallets. */
  ghost predicate MergedSoFar(base: Payload, source: Payload, n: nat, s: Merging, uuid: Ids)
    requires base.wallets.Some? && source.wallets.Some? && n <= |source.wallets.value|
  {
    && MergeOk(base, source, s, uuid)
    && AllCovered(s.wallets, s.accounts, source, n)
    && (BaseCovers(base, source) ==> s.wallets == base.wallets.value && s.accounts == base.accounts && s.firstNew.None?)
    && (s.firstNew.Some? ==> SelectsOne(base, source, s.accounts, s.firstNew.value))
  }

  ghost predicate SelectsOne(base: Payload, source: Payload, accounts: seq<Account>, selected: string)
    requires base.wallets.Some? && source.wallets.Some?
  {
    exists k :: SelectsFrom(base, source, accounts, selected, k)
  }

  ghost predicate BaseCovers(base: Payload, source: Payload)
    requires base.wallets.Some? && source.wallets.Some?
  {
    AllCovered(base.wallets.value, base.accounts, source, |source.wallets.value|)
  }

  lemma MergeStarts(base: Payload, source: Payload, uuid: Ids)
    requires base.wallets.Some? && source.wallets.Some? && Assigned(base.wallets.value, base.accounts)
    ensures MergedSoFar(base, source, 0, Merging(base.wallets.value, base.accounts, 0, None), uuid)
  {
  }

  lemma MergeGoesOn(base: Payload, source: Payload, n: nat, s: Merging, t: Merging, uuid: Ids)
    requires base.wallets.Some? && source.wallets.Some? && n < |source.wallets.value|
    requires MergedSoFar(base, source, n, s, uuid) && WalletMerged(base, source, source.wallets.value[n], s, t, uuid)
    requires t.firstNew.Some? ==> SelectsOne(base, source, t.accounts, t.firstNew.value)
    ensures MergedSoFar(base, source, n + 1, t, uuid)
  {
    AllCoveredKept(source, n, s, t);
  }

  /** What is selected, before and after source wallet `n`. */
  lemma SelectionGoesOn(o: Oracle, name: Option<string>, base: Payload, source: Payload, n: nat, s: Merging, uuid: Ids)
    requires base.wallets.Some? && source.wallets.Some? && n < |source.wallets.value|
    requires FreshIds(uuid, base.accounts, base.wallets.value) && MergedSoFar(base, source, n, s, uuid)
    requires MergeOne(o, name, source, n, s, uuid).Success?
    ensures
      var t := MergeOne(o, name, source, n, s, uuid).value;
      t.firstNew.Some? ==> SelectsOne(base, source, t.accounts, t.firstNew.value)
  {
    var w := source.wallets.value[n];
    var knownRoot := KnownRoot(s.wallets, w.recoveryMnemonic);
    var walletId := if knownRoot.Some? then knownRoot.value else uuid(s.next);
    var drawn := if knownRoot.Some? then s.next else s.next + 1;
    var additions := AdditionsOf(s.accounts, source.accounts, |source.accounts|, w, walletId, uuid, drawn);
    if additions != [] {
      if s.firstNew.None? {
        FirstSelected(base, source, n, s, uuid, walletId, drawn);
      } else {
        var k :| SelectsFrom(base, source, s.accounts, s.firstNew.value, k);
        SelectedStays(base, source, s.accounts, additions, s.firstNew.value, k);
      }
    }
  }

  lemma {:induction false} MergeUpToStops(o: Oracle, name: Option<string>, base: Payload, source: Payload, n: nat,
                                          m: nat, uuid: Ids)
    requires base.wallets.Some? && source.wallets.Some? && n <= m <= |source.wallets.value|
    requires MergeUpTo(o, name, base, source, n, uuid).Failure?
    ensures MergeUpTo(o, name, base, source, m, uuid) == MergeUpTo(o, name, base, source, n, uuid)
  {
    if n < m {
      MergeUpToStops(o, name, base, source, n, m - 1, uuid);
    }
  }

  /** What the loop promises of its result after `n` source wallets. */
  ghost predicate LoopOk(o: Oracle, name: Option<string>, base: Payload, source: Payload, n: nat,
                         r: Result<Merging, Error>, uuid: Ids)
    requires base.wallets.Some? && source.wallets.Some? && n <= |source.wallets.value|
  {
    match r
    case Success(s) =>
      && MergedSoFar(base, source, n, s, uuid) && AllNamed(o, name, source, s.wallets, |base.wallets.value|)
      && (s.firstNew.Some? ==> NameShort(o, name))
    case Failure(e) => e == NameInvalid && !BaseCovers(base, source) && NameTooLong(o, name)
  }

  ghost predicate NameShort(o: Oracle, name: Option<string>) {
    exists wallets :: |WalletName(o, name, wallets)| <= MAX_NAME
  }

  ghost predicate NameTooLong(o: Oracle, name: Option<string>) {
    exists wallets :: |WalletName(o, name, wallets)| > MAX_NAME
  }

  lemma LoopStep(o: Oracle, name: Option<string>, base: Payload, source: Payload, n: nat, s: Merging, uuid: Ids)
    requires base.wallets.Some? && source.wallets.Some? && n < |source.wallets.value|
    requires FreshIds(uuid, base.accounts, base.wallets.value) && LoopOk(o, name, base, source, n, Success(s), uuid)
    ensures LoopOk(o, name, base, source, n + 1, MergeOne(o, name, source, n, s, uuid), uuid)
  {
    MergeOneMerges(o, name, base, source, n, s, uuid);
    var r := MergeOne(o, name, source, n, s, uuid);
    if r.Success? {
      SelectionGoesOn(o, name, base, source, n, s, uuid);
      MergeGoesOn(base, source, n, s, r.value, uuid);
      NamedGrows(o, name, source, n, s.wallets, r.value.wallets, |base.wallets.value|);
    } else if BaseCovers(base, source) {
      BaseCoversEach(base, source, n);
    }
  }

  lemma BaseCoversEach(base: Payload, source: Payload, n: nat)
    requires base.wallets.Some? && source.wallets.Some? && n < |source.wallets.value|
    requires BaseCovers(base, source)
    ensures Covered(base.wallets.value, base.accounts, source.accounts, source.wallets.value[n])
  {
    assert Covered(base.wallets.value, base.accounts, source.accounts, source.wallets.value[n]);
  }

  /** The loop keeps its promises, whatever the number of source wallets. */
  lemma {:induction false} MergeUpToMerges(o: Oracle, name: Option<string>, base: Payload, source: Payload, n: nat,
                                           uuid: Ids)
    requires base.wallets.Some? && source.wallets.Some? && n <= |source.wallets.value|
    requires FreshIds(uuid, base.accounts, base.wallets.value) && Assigned(base.wallets.value, base.accounts)
    ensures LoopOk(o, name, base, source, n, MergeUpTo(o, name, base, source, n, uuid), uuid)
  {
    if n == 0 {
      MergeStarts(base, source, uuid);
    } else {
      MergeUpToMerges(o, name, base, source, n - 1, uuid);
      LoopGoesOn(o, name, base, source, n - 1, uuid);
    }
  }

  lemma LoopGoesOn(o: Oracle, name: Option<string>, base: Payload, source: Payload, n: nat, uuid: Ids)
    requires base.wallets.Some? && source.wallets.Some? && n < |source.wallets.value|
    requires FreshIds(uuid, base.accounts, base.wallets.value)
    requires LoopOk(o, name, base, source, n, MergeUpTo(o, name, base, source, n, uuid), uuid)
    ensures LoopOk(o, name, base, source, n + 1, MergeUpTo(o, name, base, source, n + 1, uuid), uuid)
  {
    var before := MergeUpTo(o, name, base, source, n, uuid);
    if before.Success? {
      LoopStep(o, name, base, source, n, before.value, uuid);
      MergeUpToNext(o, name, base, source, n, before.value, uuid);
    } else {
      MergeUpToStops(o, name, base, source, n, n + 1, uuid);
    }
  }

  lemma MergeUpToNext(o: Oracle, name: Option<string>, base: Payload, source: Payload, n: nat, s: Merging, uuid: Ids)
    requires base.wallets.Some? && source.wallets.Some? && n < |source.wallets.value|
    requires MergeUpTo(o, name, base, source, n, uuid) == Success(s)
    ensures MergeUpTo(o, name, base, source, n + 1, uuid) == MergeOne(o, name, source, n, s, uuid)
  {
  }

  method MergeAll(o: Oracle, base: Payload, source: Payload, name: Option<string>, uuid: Ids)
    returns (r: Result<Merging, Error>)
    requires base.wallets.Some? && source.wallets.Some?
    ensures r == MergeUpTo(o, name, base, source, |source.wallets.value|, uuid)
  {
    var wallets := source.wallets.value;
    var s := Merging(base.wallets.value, base.accounts, 0, None);
    for n := 0 to |wallets|
      invariant MergeUpTo(o, name, base, source, n, uuid) == Success(s)
    {
      var merged := MergeWallet(o, name, source, n, s, uuid);
      MergeUpToNext(o, name, base, source, n, s, uuid);
      if merged.Failure? {
        MergeUpToStops(o, name, base, source, n + 1, |wallets|, uuid);
        return merged;
      }
      s := merged.value;
    }
    return Success(s);
  }
}
