/** Importing into a vault (`mergeVaultAccounts`) and renaming a wallet (`renameVaultWallet`),
    apps/extension/src/vault.ts. */
module VaultEdits {
  import opened Wrappers
  import opened VaultModel
  import opened VaultLegacy
  import opened VaultMerge

  // ---------- The merge ----------

  /** What a successful merge gives: the grouped vault extended by copies of source accounts under
      new ids, valid again, with every source account in its place. */
  ghost predicate Merged(o: Oracle, base: Payload, source: Payload, m: Payload, uuid: Ids) {
    && base.wallets.Some? && source.wallets.Some? && m.wallets.Some?
    && Valid(o, m) && m.recoveryMnemonic == base.recoveryMnemonic
    && (exists n :: Extends(base, m.wallets.value, m.accounts, source, uuid, n))
    && |m.accounts| > |base.accounts|
    && AllPlaced(m.wallets.value, m.accounts, |base.accounts|, source)
    && AllCovered(m.wallets.value, m.accounts, source, |source.wallets.value|)
    && (NoDuplicates(base.accounts) && NoDuplicates(source.accounts) ==> NoDuplicates(m.accounts))
    && SelectsOne(base, source, m.accounts, m.selectedAccountId)
  }

  /** There is nothing left to add. */
  ghost predicate NothingToAdd(o: Oracle, existing: Payload, imported: Payload) {
    && Grouped(o, existing).Success? && Grouped(o, imported).Success?
    && Grouped(o, existing).value.wallets.Some? && Grouped(o, imported).value.wallets.Some?
    && BaseCovers(Grouped(o, existing).value, Grouped(o, imported).value)
  }

  /** A vault that covers an import is left alone by another merge of that import. */
  lemma CoveredStaysCovered(o: Oracle, m: Payload, imported: Payload)
    requires m.wallets.Some? && Valid(o, m)
    requires Grouped(o, imported).Success? && Grouped(o, imported).value.wallets.Some?
    requires BaseCovers(m, Grouped(o, imported).value)
    ensures NothingToAdd(o, m, imported)
  {
    assert Grouped(o, m) == Success(m);
  }

  /** A payload that passes validation and can be grouped. */
  ghost predicate Groupable(o: Oracle, p: Payload) {
    Valid(o, p) && Grouped(o, p).Success?
  }

  lemma GroupedIsAssigned(o: Oracle, p: Payload)
    requires Groupable(o, p)
    ensures var g := Grouped(o, p).value; g.wallets.Some? && Assigned(g.wallets.value, g.accounts)
  {
    GroupingExact(o, p);
  }

  lemma MergedIsValid(o: Oracle, base: Payload, source: Payload, s: Merging, m: Payload, uuid: Ids)
    requires base.wallets.Some? && source.wallets.Some? && MergedSoFar(base, source, |source.wallets.value|, s, uuid)
    requires s.firstNew.Some? && Valid(o, m) && m == ResultOf(base, s)
    ensures Merged(o, base, source, m, uuid)
  {
    assert Extends(base, m.wallets.value, m.accounts, source, uuid, s.next);
  }

  function ResultOf(base: Payload, s: Merging): Payload
    requires s.firstNew.Some?
  {
    base.(wallets := Some(s.wallets), accounts := s.accounts, selectedAccountId := s.firstNew.value)
  }

  // ---------- When the result is valid ----------

  /** UUIDs fit the limit on ids; trimming is idempotent and does not lengthen; a proposed name, the
      first one in particular, is neither blank nor too long. */
  ghost predicate Lawful(o: Oracle, uuid: Ids) {
    && (forall i :: 0 < |uuid(i)| <= MAX_ID)
    && TrimLawful(o) && NamesLawful(o)
    && (forall wallets :: !Blank(o, o.nextName(wallets)) && |o.nextName(wallets)| <= MAX_NAME)
  }

  ghost predicate TrimLawful(o: Oracle) {
    forall s :: o.trim(o.trim(s)) == o.trim(s) && |o.trim(s)| <= |s|
  }

  /** The name given for an import, trimmed; a blank one counts as none. */
  function Given(o: Oracle, name: Option<string>): (r: Option<string>)
    ensures r.None? <==> name.None? || o.trim(name.value) == ""
    ensures r.Some? ==> r.value == o.trim(name.value)
  {
    if name.Some? && !Blank(o, name.value) then Some(o.trim(name.value)) else None
  }

  lemma GivenNotBlank(o: Oracle, name: Option<string>)
    requires TrimLawful(o)
    ensures Given(o, name).Some? ==> !Blank(o, Given(o, name).value)
  {
  }

  /** The accounts and phrases of an import are in order; its names and seeds need not be. */
  ghost predicate SourceOk(o: Oracle, source: Payload) {
    && source.wallets.Some? && AccountsOk(o, source.accounts)
    && forall k :: 0 <= k < |source.wallets.value| ==> MnemonicOk(o, source.wallets.value[k].recoveryMnemonic)
  }

  /** The account matches the phrase of its wallet, if that has one. */
  ghost predicate SeedFits(o: Oracle, wallets: seq<Wallet>, a: Account) {
    forall i :: 0 <= i < |wallets| && a.walletId == Some(wallets[i].id) && wallets[i].recoveryMnemonic != "" ==>
      o.matchesSeed(wallets[i].recoveryMnemonic, KeyOf(a))
  }

  /** The wallets added have names that fit, and the accounts added match the phrases they are put under. */
  ghost predicate AddedFits(o: Oracle, base: Payload, s: Merging)
    requires base.wallets.Some?
  {
    && (forall i {:trigger NameFits(o, s.wallets[i].name)} ::
          |base.wallets.value| <= i < |s.wallets| ==> NameFits(o, s.wallets[i].name))
    && (forall a {:trigger SeedFits(o, s.wallets, s.accounts[a])} ::
          |base.accounts| <= a < |s.accounts| ==> SeedFits(o, s.wallets, s.accounts[a]))
  }

  /** A valid grouped payload, an import and the result of the loop over the import. */
  ghost predicate Finished(o: Oracle, name: Option<string>, base: Payload, source: Payload, s: Merging, uuid: Ids) {
    && base.wallets.Some? && Valid(o, base) && SourceOk(o, source)
    && FreshIds(uuid, base.accounts, base.wallets.value) && (forall i :: 0 < |uuid(i)| <= MAX_ID)
    && MergeOk(base, source, s, uuid) && AllNamed(o, name, source, s.wallets, |base.wallets.value|)
  }

  lemma FinishedAccount(o: Oracle, name: Option<string>, base: Payload, source: Payload, s: Merging, uuid: Ids, i: nat)
    requires Finished(o, name, base, source, s, uuid) && i < |s.accounts|
    ensures AccountOk(o, s.accounts[i])
    ensures i < |base.accounts| ==> s.accounts[i] == base.accounts[i]
    ensures i >= |base.accounts| ==> forall k :: 0 <= k < |base.accounts| ==> s.accounts[i].id != base.accounts[k].id
  {
    if i < |base.accounts| {
      assert s.accounts[i] == s.accounts[..|base.accounts|][i];
    } else {
      assert NewAccount(s.accounts[i], source, uuid, s.next);
      var j :| 0 <= j < |source.accounts| && CopyOf(s.accounts[i], source.accounts[j]);
      assert AccountOk(o, source.accounts[j]);
    }
  }

  lemma FinishedAccounts(o: Oracle, name: Option<string>, base: Payload, source: Payload, s: Merging, uuid: Ids)
    requires Finished(o, name, base, source, s, uuid)
    ensures AccountsOk(o, s.accounts)
  {
    forall i | 0 <= i < |s.accounts| ensures AccountOk(o, s.accounts[i]) {
      FinishedAccount(o, name, base, source, s, uuid, i);
    }
    forall i, j | 0 <= i < j < |s.accounts| ensures s.accounts[i].id != s.accounts[j].id {
      FinishedAccount(o, name, base, source, s, uuid, i);
      FinishedAccount(o, name, base, source, s, uuid, j);
    }
  }

  lemma FinishedDistinct(o: Oracle, name: Option<string>, base: Payload, source: Payload, s: Merging, uuid: Ids)
    requires Finished(o, name, base, source, s, uuid)
    ensures DistinctWallets(s.wallets)
    ensures forall i :: 0 <= i < |base.wallets.value| ==> s.wallets[i] == base.wallets.value[i]
  {
    var n := |base.wallets.value|;
    forall i | 0 <= i < n ensures s.wallets[i] == base.wallets.value[i] {
      assert s.wallets[i] == s.wallets[..n][i];
    }
    forall i, j | 0 <= i < j < |s.wallets| ensures s.wallets[i].id != s.wallets[j].id {
      if i < n <= j {
        assert Drawn(s.wallets[j].id, uuid, s.next);
      }
    }
  }

  lemma SameWallet(wallets: seq<Wallet>, i: nat, j: nat, a: Account)
    requires DistinctWallets(wallets) && i < |wallets| && j < |wallets|
    requires a.walletId == Some(wallets[i].id) && a.walletId == Some(wallets[j].id)
    ensures i == j
  {
  }

  /** Every account in a recoverable wallet matches its phrase. */
  lemma FinishedSeeds(o: Oracle, name: Option<string>, base: Payload, source: Payload, s: Merging, uuid: Ids, i: nat,
                      a: nat)
    requires Finished(o, name, base, source, s, uuid) && AddedFits(o, base, s) && i < |s.wallets| && a < |s.accounts|
    requires s.accounts[a].walletId == Some(s.wallets[i].id) && s.wallets[i].recoveryMnemonic != ""
    ensures o.matchesSeed(s.wallets[i].recoveryMnemonic, KeyOf(s.accounts[a]))
  {
    FinishedDistinct(o, name, base, source, s, uuid);
    FinishedAccount(o, name, base, source, s, uuid, a);
    if a < |base.accounts| {
      var l :| 0 <= l < |base.wallets.value| && base.wallets.value[l].id == base.accounts[a].walletId.value;
      SameWallet(s.wallets, i, l, s.accounts[a]);
      assert WalletOk(o, base.wallets.value[l], base.accounts);
    } else {
      assert SeedFits(o, s.wallets, s.accounts[a]);
    }
  }

  /** Names, phrases and contents of every wallet are in order. */
  lemma FinishedWallet(o: Oracle, name: Option<string>, base: Payload, source: Payload, s: Merging, uuid: Ids, i: nat)
    requires Finished(o, name, base, source, s, uuid) && AddedFits(o, base, s) && i < |s.wallets|
    ensures WalletOk(o, s.wallets[i], s.accounts)
  {
    var w := s.wallets[i];
    forall a | 0 <= a < |s.accounts| && w.recoveryMnemonic != "" && s.accounts[a].walletId == Some(w.id)
      ensures o.matchesSeed(w.recoveryMnemonic, KeyOf(s.accounts[a]))
    {
      FinishedSeeds(o, name, base, source, s, uuid, i, a);
    }
    if i < |base.wallets.value| {
      OldWallet(o, name, base, source, s, uuid, i);
    } else {
      NewWalletOk(o, name, base, source, s, uuid, i);
      assert NameFits(o, w.name);
    }
  }

  lemma OldWallet(o: Oracle, name: Option<string>, base: Payload, source: Payload, s: Merging, uuid: Ids, i: nat)
    requires Finished(o, name, base, source, s, uuid) && i < |base.wallets.value|
    ensures s.wallets[i] == base.wallets.value[i] && HasAccount(s.accounts, s.wallets[i].id)
    ensures WalletOk(o, s.wallets[i], base.accounts)
  {
    FinishedDistinct(o, name, base, source, s, uuid);
    assert WalletOk(o, base.wallets.value[i], base.accounts);
    var k :| 0 <= k < |base.accounts| && base.accounts[k].walletId == Some(base.wallets.value[i].id);
    FinishedAccount(o, name, base, source, s, uuid, k);
    assert s.accounts[k] == base.accounts[k];
  }

  lemma NewWalletOk(o: Oracle, name: Option<string>, base: Payload, source: Payload, s: Merging, uuid: Ids, i: nat)
    requires Finished(o, name, base, source, s, uuid) && |base.wallets.value| <= i < |s.wallets|
    ensures
      var w := s.wallets[i];
      0 < |w.id| <= MAX_ID && MnemonicOk(o, w.recoveryMnemonic) && HasAccount(s.accounts, w.id)
  {
    assert Drawn(s.wallets[i].id, uuid, s.next);
    assert AddedAt(o, name, source, s.wallets, i);
    var k :| 0 <= k < |source.wallets.value|
             && AddedAs(o, name, source, s.wallets[..i], source.wallets.value[k], s.wallets[i]);
    assert MnemonicOk(o, source.wallets.value[k].recoveryMnemonic);
  }

  lemma FinishedWallets(o: Oracle, name: Option<string>, base: Payload, source: Payload, s: Merging, uuid: Ids)
    requires Finished(o, name, base, source, s, uuid) && AddedFits(o, base, s)
    ensures WalletsOk(o, s.wallets, s.accounts)
  {
    FinishedDistinct(o, name, base, source, s, uuid);
    forall i | 0 <= i < |s.wallets| ensures WalletOk(o, s.wallets[i], s.accounts) {
      FinishedWallet(o, name, base, source, s, uuid, i);
    }
  }

  lemma SizedValid(o: Oracle, base: Payload, s: Merging)
    requires base.wallets.Some? && MnemonicOk(o, base.recoveryMnemonic) && base.wallets.value != []
    requires base.recoveryMnemonic == base.wallets.value[0].recoveryMnemonic
    requires |base.wallets.value| <= |s.wallets| && s.wallets[0] == base.wallets.value[0]
    requires AccountsOk(o, s.accounts) && WalletsOk(o, s.wallets, s.accounts) && Assigned(s.wallets, s.accounts)
    requires s.firstNew.Some? && IsNew(s.accounts, |base.accounts|, s.firstNew.value)
    ensures Valid(o, ResultOf(base, s)) <==> |s.accounts| <= MAX_ACCOUNTS && |s.wallets| <= MAX_WALLETS
  {
  }

  /** The final validation rejects the result only for its size, the names and the seeds of what was added. */
  lemma FinishedValid(o: Oracle, name: Option<string>, base: Payload, source: Payload, s: Merging, uuid: Ids)
    requires Finished(o, name, base, source, s, uuid) && s.firstNew.Some?
    ensures Valid(o, ResultOf(base, s)) <==>
            |s.accounts| <= MAX_ACCOUNTS && |s.wallets| <= MAX_WALLETS && AddedFits(o, base, s)
  {
    if Valid(o, ResultOf(base, s)) {
      ValidFits(o, base, s);
    }
    if AddedFits(o, base, s) {
      FinishedAccounts(o, name, base, source, s, uuid);
      FinishedWallets(o, name, base, source, s, uuid);
      FinishedDistinct(o, name, base, source, s, uuid);
      SizedValid(o, base, s);
    }
  }

  lemma ValidFits(o: Oracle, base: Payload, s: Merging)
    requires base.wallets.Some? && s.firstNew.Some? && Valid(o, ResultOf(base, s))
    ensures AddedFits(o, base, s)
  {
    forall i | 0 <= i < |s.wallets| ensures NameFits(o, s.wallets[i].name) {
      assert WalletOk(o, s.wallets[i], s.accounts);
    }
    forall a | 0 <= a < |s.accounts| ensures SeedFits(o, s.wallets, s.accounts[a]) {
      forall i | 0 <= i < |s.wallets| && s.accounts[a].walletId == Some(s.wallets[i].id)
                 && s.wallets[i].recoveryMnemonic != ""
        ensures o.matchesSeed(s.wallets[i].recoveryMnemonic, KeyOf(s.accounts[a]))
      {
        assert WalletOk(o, s.wallets[i], s.accounts);
      }
    }
  }

  /** What is added from a valid import fits. */
  lemma ValidSourceFits(o: Oracle, name: Option<string>, base: Payload, source: Payload, s: Merging, uuid: Ids)
    requires Finished(o, name, base, source, s, uuid) && Valid(o, source)
    requires forall wallets :: !Blank(o, WalletName(o, name, wallets))
    ensures AddedFits(o, base, s)
  {
    forall i | |base.wallets.value| <= i < |s.wallets| ensures NameFits(o, s.wallets[i].name) {
      assert AddedAt(o, name, source, s.wallets, i);
      var k :| 0 <= k < |source.wallets.value|
               && AddedAs(o, name, source, s.wallets[..i], source.wallets.value[k], s.wallets[i]);
      assert !Blank(o, WalletName(o, name, s.wallets[..i]));
      assert WalletOk(o, source.wallets.value[k], source.accounts);
    }
    FinishedDistinct(o, name, base, source, s, uuid);
    forall a | |base.accounts| <= a < |s.accounts| ensures SeedFits(o, s.wallets, s.accounts[a]) {
      forall i | 0 <= i < |s.wallets| && s.accounts[a].walletId == Some(s.wallets[i].id)
                 && s.wallets[i].recoveryMnemonic != ""
        ensures o.matchesSeed(s.wallets[i].recoveryMnemonic, KeyOf(s.accounts[a]))
      {
        NewSeed(o, base, source, s, i, a);
      }
    }
  }

  lemma NewSeed(o: Oracle, base: Payload, source: Payload, s: Merging, i: nat, a: nat)
    requires source.wallets.Some? && Valid(o, source) && DistinctWallets(s.wallets)
    requires AllPlaced(s.wallets, s.accounts, |base.accounts|, source)
    requires i < |s.wallets| && |base.accounts| <= a < |s.accounts|
    requires s.accounts[a].walletId == Some(s.wallets[i].id) && s.wallets[i].recoveryMnemonic != ""
    ensures o.matchesSeed(s.wallets[i].recoveryMnemonic, KeyOf(s.accounts[a]))
  {
    var b := s.accounts[a];
    assert Placed(s.wallets, b, source);
    var j, k :| 0 <= j < |source.accounts| && 0 <= k < |source.wallets.value|
      && CopyOf(b, source.accounts[j]) && source.accounts[j].walletId == Some(source.wallets.value[k].id)
      && Holds(s.wallets, b.walletId, source.wallets.value[k].recoveryMnemonic);
    var l :| 0 <= l < |s.wallets| && b.walletId == Some(s.wallets[l].id)
      && s.wallets[l].recoveryMnemonic == source.wallets.value[k].recoveryMnemonic;
    SameWallet(s.wallets, i, l, b);
    assert WalletOk(o, source.wallets.value[k], source.accounts);
    assert KeyOf(b) == KeyOf(source.accounts[j]);
  }

  // ---------- What grouping gives the merge ----------

  lemma GroupedSource(o: Oracle, p: Payload)
    requires Groupable(o, p)
    ensures SourceOk(o, Grouped(o, p).value)
  {
    var g := Grouped(o, p).value;
    if p.wallets.None? {
      LegacyAccounts(o, p);
    }
    forall k | 0 <= k < |g.wallets.value| ensures MnemonicOk(o, g.wallets.value[k].recoveryMnemonic) {
      if p.wallets.None? {
        LegacyWalletOk(o, p, k);
      } else {
        assert WalletOk(o, g.wallets.value[k], g.accounts);
      }
    }
  }

  /** A valid result has a valid base. */
  lemma ResultNeedsBase(o: Oracle, existing: Payload, s: Merging)
    requires Groupable(o, existing)
    requires
      var base := Grouped(o, existing).value;
      && base.wallets.Some? && s.firstNew.Some? && Valid(o, ResultOf(base, s))
      && base.accounts <= s.accounts && base.wallets.value <= s.wallets
    ensures Valid(o, Grouped(o, existing).value)
  {
    if existing.wallets.None? {
      var base := LegacyGroups(o, existing);
      var wallets := base.wallets.value;
      ValidFits(o, base.(accounts := [], wallets := Some([])), s);
      forall j | 0 <= j < |wallets| ensures NameFits(o, wallets[j].name) {
        assert s.wallets[j] == wallets[j];
      }
      PrefixSeeds(o, existing, s);
      LegacyValidExactly(o, existing, wallets);
      assert WithWallets(o, existing, wallets) == base;
    }
  }

  lemma PrefixSeeds(o: Oracle, existing: Payload, s: Merging)
    requires Legacy(o, existing)
    requires LegacyGroups(o, existing).accounts <= s.accounts && LegacyGroups(o, existing).wallets.value <= s.wallets
    requires forall a {:trigger SeedFits(o, s.wallets, s.accounts[a])} ::
               0 <= a < |s.accounts| ==> SeedFits(o, s.wallets, s.accounts[a])
    ensures SeedsOk(o, existing)
  {
    var base := LegacyGroups(o, existing);
    LegacyRecoverable(o, existing);
    forall i | 0 <= i < |existing.accounts| && Belongs(o, existing, existing.accounts[i])
      ensures o.matchesSeed(existing.recoveryMnemonic, KeyOf(existing.accounts[i]))
    {
      assert UnderPhrase(base, i, existing.recoveryMnemonic);
      var j :| 0 <= j < |base.wallets.value| && base.accounts[i].walletId == Some(base.wallets.value[j].id)
               && base.wallets.value[j].recoveryMnemonic == existing.recoveryMnemonic;
      assert s.wallets[j] == base.wallets.value[j] && s.accounts[i] == base.accounts[i];
      assert SeedFits(o, s.wallets, s.accounts[i]);
      assert KeyOf(base.accounts[i]) == KeyOf(existing.accounts[i]);
    }
  }

  // ---------- The method ----------

  ghost predicate NameFree(o: Oracle, given: Option<string>, base: Payload)
    requires base.wallets.Some?
  {
    given.Some? ==> !NameTakenIn(o, base.wallets.value, given.value)
  }

  /** The names and numbers are right: the given name is free and short enough, something is missing,
      and there is room for it. */
  ghost predicate RoomAndName(o: Oracle, given: Option<string>, base: Payload, source: Payload, uuid: Ids)
    requires base.wallets.Some? && source.wallets.Some?
  {
    && NameFree(o, given, base) && (given.Some? ==> |given.value| <= MAX_NAME)
    && !BaseCovers(base, source)
    && var r := MergeUpTo(o, given, base, source, |source.wallets.value|, uuid);
       r.Success? ==> |r.value.accounts| <= MAX_ACCOUNTS && |r.value.wallets| <= MAX_WALLETS
  }

  /** The parts of the import that are missing pass validation. */
  ghost predicate ImportFits(o: Oracle, given: Option<string>, base: Payload, source: Payload, uuid: Ids)
    requires base.wallets.Some? && source.wallets.Some?
  {
    var r := MergeUpTo(o, given, base, source, |source.wallets.value|, uuid);
    r.Success? ==> AddedFits(o, base, r.value)
  }

  lemma LawfulLoop(o: Oracle, given: Option<string>, base: Payload, source: Payload, uuid: Ids)
    requires Lawful(o, uuid) && base.wallets.Some? && source.wallets.Some?
    requires LoopOk(o, given, base, source, |source.wallets.value|,
                    MergeUpTo(o, given, base, source, |source.wallets.value|, uuid), uuid)
    ensures
      var r := MergeUpTo(o, given, base, source, |source.wallets.value|, uuid);
      && (r.Success? && r.value.firstNew.Some? ==> given.Some? ==> |given.value| <= MAX_NAME)
      && (r.Failure? ==> given.Some? && |given.value| > MAX_NAME)
  {
  }

  lemma LawfulFinish(o: Oracle, given: Option<string>, base: Payload, source: Payload, s: Merging, uuid: Ids)
    requires Lawful(o, uuid) && base.wallets.Some? && Valid(o, base) && SourceOk(o, source)
    requires FreshIds(uuid, base.accounts, base.wallets.value) && (given.Some? ==> !Blank(o, given.value))
    requires LoopOk(o, given, base, source, |source.wallets.value|, Success(s), uuid) && s.firstNew.Some?
    ensures Valid(o, ResultOf(base, s)) <==>
            |s.accounts| <= MAX_ACCOUNTS && |s.wallets| <= MAX_WALLETS && AddedFits(o, base, s)
    ensures Valid(o, source) ==> AddedFits(o, base, s)
  {
    assert Finished(o, given, base, source, s, uuid);
    FinishedValid(o, given, base, source, s, uuid);
    if Valid(o, source) {
      ValidSourceFits(o, given, base, source, s, uuid);
    }
  }

  /** The merge of grouped payloads: what it gives, and when. */
  method MergeGrouped(o: Oracle, base: Payload, source: Payload, given: Option<string>, uuid: Ids)
    returns (r: Result<Payload, Error>)
    requires base.wallets.Some? && source.wallets.Some? && Assigned(base.wallets.value, base.accounts)
    requires FreshIds(uuid, base.accounts, base.wallets.value)
    ensures r.Success? ==> Merged(o, base, source, r.value, uuid)
    ensures r.Success? ==> AllNamed(o, given, source, r.value.wallets.value, |base.wallets.value|)
    ensures r == Failure(NameTaken) <==> !NameFree(o, given, base)
    ensures r == Failure(AlreadyImported) <==> NameFree(o, given, base) && BaseCovers(base, source)
    ensures r.Failure? ==> r.error in {NameTaken, NameInvalid, AlreadyImported, InvalidGroups}
    ensures r.Success? ==> exists s: Merging :: s.firstNew.Some? && r.value == ResultOf(base, s)
    ensures Lawful(o, uuid) && Valid(o, base) && SourceOk(o, source) && (given.Some? ==> !Blank(o, given.value)) ==>
              && (r.Success? <==> RoomAndName(o, given, base, source, uuid) && ImportFits(o, given, base, source, uuid))
              && (Valid(o, source) ==> (r.Success? <==> RoomAndName(o, given, base, source, uuid)))
  {
    if given.Some? && NameTakenIn(o, base.wallets.value, given.value) {
      return Failure(NameTaken);
    }
    var merged := MergeAll(o, base, source, given, uuid);
    MergeUpToMerges(o, given, base, source, |source.wallets.value|, uuid);
    if Lawful(o, uuid) {
      LawfulLoop(o, given, base, source, uuid);
    }
    if merged.Failure? {
      return Failure(merged.error);
    }
    if merged.value.firstNew.None? {
      return Failure(AlreadyImported);
    }
    var result := ResultOf(base, merged.value);
    if Lawful(o, uuid) && Valid(o, base) && SourceOk(o, source) && (given.Some? ==> !Blank(o, given.value)) {
      LawfulFinish(o, given, base, source, merged.value, uuid);
    }
    var resultOk := ValidateVaultPayload(o, result);
    if !resultOk {
      return Failure(InvalidGroups);
    }
    MergedIsValid(o, base, source, merged.value, result, uuid);
    return Success(result);
  }

  method MergeVaultAccounts(o: Oracle, existing: Payload, imported: Payload, name: Option<string>, uuid: Ids)
    returns (r: Result<Payload, Error>)
    requires Grouped(o, existing).Success? ==>
               var g := Grouped(o, existing).value;
               g.wallets.Some? && FreshIds(uuid, g.accounts, g.wallets.value)
    ensures r.Success? ==> Groupable(o, existing) && Groupable(o, imported)
    ensures r.Success? ==> Merged(o, Grouped(o, existing).value, Grouped(o, imported).value, r.value, uuid)
    ensures r.Success? ==>
              AllNamed(o, Given(o, name), Grouped(o, imported).value, r.value.wallets.value,
                       |Grouped(o, existing).value.wallets.value|)
    ensures r.Success? ==> NothingToAdd(o, r.value, imported)
    ensures Groupable(o, existing) && Groupable(o, imported) ==>
              var base, source, given := Grouped(o, existing).value, Grouped(o, imported).value, Given(o, name);
              && base.wallets.Some? && source.wallets.Some?
              && (r == Failure(NameTaken) <==> !NameFree(o, given, base))
              && (r == Failure(AlreadyImported) <==> NameFree(o, given, base) && NothingToAdd(o, existing, imported))
              && (Lawful(o, uuid) ==>
                    && (r.Success? <==>
                          GroupsSoundly(o, existing, None) && RoomAndName(o, given, base, source, uuid)
                          && ImportFits(o, given, base, source, uuid))
                    && (GroupsSoundly(o, imported, None) ==>
                          (r.Success? <==>
                             GroupsSoundly(o, existing, None) && RoomAndName(o, given, base, source, uuid))))
  {
    var existingOk := ValidateVaultPayload(o, existing);
    var importedOk := ValidateVaultPayload(o, imported);
    if !existingOk || !importedOk {
      return Failure(InvalidContents);
    }
    var base :- GroupedVault(o, existing);
    var source :- GroupedVault(o, imported);
    GroupedIsAssigned(o, existing);
    GroupedIsAssigned(o, imported);
    if TrimLawful(o) {
      GivenNotBlank(o, name);
    }
    r := MergeGrouped(o, base, source, Given(o, name), uuid);
    GroupedSource(o, imported);
    if Lawful(o, uuid) {
      GroupedValidExactly(o, existing);
      GroupedValidExactly(o, imported);
    }
    if r.Success? {
      ghost var s: Merging :| s.firstNew.Some? && r.value == ResultOf(base, s);
      ghost var n :| Extends(base, r.value.wallets.value, r.value.accounts, source, uuid, n);
      ResultNeedsBase(o, existing, s);
      CoveredStaysCovered(o, r.value, imported);
    }
  }

  /** What a merge means for the accounts: the old ones unchanged and in place, every other one a copy
      of a source account under a new id, all in non-empty wallets. */
  lemma MergeKeepsExisting(o: Oracle, base: Payload, source: Payload, m: Payload, uuid: Ids, i: nat)
    requires Merged(o, base, source, m, uuid) && FreshIds(uuid, base.accounts, base.wallets.value)
    requires i < |m.accounts|
    ensures i < |base.accounts| ==> m.accounts[i] == base.accounts[i]
    ensures i >= |base.accounts| ==> Placed(m.wallets.value, m.accounts[i], source)
    ensures i >= |base.accounts| ==> forall k :: 0 <= k < |base.accounts| ==> m.accounts[i].id != base.accounts[k].id
    ensures base.wallets.value <= m.wallets.value && Partitioned(m.wallets.value, m.accounts)
  {
    var n :| Extends(base, m.wallets.value, m.accounts, source, uuid, n);
    if i < |base.accounts| {
      assert m.accounts[i] == m.accounts[..|base.accounts|][i];
    } else {
      assert NewAccount(m.accounts[i], source, uuid, n);
    }
    forall j | 0 <= j < |m.wallets.value| ensures HasAccount(m.accounts, m.wallets.value[j].id) {
      assert WalletOk(o, m.wallets.value[j], m.accounts);
    }
  }

  // ---------- Renaming ----------

  function IndexOfWallet(wallets: seq<Wallet>, id: string): (r: Option<nat>)
    ensures r.Some? ==> r.value < |wallets| && wallets[r.value].id == id
    ensures r.None? <==> !HasWallet(wallets, id)
  {
    if wallets == [] then None
    else if wallets[0].id == id then Some(0)
    else
      var rest := IndexOfWallet(wallets[1..], id);
      assert HasWallet(wallets[1..], id) ==> HasWallet(wallets, id) by {
        if HasWallet(wallets[1..], id) {
          var i :| 0 <= i < |wallets[1..]| && wallets[1..][i].id == id;
          assert wallets[i + 1].id == id;
        }
      }
      assert forall i :: 1 <= i < |wallets| ==> wallets[i] == wallets[1..][i - 1];
      if rest.Some? then Some(rest.value + 1) else None
  }

  /** Another wallet shows this name. */
  predicate OtherHas(o: Oracle, wallets: seq<Wallet>, walletId: string, name: string) {
    exists i :: 0 <= i < |wallets| && wallets[i].id != walletId && SameName(o, wallets[i].name, name)
  }

  ghost predicate Renames(g: Payload, walletId: string, name: string, r: Payload) {
    g.wallets.Some? &&
    exists i :: 0 <= i < |g.wallets.value| && g.wallets.value[i].id == walletId
      && r == g.(wallets := Some(g.wallets.value[i := g.wallets.value[i].(name := name)]))
  }

  /** Changes one wallet's name, to the trimmed one, and nothing else of the grouped vault; every way to
      fail has its cause. */
  method RenameVaultWallet(o: Oracle, payload: Payload, walletId: string, name: string)
    returns (r: Result<Payload, Error>)
    ensures r == Failure(NameInvalid) <==> !NameFits(o, name)
    ensures r.Success? ==> Grouped(o, payload).Success? && Valid(o, r.value)
    ensures r.Success? ==> Renames(Grouped(o, payload).value, walletId, o.trim(name), r.value)
    ensures NameFits(o, name) && Grouped(o, payload).Failure? ==> r == Failure(Grouped(o, payload).error)
    ensures NameFits(o, name) && Grouped(o, payload).Success? ==>
              var wallets := Grouped(o, payload).value.wallets;
              && wallets.Some?
              && (r == Failure(UnknownWallet) <==> !HasWallet(wallets.value, walletId))
              && (r == Failure(NameTaken) <==>
                    HasWallet(wallets.value, walletId) && OtherHas(o, wallets.value, walletId, o.trim(name)))
    ensures TrimLawful(o) && NamesLawful(o) && Grouped(o, payload).Success? ==>
              var wallets := Grouped(o, payload).value.wallets;
              && wallets.Some?
              && (r.Success? <==>
                    NameFits(o, name) && HasWallet(wallets.value, walletId)
                    && !OtherHas(o, wallets.value, walletId, o.trim(name))
                    && GroupsSoundly(o, payload, Some(walletId)))
  {
    GroupedHasWallets(o, payload);
    if Blank(o, name) || |name| > MAX_NAME {
      return Failure(NameInvalid);
    }
    var trimmed := o.trim(name);
    var g :- GroupedVault(o, payload);
    var wallets := g.wallets.value;
    var at := IndexOfWallet(wallets, walletId);
    if at.None? {
      return Failure(UnknownWallet);
    }
    if exists i :: 0 <= i < |wallets| && wallets[i].id != walletId && SameName(o, wallets[i].name, trimmed) {
      return Failure(NameTaken);
    }
    var result := g.(wallets := Some(wallets[at.value := wallets[at.value].(name := trimmed)]));
    if TrimLawful(o) && NamesLawful(o) {
      RenamedValidExactly(o, payload, at.value, trimmed);
    }
    var ok := ValidateVaultPayload(o, result);
    if !ok {
      return Failure(InvalidGroups);
    }
    return Success(result);
  }

  lemma GroupedHasWallets(o: Oracle, p: Payload)
    ensures Grouped(o, p).Success? ==> Grouped(o, p).value.wallets.Some?
    ensures Grouped(o, p).Failure? ==> Grouped(o, p).error in {InvalidContents, Unmatched}
  {
  }
}
