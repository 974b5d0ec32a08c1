/** Importing a proposal (`SAFE_IMPORT`, apps/extension/src/background.ts) and executing it: the merge
    with the stored version, the validation of the result and the signature blob
    (apps/extension/src/safe.ts). */
module SafeImport {
  import opened Wrappers
  import opened SafeProposals
  import opened SafeMerge

  // ---------- Merging keeps entries acceptable ----------

  lemma SetEntryHas(entries: seq<Entry>, e: Entry, x: Entry)
    requires DistinctOwners(entries)
    ensures x in SetEntry(entries, e) <==> x == e || (x in entries && Key(x) != Key(e))
  {
    var r, at := SetEntry(entries, e), Find(entries, Key(e));
    assert r[if at.Some? then at.value else |entries|] == e;
    if x in entries && Key(x) != Key(e) {
      var i :| 0 <= i < |entries| && entries[i] == x;
      assert r[i] == x;
    }
    if x in r && x != e {
      var i :| 0 <= i < |r| && r[i] == x;
      assert entries[i] == x;
    }
  }

  /** A list's map has each owner once, and the same signatures. */
  lemma {:induction false} FromListOwners(entries: seq<Entry>)
    ensures DistinctOwners(FromList(entries)) && ByOwner(FromList(entries)) == ByOwner(entries)
  {
    if entries != [] {
      FromListOwners(entries[..|entries| - 1]);
      SetEntryByOwner(FromList(entries[..|entries| - 1]), entries[|entries| - 1]);
    }
  }

  lemma SignsSnoc(init: seq<Entry>, e: Entry, o: string)
    ensures Signs(init + [e], o) <==> Signs(init, o) || Key(e) == o
  {
    assert (init + [e])[|init|] == e;
    if Signs(init, o) {
      var i :| 0 <= i < |init| && Key(init[i]) == o;
      assert (init + [e])[i] == init[i];
    }
  }

  /** The result has each owner's last entry, and the others' of the base. */
  lemma {:induction false} MergedHas(base: seq<Entry>, entries: seq<Entry>, x: Entry)
    requires DistinctOwners(base) && MergeInto(base, entries).Some?
    ensures x in MergeInto(base, entries).value
       <==> x in FromList(entries) || (x in base && !Signs(entries, Key(x)))
  {
    if entries != [] {
      var init, e := entries[..|entries| - 1], entries[|entries| - 1];
      assert entries == init + [e];
      MergedHas(base, init, x);
      MergeIsUnion(base, init);
      FromListOwners(init);
      SignsSnoc(init, e, Key(x));
      SetEntryHas(MergeInto(base, init).value, e, x);
      SetEntryHas(FromList(init), e, x);
    }
  }

  ghost predicate AllChecked(c: Crypto, hash: string, entries: seq<Entry>, owners: seq<string>) {
    forall i {:trigger Checked(c, hash, entries[i], owners)} ::
      0 <= i < |entries| ==> Checked(c, hash, entries[i], owners).Some?
  }

  lemma VerifiedChecked(c: Crypto, p: Proposal, owners: seq<string>)
    requires Lawful(c) && Verified(c, p, owners)
    ensures AllChecked(c, p.safeTxHash, p.signatures, owners)
  {
    forall i | 0 <= i < |p.signatures| ensures Checked(c, p.safeTxHash, p.signatures[i], owners).Some? {
      VerifiedAgain(c, p, owners, i);
    }
  }

  lemma CaseIgnored(c: Crypto, h: string, k: string, entries: seq<Entry>, owners: seq<string>)
    requires HexLawful(c) && Lower(h) == Lower(k) && AllChecked(c, h, entries, owners)
    ensures AllChecked(c, k, entries, owners)
  {
    forall i | 0 <= i < |entries| ensures Checked(c, k, entries[i], owners).Some? {
      assert c.recover(h, entries[i].signature) == c.recover(k, entries[i].signature);
      assert Checked(c, h, entries[i], owners).Some?;
    }
  }

  lemma EitherHash(c: Crypto, h: string, k: string, entries: seq<Entry>, owners: seq<string>)
    requires HexLawful(c) && Lower(h) == Lower(k)
    ensures AllChecked(c, h, entries, owners) <==> AllChecked(c, k, entries, owners)
  {
    if AllChecked(c, h, entries, owners) {
      CaseIgnored(c, h, k, entries, owners);
    }
    if AllChecked(c, k, entries, owners) {
      CaseIgnored(c, k, h, entries, owners);
    }
  }

  lemma PartChecked(c: Crypto, hash: string, all: seq<Entry>, part: seq<Entry>, owners: seq<string>)
    requires AllChecked(c, hash, all, owners) && forall i :: 0 <= i < |part| ==> part[i] in all
    ensures AllChecked(c, hash, part, owners)
  {
    forall i | 0 <= i < |part| ensures Checked(c, hash, part[i], owners).Some? {
      var k :| 0 <= k < |all| && all[k] == part[i];
      assert Checked(c, hash, all[k], owners).Some?;
    }
  }

  /** The merged entries pass the check exactly if the imported ones do, the last of each owner. */
  lemma MergedChecked(c: Crypto, hash: string, a: seq<Entry>, b: seq<Entry>, owners: seq<string>)
    requires AllChecked(c, hash, a, owners) && DistinctOwners(a) && MergeInto(a, b).Some?
    ensures AllChecked(c, hash, MergeInto(a, b).value, owners) <==> AllChecked(c, hash, FromList(b), owners)
  {
    var m, last := MergeInto(a, b).value, FromList(b);
    if AllChecked(c, hash, m, owners) {
      forall i | 0 <= i < |last| ensures last[i] in m {
        MergedHas(a, b, last[i]);
      }
      PartChecked(c, hash, m, last, owners);
    }
    if AllChecked(c, hash, last, owners) {
      forall i | 0 <= i < |m| ensures m[i] in a + last {
        MergedHas(a, b, m[i]);
      }
      forall i | 0 <= i < |a + last| ensures Checked(c, hash, (a + last)[i], owners).Some? {
        if i < |a| {
          assert Checked(c, hash, a[i], owners).Some?;
        } else {
          assert Checked(c, hash, last[i - |a|], owners).Some?;
        }
      }
      PartChecked(c, hash, a + last, m, owners);
    }
  }

  /** The proposal with each owner's last entry only. */
  function Once(p: Proposal): Proposal {
    p.(signatures := FromList(p.signatures))
  }

  /** Acceptable, said of the entries. */
  lemma AcceptableEntries(c: Crypto, p: Proposal, owners: seq<string>)
    requires SameText(c.hash(p.terms), p.safeTxHash) && DistinctOwners(p.signatures)
    ensures Acceptable(c, p, owners) <==> AllChecked(c, p.safeTxHash, p.signatures, owners)
  {
    OwnersDiffer(p);
    if Acceptable(c, p, owners) {
      forall i | 0 <= i < |p.signatures| ensures Checked(c, p.safeTxHash, p.signatures[i], owners).Some? {
        assert Genuine(c, p.safeTxHash, p.signatures[i], owners);
      }
    }
    if AllChecked(c, p.safeTxHash, p.signatures, owners) {
      forall i | 0 <= i < |p.signatures| ensures Genuine(c, p.safeTxHash, p.signatures[i], owners) {
        assert Checked(c, p.safeTxHash, p.signatures[i], owners).Some?;
      }
    }
  }

  lemma SameHash(c: Crypto, a: Proposal, b: Proposal)
    requires SameProposal(c, a, b) && SameText(c.hash(a.terms), a.safeTxHash)
    ensures SameText(c.hash(b.terms), b.safeTxHash)
  {
    LowerExactly(c.hash(a.terms), a.safeTxHash);
    LowerExactly(c.hash(b.terms), b.safeTxHash);
  }

  /** Verification accepts a merge with a verified proposal exactly if it accepts the other one. */
  lemma MergedAcceptable(c: Crypto, a: Proposal, b: Proposal, owners: seq<string>)
    requires Lawful(c) && HexLawful(c) && Verified(c, a, owners)
    requires MergeResult(c, a, b).Success? && DistinctOwners(MergeResult(c, a, b).value.signatures)
    ensures Acceptable(c, MergeResult(c, a, b).value, owners) <==> Acceptable(c, Once(b), owners)
  {
    var m, last := MergeResult(c, a, b).value, Once(b);
    VerifiedDistinct(c, a, owners);
    FromListDistinct(a.signatures);
    FromListOwners(b.signatures);
    VerifiedChecked(c, a, owners);
    MergedChecked(c, a.safeTxHash, a.signatures, b.signatures, owners);
    SameHash(c, a, b);
    AcceptableEntries(c, m, owners);
    AcceptableEntries(c, last, owners);
    EitherHash(c, a.safeTxHash, b.safeTxHash, last.signatures, owners);
  }

  /** The owners who signed. */
  ghost function Signed(p: Proposal): set<string> {
    set e | e in p.signatures :: Key(e)
  }

  /** One proposal, no owner with two signatures. */
  ghost predicate Mergeable(c: Crypto, a: Proposal, b: Proposal) {
    && WellFormed(c, a) && WellFormed(c, b) && SameProposal(c, a, b)
    && Consistent(b.signatures) && Agree(ByOwner(a.signatures), ByOwner(b.signatures))
  }

  /** Verification accepts what a merge with a verified proposal gives exactly if it accepts the other
      one, whose repeated entries the merge drops; the signers are those of both. */
  lemma MergeVerifies(c: Crypto, a: Proposal, b: Proposal, owners: seq<string>)
    requires Lawful(c) && HexLawful(c) && Verified(c, a, owners)
    ensures MergeResult(c, a, b).Success? <==> Mergeable(c, a, b)
    ensures MergeResult(c, a, b).Success? ==>
              var m := MergeResult(c, a, b).value;
              && (Acceptable(c, m, owners) <==> Acceptable(c, Once(b), owners))
              && ByOwner(m.signatures) == ByOwner(a.signatures) + ByOwner(b.signatures)
              && |m.signatures| == Signers(a, b) && DistinctOwners(m.signatures)
  {
    VerifiedDistinct(c, a, owners);
    FromListDistinct(a.signatures);
    MergeIsUnion(a.signatures, b.signatures);
    if MergeResult(c, a, b).Success? {
      OwnersCounted(MergeResult(c, a, b).value.signatures);
      MergedAcceptable(c, a, b, owners);
    }
  }

  /** The owners who signed are owners of the Safe, so there are at most as many of them. */
  lemma AcceptableFew(c: Crypto, p: Proposal, owners: seq<string>)
    requires Acceptable(c, p, owners)
    ensures |p.signatures| <= |owners|
  {
    var all := set i | 0 <= i < |owners| :: Lower(owners[i]);
    ByOwnerKeys(p.signatures);
    forall o | o in ByOwner(p.signatures) ensures o in all {
      assert Signs(p.signatures, o);
      var i :| 0 <= i < |p.signatures| && Key(p.signatures[i]) == o;
      OwnerExactly(p.signatures[i].owner, owners);
    }
    OwnersDiffer(p);
    OwnersCounted(p.signatures);
    OwnerSet(owners);
    Subset(ByOwner(p.signatures).Keys, all);
  }

  lemma {:induction false} SignsListed(entries: seq<Entry>, i: nat)
    requires i < |entries|
    ensures Key(entries[i]) in ByOwner(entries)
  {
    var n := |entries| - 1;
    if i < n {
      assert entries[..n][i] == entries[i];
      SignsListed(entries[..n], i);
    }
  }

  lemma SignedKeys(p: Proposal)
    ensures Signed(p) == ByOwner(p.signatures).Keys
  {
    ByOwnerKeys(p.signatures);
    forall o | o in ByOwner(p.signatures) ensures o in Signed(p) {
      assert Signs(p.signatures, o);
      var i :| 0 <= i < |p.signatures| && Key(p.signatures[i]) == o;
      assert p.signatures[i] in p.signatures;
    }
    forall o | o in Signed(p) ensures o in ByOwner(p.signatures) {
      var i :| 0 <= i < |p.signatures| && Key(p.signatures[i]) == o;
      SignsListed(p.signatures, i);
    }
  }

  lemma VerifiedAcceptable(c: Crypto, p: Proposal, owners: seq<string>)
    requires Lawful(c) && Verified(c, p, owners)
    ensures Acceptable(c, p, owners) && Once(p) == p
  {
    VerifiedChecked(c, p, owners);
    VerifiedDistinct(c, p, owners);
    AcceptableEntries(c, p, owners);
    FromListDistinct(p.signatures);
  }

  /** The result of a merge that verification accepts passes the format check too, and its signers are
      those of both proposals, each counted once. */
  lemma MergedSigners(c: Crypto, a: Proposal, b: Proposal, owners: seq<string>)
    requires Lawful(c) && HexLawful(c) && Verified(c, a, owners)
    requires MergeResult(c, a, b).Success? && Acceptable(c, Once(b), owners)
    ensures
      var m := MergeResult(c, a, b).value;
      && Acceptable(c, m, owners) && |m.signatures| == Signers(a, b) <= |owners|
      && Signed(m) == Signed(a) + Signed(b)
      && (|owners| <= MAX_OWNERS ==> WellFormed(c, m))
  {
    var m := MergeResult(c, a, b).value;
    MergeVerifies(c, a, b, owners);
    AcceptableFew(c, m, owners);
    VerifiedDistinct(c, a, owners);
    SignedKeys(a);
    SignedKeys(b);
    SignedKeys(m);
    MergedWellFormed(c, a, b);
  }

  /** A successful merge of two proposals verified against one list of at most 50 owners is accepted by
      the format check and by verification; its signers are the union. */
  lemma MergeOfVerified(c: Crypto, a: Proposal, b: Proposal, owners: seq<string>)
    requires Lawful(c) && HexLawful(c) && Verified(c, a, owners) && Verified(c, b, owners) && |owners| <= MAX_OWNERS
    requires MergeResult(c, a, b).Success?
    ensures
      var m := MergeResult(c, a, b).value;
      && WellFormed(c, m) && Acceptable(c, m, owners)
      && Signed(m) == Signed(a) + Signed(b) && |m.signatures| == Signers(a, b)
  {
    VerifiedAcceptable(c, b, owners);
    MergedSigners(c, a, b, owners);
  }

  lemma Subset(a: set<string>, b: set<string>)
    requires a <= b
    ensures |a| <= |b|
  {
    assert b == a + (b - a);
    assert |b| == |a| + |b - a|;
  }

  // ---------- Importing ----------

  /** `validateProposal`: the format, then the signatures. */
  method ValidateProposal(c: Crypto, p: Proposal, owners: seq<string>) returns (r: Result<Proposal, Error>)
    ensures r.Success? <==> WellFormed(c, p) && Acceptable(c, p, owners)
    ensures r.Success? ==> Verified(c, r.value, owners) && r.value == p.(signatures := r.value.signatures)
    ensures r.Success? ==> Signed(r.value) == Signed(p) && |r.value.signatures| == |p.signatures|
    ensures r.Success? && HexLawful(c) ==> WellFormed(c, r.value)
  {
    if !WellFormed(c, p) {
      return Failure(InvalidFormat);
    }
    r := VerifySignatures(c, p, owners);
    if r.Success? {
      SameOwners(c, p, owners, r.value);
      if HexLawful(c) {
        ResultFormed(c, p, owners, r.value);
      }
    }
  }

  ghost predicate ResultOf(c: Crypto, p: Proposal, owners: seq<string>, r: Proposal) {
    && r.terms == p.terms && r.safeTxHash == p.safeTxHash && |r.signatures| == |p.signatures|
    && (forall i :: 0 <= i < |p.signatures| ==> Genuine(c, p.safeTxHash, p.signatures[i], owners))
    && (forall e :: e in r.signatures <==> exists i :: 0 <= i < |p.signatures| && Yields(c, p, owners, i, e))
  }

  lemma SameOwners(c: Crypto, p: Proposal, owners: seq<string>, r: Proposal)
    requires ResultOf(c, p, owners, r)
    ensures Signed(r) == Signed(p)
  {
    forall o | o in Signed(p) ensures o in Signed(r) {
      var i :| 0 <= i < |p.signatures| && Key(p.signatures[i]) == o;
      var e := Checked(c, p.safeTxHash, p.signatures[i], owners).value;
      assert Yields(c, p, owners, i, e);
      LowerTwice(p.signatures[i].owner);
      assert e in r.signatures && Key(e) == o;
    }
    forall o | o in Signed(r) ensures o in Signed(p) {
      var e :| e in r.signatures && Key(e) == o;
      var i :| 0 <= i < |p.signatures| && Yields(c, p, owners, i, e);
      LowerTwice(p.signatures[i].owner);
      assert p.signatures[i] in p.signatures;
    }
  }

  lemma LowerHex(text: string, n: nat)
    requires IsHex(text, n)
    ensures IsHex(Lower(text), n)
  {
  }

  lemma ResultFormed(c: Crypto, p: Proposal, owners: seq<string>, r: Proposal)
    requires HexLawful(c) && WellFormed(c, p) && ResultOf(c, p, owners, r)
    ensures WellFormed(c, r)
  {
    forall k | 0 <= k < |r.signatures| ensures EntryFormed(r.signatures[k]) {
      assert r.signatures[k] in r.signatures;
      var i :| 0 <= i < |p.signatures| && Yields(c, p, owners, i, r.signatures[k]);
      assert EntryFormed(p.signatures[i]);
      LowerHex(p.signatures[i].owner, 40);
    }
  }

  /** A version of the proposal is stored that was verified against these owners. */
  ghost predicate StoredVerified(c: Crypto, stored: Proposal, owners: seq<string>) {
    Lawful(c) && HexLawful(c) && |owners| <= MAX_OWNERS && Verified(c, stored, owners)
  }

  /** `SAFE_IMPORT`: merges the proposal into the stored version, if there is one, and validates the
      result.  An import into a verified version succeeds exactly if the two can be merged and
      verification accepts the import by itself, an owner's repeated entries aside. */
  method ImportProposal(c: Crypto, stored: Option<Proposal>, imported: Proposal, owners: seq<string>)
    returns (r: Result<Proposal, Error>)
    ensures r.Success? ==> WellFormed(c, imported) && Verified(c, r.value, owners)
    ensures stored.None? ==> (r.Success? <==> WellFormed(c, imported) && Acceptable(c, imported, owners))
    ensures stored.Some? && StoredVerified(c, stored.value, owners) ==>
              && (r.Success? <==> Mergeable(c, stored.value, imported) && Acceptable(c, Once(imported), owners))
              && (r.Success? ==>
                    && WellFormed(c, r.value) && Signed(r.value) == Signed(stored.value) + Signed(imported)
                    && |r.value.signatures| == Signers(stored.value, imported))
  {
    if !WellFormed(c, imported) {
      return Failure(InvalidFormat);
    }
    if stored.Some? && StoredVerified(c, stored.value, owners) {
      MergeVerifies(c, stored.value, imported, owners);
      if Mergeable(c, stored.value, imported) && Acceptable(c, Once(imported), owners) {
        MergedSigners(c, stored.value, imported, owners);
      }
    }
    var proposal := imported;
    if stored.Some? {
      proposal :- MergeProposals(c, stored.value, imported);
    }
    r := ValidateProposal(c, proposal, owners);
  }

  /** The first `threshold` signatures of a verified proposal that these owners signed. */
  ghost predicate BlobOf(c: Crypto, owners: seq<string>, signed: set<string>, threshold: nat, blob: string) {
    exists v: Proposal {:trigger Verified(c, v, owners)} ::
      && Verified(c, v, owners) && Signed(v) == signed && threshold <= |v.signatures|
      && blob == "0x" + Join(v.signatures[..threshold])
  }

  /** `prepareSafeExecution`: validates the proposal again and joins the first signatures. */
  method PrepareExecution(c: Crypto, p: Proposal, owners: seq<string>, threshold: nat)
    returns (r: Result<string, Error>)
    ensures r.Success? <==> WellFormed(c, p) && Acceptable(c, p, owners) && threshold <= |p.signatures|
    ensures r.Success? ==> BlobOf(c, owners, Signed(p), threshold, r.value)
    ensures r.Success? && HexLawful(c) ==> |r.value| == 2 + 130 * threshold
  {
    var valid :- ValidateProposal(c, p, owners);
    r := ExecutionBlob(valid, threshold);
    if r.Success? && HexLawful(c) {
      var used := valid.signatures[..threshold];
      assert forall i :: 0 <= i < threshold ==> EntryFormed(valid.signatures[i]);
      JoinLength(used);
    }
  }

  /** A merged proposal can be executed exactly if the owners who signed either version together reach
      the threshold. */
  method ExecuteImported(c: Crypto, stored: Proposal, imported: Proposal, owners: seq<string>, threshold: nat)
    returns (r: Result<string, Error>)
    ensures StoredVerified(c, stored, owners) ==>
              (r.Success? <==>
                 && Mergeable(c, stored, imported) && Acceptable(c, Once(imported), owners)
                 && threshold <= Signers(stored, imported))
    ensures StoredVerified(c, stored, owners) && r.Success? ==>
              BlobOf(c, owners, Signed(stored) + Signed(imported), threshold, r.value)
  {
    var merged :- ImportProposal(c, Some(stored), imported, owners);
    if Lawful(c) {
      VerifiedAcceptable(c, merged, owners);
    }
    r := PrepareExecution(c, merged, owners, threshold);
  }
}
