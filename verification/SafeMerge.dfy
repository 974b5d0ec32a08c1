/** Model of `mergeProposals` (apps/extension/src/safe.ts), with the checks that precede its loop. */
module SafeMerge {
  import opened Wrappers
  import opened SafeProposals

  function Key(e: Entry): string {
    Lower(e.owner)
  }

  predicate SameSignature(a: Entry, b: Entry) {
    Lower(a.signature) == Lower(b.signature)
  }

  /** Where a key stands among the entries of a JavaScript `Map`, which keeps insertion order. */
  function Find(entries: seq<Entry>, key: string): (r: Option<nat>)
    ensures r.Some? ==> r.value < |entries| && Key(entries[r.value]) == key
    ensures r.None? <==> forall i :: 0 <= i < |entries| ==> Key(entries[i]) != key
  {
    if entries == [] then None
    else if Key(entries[0]) == key then Some(0)
    else
      var rest := Find(entries[1..], key);
      assert forall i :: 1 <= i < |entries| ==> entries[1..][i - 1] == entries[i];
      if rest.Some? then Some(rest.value + 1) else None
  }

  /** `signatures.set(key, entry)`. */
  function SetEntry(entries: seq<Entry>, e: Entry): seq<Entry> {
    var at := Find(entries, Key(e));
    if at.Some? then entries[at.value := e] else entries + [e]
  }

  /** The `Map` built from a list: later entries replace earlier ones of the same owner. */
  function FromList(entries: seq<Entry>): seq<Entry> {
    if entries == [] then [] else SetEntry(FromList(entries[..|entries| - 1]), entries[|entries| - 1])
  }

  /** The merge loop; None when it meets a conflicting signature. */
  function MergeInto(base: seq<Entry>, entries: seq<Entry>): Option<seq<Entry>> {
    if entries == [] then Some(base)
    else
      var before := MergeInto(base, entries[..|entries| - 1]);
      if before.None? then None
      else
        var e := entries[|entries| - 1];
        var at := Find(before.value, Key(e));
        if at.Some? && !SameSignature(before.value[at.value], e) then None
        else Some(SetEntry(before.value, e))
  }

  function Merged(a: seq<Entry>, b: seq<Entry>): Option<seq<Entry>> {
    MergeInto(FromList(a), b)
  }

  predicate SameProposal(c: Crypto, a: Proposal, b: Proposal) {
    c.hash(a.terms) == c.hash(b.terms) && Lower(a.safeTxHash) == Lower(b.safeTxHash)
  }

  function MergeResult(c: Crypto, a: Proposal, b: Proposal): Result<Proposal, Error> {
    if !WellFormed(c, a) || !WellFormed(c, b) then Failure(InvalidFormat)
    else if !SameProposal(c, a, b) then Failure(Different)
    else if Merged(a.signatures, b.signatures).None? then Failure(Conflict)
    else Success(a.(signatures := Merged(a.signatures, b.signatures).value))
  }

  method MergeProposals(c: Crypto, a: Proposal, b: Proposal) returns (r: Result<Proposal, Error>)
    ensures r == MergeResult(c, a, b)
  {
    if !WellFormed(c, a) || !WellFormed(c, b) {
      return Failure(InvalidFormat);
    }
    if c.hash(a.terms) != c.hash(b.terms) || Lower(a.safeTxHash) != Lower(b.safeTxHash) {
      return Failure(Different);
    }
    var merged := MergeSignatures(a.signatures, b.signatures);
    return if merged.None? then Failure(Conflict) else Success(a.(signatures := merged.value));
  }

  /** The map built from one list, and the loop over the other. */
  method MergeSignatures(a: seq<Entry>, b: seq<Entry>) returns (r: Option<seq<Entry>>)
    ensures r == Merged(a, b)
  {
    var signatures := [];
    for i := 0 to |a|
      invariant signatures == FromList(a[..i])
    {
      assert a[..i + 1][..i] == a[..i];
      signatures := SetEntry(signatures, a[i]);
    }
    assert a[..|a|] == a;
    ghost var base := signatures;
    for i := 0 to |b|
      invariant MergeInto(base, b[..i]) == Some(signatures)
    {
      var s := b[i];
      assert b[..i + 1][..i] == b[..i];
      var previous := Find(signatures, Key(s));
      if previous.Some? && !SameSignature(signatures[previous.value], s) {
        MergeFailsEarly(base, b, i + 1);
        return None;
      }
      signatures := SetEntry(signatures, s);
    }
    assert b[..|b|] == b;
    return Some(signatures);
  }

  lemma {:induction false} MergeFailsEarly(base: seq<Entry>, entries: seq<Entry>, n: nat)
    requires n <= |entries| && MergeInto(base, entries[..n]).None?
    ensures MergeInto(base, entries).None?
    decreases |entries|
  {
    if n < |entries| {
      assert entries[..|entries| - 1][..n] == entries[..n];
      MergeFailsEarly(base, entries[..|entries| - 1], n);
    } else {
      assert entries[..n] == entries;
    }
  }

  // ---------- What a merge is ----------

  ghost predicate DistinctOwners(entries: seq<Entry>) {
    forall i, j :: 0 <= i < j < |entries| ==> Key(entries[i]) != Key(entries[j])
  }

  /** The signatures by owner. */
  ghost function ByOwner(entries: seq<Entry>): map<string, string> {
    if entries == [] then map[]
    else ByOwner(entries[..|entries| - 1])[Key(entries[|entries| - 1]) := Lower(entries[|entries| - 1].signature)]
  }

  /** No owner has two different signatures. */
  ghost predicate Agree(a: map<string, string>, b: map<string, string>) {
    forall o :: o in a && o in b ==> a[o] == b[o]
  }

  lemma {:induction false} ByOwnerAt(entries: seq<Entry>)
    requires DistinctOwners(entries)
    ensures forall i :: 0 <= i < |entries| ==>
              Key(entries[i]) in ByOwner(entries) && ByOwner(entries)[Key(entries[i])] == Lower(entries[i].signature)
  {
    if entries != [] {
      var init := entries[..|entries| - 1];
      ByOwnerAt(init);
      forall i | 0 <= i < |entries|
        ensures Key(entries[i]) in ByOwner(entries) && ByOwner(entries)[Key(entries[i])] == Lower(entries[i].signature)
      {
        if i < |init| { assert init[i] == entries[i]; }
      }
    }
  }

  ghost predicate Signs(entries: seq<Entry>, o: string) {
    exists i :: 0 <= i < |entries| && Key(entries[i]) == o
  }

  lemma {:induction false} ByOwnerOnly(entries: seq<Entry>, o: string)
    requires o in ByOwner(entries)
    ensures Signs(entries, o)
  {
    var n := |entries| - 1;
    if o != Key(entries[n]) {
      ByOwnerOnly(entries[..n], o);
      var i :| 0 <= i < |entries[..n]| && Key(entries[..n][i]) == o;
      assert entries[i] == entries[..n][i];
    }
  }

  lemma ByOwnerKeys(entries: seq<Entry>)
    ensures forall o :: o in ByOwner(entries) ==> Signs(entries, o)
  {
    forall o | o in ByOwner(entries) ensures Signs(entries, o) {
      ByOwnerOnly(entries, o);
    }
  }

  /** The map is determined by its bindings. */
  lemma ByOwnerIs(entries: seq<Entry>, m: map<string, string>)
    requires DistinctOwners(entries)
    requires forall i :: 0 <= i < |entries| ==>
               Key(entries[i]) in m && m[Key(entries[i])] == Lower(entries[i].signature)
    requires forall o :: o in m ==> Signs(entries, o)
    ensures ByOwner(entries) == m
  {
    ByOwnerAt(entries);
    ByOwnerKeys(entries);
  }

  lemma AppendByOwner(entries: seq<Entry>, e: Entry)
    requires DistinctOwners(entries) && Find(entries, Key(e)).None?
    ensures DistinctOwners(entries + [e])
    ensures ByOwner(entries + [e]) == ByOwner(entries)[Key(e) := Lower(e.signature)]
  {
    assert (entries + [e])[..|entries|] == entries;
  }

  lemma ReplaceByOwner(entries: seq<Entry>, e: Entry, at: nat)
    requires DistinctOwners(entries) && at < |entries| && Key(entries[at]) == Key(e)
    ensures DistinctOwners(entries[at := e])
    ensures ByOwner(entries[at := e]) == ByOwner(entries)[Key(e) := Lower(e.signature)]
  {
    var r, m := entries[at := e], ByOwner(entries)[Key(e) := Lower(e.signature)];
    ByOwnerAt(entries);
    ByOwnerKeys(entries);
    assert forall i :: 0 <= i < |r| ==> Key(r[i]) == Key(entries[i]);
    forall i | 0 <= i < |r| ensures Key(r[i]) in m && m[Key(r[i])] == Lower(r[i].signature) {
      assert i != at ==> r[i] == entries[i] && Key(entries[i]) != Key(e);
    }
    forall o | o in m ensures Signs(r, o) {
      if o == Key(e) {
        assert Key(r[at]) == o;
      } else {
        var i :| 0 <= i < |entries| && Key(entries[i]) == o;
        assert Key(r[i]) == o;
      }
    }
    ByOwnerIs(r, m);
  }

  /** Setting an entry keeps owners distinct and does to the signatures what a map update does. */
  lemma SetEntryByOwner(entries: seq<Entry>, e: Entry)
    requires DistinctOwners(entries)
    ensures DistinctOwners(SetEntry(entries, e))
    ensures ByOwner(SetEntry(entries, e)) == ByOwner(entries)[Key(e) := Lower(e.signature)]
  {
    var at := Find(entries, Key(e));
    if at.None? {
      AppendByOwner(entries, e);
    } else {
      ReplaceByOwner(entries, e, at.value);
    }
  }

  lemma LastIsNew(entries: seq<Entry>)
    requires DistinctOwners(entries) && entries != []
    ensures DistinctOwners(entries[..|entries| - 1])
    ensures entries[..|entries| - 1] + [entries[|entries| - 1]] == entries
    ensures var init := entries[..|entries| - 1];
            forall i :: 0 <= i < |init| ==> Key(init[i]) != Key(entries[|entries| - 1])
  {
  }

  lemma {:induction false} FromListDistinct(entries: seq<Entry>)
    requires DistinctOwners(entries)
    ensures FromList(entries) == entries
  {
    if entries != [] {
      LastIsNew(entries);
      FromListDistinct(entries[..|entries| - 1]);
    }
  }

  /** No owner appears with two different signatures. */
  ghost predicate Consistent(entries: seq<Entry>) {
    forall i, j :: 0 <= i < j < |entries| && Key(entries[i]) == Key(entries[j]) ==>
      SameSignature(entries[i], entries[j])
  }

  lemma {:induction false} ConsistentAt(entries: seq<Entry>, i: nat)
    requires Consistent(entries) && i < |entries|
    ensures Key(entries[i]) in ByOwner(entries) && ByOwner(entries)[Key(entries[i])] == Lower(entries[i].signature)
  {
    var n := |entries| - 1;
    if i < n {
      assert entries[..n][i] == entries[i];
      ConsistentAt(entries[..n], i);
    }
  }

  lemma ConsistentSnoc(init: seq<Entry>, e: Entry)
    ensures Consistent(init + [e])
       <==> Consistent(init) && (Key(e) in ByOwner(init) ==> ByOwner(init)[Key(e)] == Lower(e.signature))
  {
    var all := init + [e];
    assert forall i :: 0 <= i < |init| ==> all[i] == init[i];
    if Consistent(init) {
      forall i | 0 <= i < |init|
        ensures Key(init[i]) in ByOwner(init) && ByOwner(init)[Key(init[i])] == Lower(init[i].signature)
      {
        ConsistentAt(init, i);
      }
      ByOwnerKeys(init);
      if Key(e) in ByOwner(init) {
        assert Signs(init, Key(e));
        var i :| 0 <= i < |init| && Key(init[i]) == Key(e);
        assert Consistent(all) ==> SameSignature(all[i], all[|init|]);
      }
    }
  }

  lemma MergeIntoSnoc(base: seq<Entry>, init: seq<Entry>, e: Entry)
    ensures
      var before, r := MergeInto(base, init), MergeInto(base, init + [e]);
      && (r.Some? <==>
            && before.Some?
            && (Find(before.value, Key(e)).Some? ==>
                  SameSignature(before.value[Find(before.value, Key(e)).value], e)))
      && (r.Some? ==> r.value == SetEntry(before.value, e))
    ensures ByOwner(init + [e]) == ByOwner(init)[Key(e) := Lower(e.signature)]
  {
    assert (init + [e])[..|init|] == init && (init + [e])[|init|] == e;
  }

  /** The merge succeeds exactly when no owner has conflicting signatures, in one list or over both, and
      is then their union. */
  lemma {:induction false} MergeIsUnion(base: seq<Entry>, entries: seq<Entry>)
    requires DistinctOwners(base)
    ensures MergeInto(base, entries).Some? <==> Consistent(entries) && Agree(ByOwner(base), ByOwner(entries))
    ensures MergeInto(base, entries).Some? ==>
              var r := MergeInto(base, entries).value;
              DistinctOwners(r) && ByOwner(r) == ByOwner(base) + ByOwner(entries)
  {
    if entries == [] {
      assert ByOwner(base) + map[] == ByOwner(base);
    } else {
      var init, e := entries[..|entries| - 1], entries[|entries| - 1];
      assert entries == init + [e];
      MergeIsUnion(base, init);
      UnionSnoc(base, init, e);
    }
  }

  lemma UnionSnoc(base: seq<Entry>, init: seq<Entry>, e: Entry)
    requires MergeInto(base, init).Some? <==> Consistent(init) && Agree(ByOwner(base), ByOwner(init))
    requires MergeInto(base, init).Some? ==>
               var r := MergeInto(base, init).value;
               DistinctOwners(r) && ByOwner(r) == ByOwner(base) + ByOwner(init)
    ensures MergeInto(base, init + [e]).Some?
       <==> Consistent(init + [e]) && Agree(ByOwner(base), ByOwner(init + [e]))
    ensures MergeInto(base, init + [e]).Some? ==>
              var r := MergeInto(base, init + [e]).value;
              DistinctOwners(r) && ByOwner(r) == ByOwner(base) + ByOwner(init + [e])
  {
    MergeIntoSnoc(base, init, e);
    ConsistentSnoc(init, e);
    if MergeInto(base, init).Some? {
      StepUnion(ByOwner(base), ByOwner(init), MergeInto(base, init).value, e);
    } else if Consistent(init + [e]) {
      DisagreeStays(ByOwner(base), ByOwner(init), Key(e), Lower(e.signature));
    }
  }

  lemma DisagreeStays(a: map<string, string>, b: map<string, string>, key: string, signature: string)
    requires !Agree(a, b) && (key in b ==> b[key] == signature)
    ensures !Agree(a, b[key := signature])
  {
    var o :| o in a && o in b && a[o] != b[o];
    assert o in b[key := signature] && b[key := signature][o] == b[o];
  }

  lemma FindByOwner(entries: seq<Entry>, e: Entry)
    requires DistinctOwners(entries)
    ensures Find(entries, Key(e)).Some? <==> Key(e) in ByOwner(entries)
    ensures Find(entries, Key(e)).Some? ==>
              (SameSignature(entries[Find(entries, Key(e)).value], e)
               <==> ByOwner(entries)[Key(e)] == Lower(e.signature))
  {
    ByOwnerAt(entries);
    ByOwnerKeys(entries);
  }

  lemma StepUnion(a: map<string, string>, b: map<string, string>, mid: seq<Entry>, e: Entry)
    requires DistinctOwners(mid) && ByOwner(mid) == a + b
    requires Agree(a, b)
    ensures
      var at := Find(mid, Key(e));
      (at.Some? && !SameSignature(mid[at.value], e))
      <==> !((Key(e) in b ==> b[Key(e)] == Lower(e.signature)) && Agree(a, b[Key(e) := Lower(e.signature)]))
    ensures DistinctOwners(SetEntry(mid, e))
    ensures ByOwner(SetEntry(mid, e)) == a + b[Key(e) := Lower(e.signature)]
  {
    SetEntryByOwner(mid, e);
    FindByOwner(mid, e);
    AgreeStep(a, b, Key(e), Lower(e.signature));
  }

  lemma AgreeStep(a: map<string, string>, b: map<string, string>, key: string, signature: string)
    requires Agree(a, b)
    ensures (key in b ==> b[key] == signature) && Agree(a, b[key := signature])
       <==> (key in a + b ==> (a + b)[key] == signature)
    ensures (a + b)[key := signature] == a + b[key := signature]
  {
    assert Agree(a, b[key := signature]) ==> (key in a ==> a[key] == b[key := signature][key]);
  }

  /** Merging a proposal with itself changes nothing, not even the order. */
  lemma MergeIdempotent(c: Crypto, a: Proposal)
    requires DistinctOwners(a.signatures) && WellFormed(c, a)
    ensures MergeResult(c, a, a) == Success(a)
  {
    MergeSelf(a.signatures);
  }

  lemma MergeSelf(a: seq<Entry>)
    requires DistinctOwners(a)
    ensures Merged(a, a) == Some(a)
  {
    FromListDistinct(a);
    MergePrefix(a, |a|);
    assert a[..|a|] == a;
  }

  lemma {:induction false} MergePrefix(a: seq<Entry>, n: nat)
    requires DistinctOwners(a) && n <= |a|
    ensures MergeInto(a, a[..n]) == Some(a)
  {
    if n > 0 {
      assert a[..n][..n - 1] == a[..n - 1];
      MergePrefix(a, n - 1);
      var at := Find(a, Key(a[n - 1]));
      assert at == Some(n - 1);
      assert a[n - 1 := a[n - 1]] == a;
    }
  }

  lemma PairUnion(a: seq<Entry>, b: seq<Entry>)
    requires DistinctOwners(a) && DistinctOwners(b)
    ensures Merged(a, b).Some? <==> Agree(ByOwner(a), ByOwner(b))
    ensures Merged(a, b).Some? ==>
              DistinctOwners(Merged(a, b).value) && ByOwner(Merged(a, b).value) == ByOwner(a) + ByOwner(b)
  {
    FromListDistinct(a);
    MergeIsUnion(a, b);
  }

  /** Either order succeeds or neither, with the same proposal and the same signatures. */
  lemma MergeCommutative(c: Crypto, a: Proposal, b: Proposal)
    requires DistinctOwners(a.signatures) && DistinctOwners(b.signatures)
    ensures MergeResult(c, a, b).Success? <==> MergeResult(c, b, a).Success?
    ensures MergeResult(c, a, b).Success? ==> SameOutcome(c, MergeResult(c, a, b).value, MergeResult(c, b, a).value)
  {
    PairUnion(a.signatures, b.signatures);
    PairUnion(b.signatures, a.signatures);
    AgreeSymmetric(ByOwner(a.signatures), ByOwner(b.signatures));
  }

  /** The same proposal with the same signatures, in whatever order. */
  ghost predicate SameOutcome(c: Crypto, a: Proposal, b: Proposal) {
    SameProposal(c, a, b) && ByOwner(a.signatures) == ByOwner(b.signatures)
  }

  lemma AgreeSymmetric(a: map<string, string>, b: map<string, string>)
    ensures Agree(a, b) <==> Agree(b, a)
    ensures Agree(a, b) ==> a + b == b + a
  {
  }

  // ---------- Three proposals ----------

  /** The merge of a merge's result with one more proposal. */
  function MergeLeft(c: Crypto, a: Proposal, b: Proposal, d: Proposal): Result<Proposal, Error> {
    var ab := MergeResult(c, a, b);
    if ab.Success? then MergeResult(c, ab.value, d) else ab
  }

  function MergeRight(c: Crypto, a: Proposal, b: Proposal, d: Proposal): Result<Proposal, Error> {
    var bd := MergeResult(c, b, d);
    if bd.Success? then MergeResult(c, a, bd.value) else bd
  }

  ghost predicate AllDistinct(a: Proposal, b: Proposal, d: Proposal) {
    DistinctOwners(a.signatures) && DistinctOwners(b.signatures) && DistinctOwners(d.signatures)
  }

  /** Three well-formed versions of one proposal, no two with conflicting signatures. */
  ghost predicate Compatible(c: Crypto, a: Proposal, b: Proposal, d: Proposal) {
    && WellFormed(c, a) && WellFormed(c, b) && WellFormed(c, d)
    && SameProposal(c, a, b) && SameProposal(c, b, d)
    && Agree(ByOwner(a.signatures), ByOwner(b.signatures))
    && Agree(ByOwner(b.signatures), ByOwner(d.signatures))
    && Agree(ByOwner(a.signatures), ByOwner(d.signatures))
  }

  /** How many owners signed one or the other. */
  ghost function Signers(a: Proposal, b: Proposal): nat {
    |ByOwner(a.signatures) + ByOwner(b.signatures)|
  }

  lemma {:induction false} OwnersCounted(entries: seq<Entry>)
    requires DistinctOwners(entries)
    ensures |ByOwner(entries)| == |entries|
  {
    if entries != [] {
      var n := |entries| - 1;
      var m := ByOwner(entries[..n]);
      LastIsNew(entries);
      OwnersCounted(entries[..n]);
      ByOwnerKeys(entries[..n]);
      assert Key(entries[n]) !in m;
      assert m[Key(entries[n]) := Lower(entries[n].signature)].Keys == m.Keys + {Key(entries[n])};
    }
  }

  lemma SetEntryMembers(entries: seq<Entry>, e: Entry)
    ensures forall x :: x in SetEntry(entries, e) ==> x in entries || x == e
  {
  }

  lemma {:induction false} MergedMembers(base: seq<Entry>, entries: seq<Entry>)
    ensures MergeInto(base, entries).Some? ==> forall x :: x in MergeInto(base, entries).value ==>
              x in base || x in entries
  {
    if entries != [] && MergeInto(base, entries).Some? {
      var n := |entries| - 1;
      MergedMembers(base, entries[..n]);
      SetEntryMembers(MergeInto(base, entries[..n]).value, entries[n]);
    }
  }

  /** A merge's result is well-formed again exactly if at most 50 owners have signed. */
  lemma MergedWellFormed(c: Crypto, a: Proposal, b: Proposal)
    requires DistinctOwners(a.signatures) && MergeResult(c, a, b).Success?
    ensures WellFormed(c, MergeResult(c, a, b).value) <==> Signers(a, b) <= MAX_SIGNATURES
  {
    var m := Merged(a.signatures, b.signatures).value;
    FromListDistinct(a.signatures);
    MergeIsUnion(a.signatures, b.signatures);
    OwnersCounted(m);
    MergedMembers(a.signatures, b.signatures);
    forall i | 0 <= i < |m| ensures EntryFormed(m[i]) {
      assert m[i] in m;
    }
  }

  lemma AgreeAll(a: map<string, string>, b: map<string, string>, d: map<string, string>)
    requires Agree(a, b)
    ensures Agree(a + b, d) <==> Agree(a, d) && Agree(b, d)
  {
    if Agree(a + b, d) {
      forall o | o in a && o in d ensures a[o] == d[o] { assert o in a + b; }
      forall o | o in b && o in d ensures b[o] == d[o] { assert o in a + b; }
    }
  }

  lemma Regroup(a: map<string, string>, b: map<string, string>, c: map<string, string>)
    ensures a + b + c == a + (b + c)
  {
  }

  lemma LeftExactly(c: Crypto, a: Proposal, b: Proposal, d: Proposal)
    requires AllDistinct(a, b, d)
    ensures MergeLeft(c, a, b, d).Success? <==> Compatible(c, a, b, d) && Signers(a, b) <= MAX_SIGNATURES
    ensures MergeLeft(c, a, b, d).Success? ==>
              var m := MergeLeft(c, a, b, d).value;
              && m == a.(signatures := m.signatures)
              && ByOwner(m.signatures) == ByOwner(a.signatures) + ByOwner(b.signatures) + ByOwner(d.signatures)
  {
    PairUnion(a.signatures, b.signatures);
    if MergeResult(c, a, b).Success? {
      var ab := MergeResult(c, a, b).value;
      MergedWellFormed(c, a, b);
      PairUnion(ab.signatures, d.signatures);
      AgreeAll(ByOwner(a.signatures), ByOwner(b.signatures), ByOwner(d.signatures));
    }
  }

  lemma RightExactly(c: Crypto, a: Proposal, b: Proposal, d: Proposal)
    requires AllDistinct(a, b, d)
    ensures MergeRight(c, a, b, d).Success? <==> Compatible(c, a, b, d) && Signers(b, d) <= MAX_SIGNATURES
    ensures MergeRight(c, a, b, d).Success? ==>
              var m := MergeRight(c, a, b, d).value;
              && m == a.(signatures := m.signatures)
              && ByOwner(m.signatures) == ByOwner(a.signatures) + (ByOwner(b.signatures) + ByOwner(d.signatures))
  {
    PairUnion(b.signatures, d.signatures);
    if MergeResult(c, b, d).Success? {
      var bd := MergeResult(c, b, d).value;
      MergedWellFormed(c, b, d);
      PairUnion(a.signatures, bd.signatures);
      AgreeSymmetric(ByOwner(a.signatures), ByOwner(b.signatures) + ByOwner(d.signatures));
      AgreeAll(ByOwner(b.signatures), ByOwner(d.signatures), ByOwner(a.signatures));
      AgreeSymmetric(ByOwner(b.signatures), ByOwner(a.signatures));
      AgreeSymmetric(ByOwner(d.signatures), ByOwner(a.signatures));
    }
  }

  /** When the two groupings agree: always, unless the proposals are compatible and one of the two
      first merges has more than 50 signers and the other has not.  When both succeed, they give the
      same signatures. */
  lemma GroupingsAgreeExactly(c: Crypto, a: Proposal, b: Proposal, d: Proposal)
    requires AllDistinct(a, b, d)
    ensures (MergeLeft(c, a, b, d).Success? <==> MergeRight(c, a, b, d).Success?)
       <==> (Compatible(c, a, b, d) ==> (Signers(a, b) <= MAX_SIGNATURES <==> Signers(b, d) <= MAX_SIGNATURES))
    ensures MergeLeft(c, a, b, d).Success? && MergeRight(c, a, b, d).Success? ==>
              SameOutcome(c, MergeLeft(c, a, b, d).value, MergeRight(c, a, b, d).value)
  {
    LeftExactly(c, a, b, d);
    RightExactly(c, a, b, d);
    Regroup(ByOwner(a.signatures), ByOwner(b.signatures), ByOwner(d.signatures));
  }

  // ---------- Verified proposals ----------

  /** Verified proposals have distinct owners, so all of the above applies to them. */
  lemma VerifiedDistinct(c: Crypto, p: Proposal, owners: seq<string>)
    requires Verified(c, p, owners)
    ensures DistinctOwners(p.signatures)
    ensures forall e :: e in p.signatures ==> Key(e) == e.owner
  {
    forall e | e in p.signatures ensures Key(e) == e.owner {
      assert Vouched(c, p.safeTxHash, owners, e);
      var raw: Entry :| Genuine(c, p.safeTxHash, raw, owners) && KeptAs(c, p.safeTxHash, raw, e);
      LowerTwice(raw.owner);
    }
    forall i, j | 0 <= i < j < |p.signatures| ensures Key(p.signatures[i]) != Key(p.signatures[j]) {
      assert p.signatures[i] in p.signatures && p.signatures[j] in p.signatures;
      FirstTotal(p.signatures[i].owner, p.signatures[j].owner);
    }
  }

  lemma {:induction false} OwnerSet(owners: seq<string>)
    ensures |set i | 0 <= i < |owners| :: Lower(owners[i])| <= |owners|
  {
    if owners != [] {
      var n := |owners| - 1;
      OwnerSet(owners[..n]);
      var init := set i | 0 <= i < n :: Lower(owners[..n][i]);
      assert (set i | 0 <= i < |owners| :: Lower(owners[i])) == init + {Lower(owners[n])};
    }
  }

  lemma VerifiedOwners(c: Crypto, p: Proposal, owners: seq<string>)
    requires Verified(c, p, owners)
    ensures forall o :: o in ByOwner(p.signatures) ==> IsOwner(o, owners)
  {
    VerifiedDistinct(c, p, owners);
    ByOwnerKeys(p.signatures);
    forall o | o in ByOwner(p.signatures) ensures IsOwner(o, owners) {
      assert Signs(p.signatures, o);
      var i :| 0 <= i < |p.signatures| && Key(p.signatures[i]) == o;
      KeptIsOwner(c, p, owners, p.signatures[i]);
    }
  }

  /** Together they have at most as many signers as the Safe has owners. */
  lemma VerifiedSigners(c: Crypto, a: Proposal, b: Proposal, owners: seq<string>)
    requires Verified(c, a, owners) && Verified(c, b, owners)
    ensures Signers(a, b) <= |owners|
  {
    var all := set i | 0 <= i < |owners| :: Lower(owners[i]);
    var signed := ByOwner(a.signatures) + ByOwner(b.signatures);
    VerifiedOwners(c, a, owners);
    VerifiedOwners(c, b, owners);
    assert signed.Keys <= all;
    OwnerSet(owners);
    assert all == signed.Keys + (all - signed.Keys);
    assert |all| == |signed.Keys| + |all - signed.Keys|;
  }

  /** Of proposals verified against one list of at most 50 owners, which is what a Safe may have, either
      grouping succeeds or neither, with the same signatures. */
  lemma MergeAssociative(c: Crypto, a: Proposal, b: Proposal, d: Proposal, owners: seq<string>)
    requires Verified(c, a, owners) && Verified(c, b, owners) && Verified(c, d, owners) && |owners| <= MAX_OWNERS
    ensures MergeLeft(c, a, b, d).Success? <==> MergeRight(c, a, b, d).Success?
    ensures MergeLeft(c, a, b, d).Success? ==> SameOutcome(c, MergeLeft(c, a, b, d).value, MergeRight(c, a, b, d).value)
  {
    VerifiedDistinct(c, a, owners);
    VerifiedDistinct(c, b, owners);
    VerifiedDistinct(c, d, owners);
    VerifiedSigners(c, a, b, owners);
    VerifiedSigners(c, b, d, owners);
    GroupingsAgreeExactly(c, a, b, d);
  }

  // ---------- Where the groupings differ ----------

  function HexDigit(d: nat): char
    requires d < 16
  {
    if d < 10 then ('0' as int + d) as char else ('a' as int + d - 10) as char
  }

  /** An address that ends in `i`. */
  function OwnerNumber(i: nat): string
    requires i < 256
  {
    "0x" + seq(38, _ => '0') + [HexDigit(i / 16), HexDigit(i % 16)]
  }

  function Zeros(n: nat): string {
    "0x" + seq(n, _ => '0')
  }

  lemma NumbersDiffer(i: nat, j: nat)
    requires i < j < 256
    ensures Lower(OwnerNumber(i)) != Lower(OwnerNumber(j))
  {
    var a, b := Lower(OwnerNumber(i)), Lower(OwnerNumber(j));
    assert a[40] == HexDigit(i / 16) && a[41] == HexDigit(i % 16);
    assert b[40] == HexDigit(j / 16) && b[41] == HexDigit(j % 16);
  }

  lemma NumberFormed(i: nat)
    requires i < 256
    ensures EntryFormed(Entry(OwnerNumber(i), Zeros(130)))
  {
    var o := OwnerNumber(i);
    assert |o| == 42 && o[40] == HexDigit(i / 16) && o[41] == HexDigit(i % 16);
  }

  /** Well-formed entries of different owners, all with one signature, so that none conflict. */
  ghost predicate Sample(entries: seq<Entry>, signature: string) {
    && DistinctOwners(entries)
    && forall i :: 0 <= i < |entries| ==> EntryFormed(entries[i]) && entries[i].signature == signature
  }

  lemma SampleEntries(n: nat) returns (entries: seq<Entry>)
    requires n < 256
    ensures |entries| == n && Sample(entries, Zeros(130))
  {
    entries := seq(n, i requires 0 <= i < n => Entry(OwnerNumber(i), Zeros(130)));
    forall i | 0 <= i < n ensures EntryFormed(entries[i]) {
      NumberFormed(i);
    }
    forall i, j | 0 <= i < j < n ensures Key(entries[i]) != Key(entries[j]) {
      NumbersDiffer(i, j);
    }
  }

  lemma SamplePart(entries: seq<Entry>, signature: string, from: nat, to: nat)
    requires Sample(entries, signature) && from <= to <= |entries|
    ensures Sample(entries[from..to], signature)
  {
    var part := entries[from..to];
    forall i, j | 0 <= i < j < |part| ensures Key(part[i]) != Key(part[j]) {
      assert part[i] == entries[from + i] && part[j] == entries[from + j];
    }
  }

  lemma SampleSignatures(entries: seq<Entry>, signature: string)
    requires Sample(entries, signature)
    ensures forall o :: o in ByOwner(entries) ==> ByOwner(entries)[o] == Lower(signature)
  {
    ByOwnerAt(entries);
    ByOwnerKeys(entries);
    forall o | o in ByOwner(entries) ensures ByOwner(entries)[o] == Lower(signature) {
      assert Signs(entries, o);
      var i :| 0 <= i < |entries| && Key(entries[i]) == o;
    }
  }

  lemma SamplesAgree(a: seq<Entry>, b: seq<Entry>, signature: string)
    requires Sample(a, signature) && Sample(b, signature)
    ensures Agree(ByOwner(a), ByOwner(b))
  {
    SampleSignatures(a, signature);
    SampleSignatures(b, signature);
  }

  lemma NotShared(a: seq<Entry>, b: seq<Entry>, o: string)
    requires DistinctOwners(a + b) && Signs(a, o)
    ensures !Signs(b, o)
  {
    var i :| 0 <= i < |a| && Key(a[i]) == o;
    forall j | 0 <= j < |b| ensures Key(b[j]) != o {
      assert (a + b)[i] == a[i] && (a + b)[|a| + j] == b[j];
    }
  }

  lemma DistinctUnion(a: seq<Entry>, b: seq<Entry>)
    requires DistinctOwners(a) && DistinctOwners(b) && DistinctOwners(a + b)
    ensures |ByOwner(a) + ByOwner(b)| == |a| + |b|
  {
    OwnersCounted(a);
    OwnersCounted(b);
    ByOwnerKeys(a);
    ByOwnerKeys(b);
    forall o | o in ByOwner(a) ensures o !in ByOwner(b) {
      NotShared(a, b, o);
    }
    UnionCount(ByOwner(a), ByOwner(b));
  }

  lemma UnionCount(a: map<string, string>, b: map<string, string>)
    requires a.Keys !! b.Keys
    ensures |a + b| == |a| + |b|
  {
    assert (a + b).Keys == a.Keys + b.Keys;
    assert |a.Keys + b.Keys| == |a.Keys| + |b.Keys|;
  }

  /** The groupings differ when the first two together have too many signers and the last two have not. */
  lemma SamplesDiffer(c: Crypto, a: Proposal, b: Proposal, d: Proposal, signature: string)
    requires WellFormed(c, a) && WellFormed(c, b) && WellFormed(c, d) && SameProposal(c, a, b) && SameProposal(c, b, d)
    requires Sample(a.signatures, signature) && Sample(b.signatures, signature) && Sample(d.signatures, signature)
    requires Signers(b, d) <= MAX_SIGNATURES < Signers(a, b)
    ensures MergeLeft(c, a, b, d).Failure? && MergeRight(c, a, b, d).Success?
  {
    SamplesAgree(a.signatures, b.signatures, signature);
    SamplesAgree(b.signatures, d.signatures, signature);
    SamplesAgree(a.signatures, d.signatures, signature);
    LeftExactly(c, a, b, d);
    RightExactly(c, a, b, d);
  }

  lemma SampleSigners(entries: seq<Entry>, signature: string, from: nat, mid: nat, to: nat)
    requires Sample(entries, signature) && from <= mid <= to <= |entries|
    ensures |ByOwner(entries[from..mid]) + ByOwner(entries[mid..to])| == to - from
  {
    SamplePart(entries, signature, from, mid);
    SamplePart(entries, signature, mid, to);
    SamplePart(entries, signature, from, to);
    assert entries[from..mid] + entries[mid..to] == entries[from..to];
    DistinctUnion(entries[from..mid], entries[mid..to]);
  }

  /** The proposal with some of these entries. */
  function PartOf(terms: int, hash: string, entries: seq<Entry>, from: nat, to: nat): Proposal
    requires from <= to <= |entries|
  {
    Proposal(terms, hash, entries[from..to])
  }

  lemma PartFormed(c: Crypto, terms: int, hash: string, entries: seq<Entry>, signature: string, from: nat, to: nat)
    requires c.termsOk(terms) && IsHex(hash, 64) && Sample(entries, signature)
    requires from <= to <= |entries| && to - from <= MAX_SIGNATURES
    ensures WellFormed(c, PartOf(terms, hash, entries, from, to))
    ensures Sample(PartOf(terms, hash, entries, from, to).signatures, signature)
  {
    SamplePart(entries, signature, from, to);
  }

  lemma PartsDiffer(c: Crypto, terms: int, hash: string, entries: seq<Entry>, signature: string, n: nat, m: nat)
    returns (a: Proposal, b: Proposal, d: Proposal)
    requires c.termsOk(terms) && IsHex(hash, 64) && Sample(entries, signature)
    requires n <= MAX_SIGNATURES < m <= |entries| && |entries| - n <= MAX_SIGNATURES
    ensures MergeLeft(c, a, b, d).Failure? && MergeRight(c, a, b, d).Success?
    ensures Sample(a.signatures, signature) && Sample(b.signatures, signature) && Sample(d.signatures, signature)
  {
    a := PartOf(terms, hash, entries, 0, n);
    b := PartOf(terms, hash, entries, n, m);
    d := PartOf(terms, hash, entries, m, |entries|);
    PartFormed(c, terms, hash, entries, signature, 0, n);
    PartFormed(c, terms, hash, entries, signature, n, m);
    PartFormed(c, terms, hash, entries, signature, m, |entries|);
    SampleSigners(entries, signature, 0, n, m);
    SampleSigners(entries, signature, n, m, |entries|);
    SamplesDiffer(c, a, b, d, signature);
  }

  /** 30 owners, 30 others and one more: merging the first two first fails at the next step, with 60
      signatures; merging the last two first succeeds. */
  lemma GroupingMatters(c: Crypto, terms: int) returns (a: Proposal, b: Proposal, d: Proposal)
    requires c.termsOk(terms)
    ensures WellFormed(c, a) && WellFormed(c, b) && WellFormed(c, d) && AllDistinct(a, b, d)
    ensures MergeLeft(c, a, b, d).Failure? && MergeRight(c, a, b, d).Success?
  {
    var entries := SampleEntries(61);
    a, b, d := PartsDiffer(c, terms, Zeros(64), entries, Zeros(130), 30, 60);
  }
}
