/** Model of Safe proposal signatures (apps/extension/src/safe.ts): format, verification, signing and
    the execution blob.  Hashing, signature recovery and address checksums are parameters. */
module SafeProposals {
  import opened Wrappers
  import KeyOrder

  datatype Entry = Entry(owner: string, signature: string)

  /** `terms` stands for every field that enters the proposal hash. */
  datatype Proposal = Proposal(terms: int, safeTxHash: string, signatures: seq<Entry>)

  datatype Error =
    | InvalidFormat | HashMismatch | BadSignature | NotAnOwner | AlreadySigned
    | Different | Conflict | BelowThreshold

  /** `recover(hash, signature)` is the signer and the canonical text of an acceptable signature. */
  datatype Crypto = Crypto(
    hash: int -> string,
    recover: (string, string) -> Option<Entry>,
    validAddress: string -> bool,
    termsOk: int -> bool)

  // ---------- Text ----------

  function LowerChar(c: char): char {
    if 'A' <= c <= 'Z' then (c as int + 32) as char else c
  }

  function Lower(text: string): string {
    seq(|text|, i requires 0 <= i < |text| => LowerChar(text[i]))
  }

  /** The same letter, perhaps in the other case. */
  predicate SameLetter(c: char, d: char) {
    || c == d
    || ('A' <= c <= 'Z' && d as int == c as int + 32)
    || ('A' <= d <= 'Z' && c as int == d as int + 32)
  }

  /** The same text, up to the case of the letters A to Z. */
  predicate SameText(a: string, b: string) {
    |a| == |b| && forall i :: 0 <= i < |a| ==> SameLetter(a[i], b[i])
  }

  /** Texts are equal in lower case exactly if they differ in case only; and lower case has no capitals. */
  lemma LowerExactly(a: string, b: string)
    ensures Lower(a) == Lower(b) <==> SameText(a, b)
    ensures SameText(Lower(a), a) && forall i :: 0 <= i < |a| ==> !('A' <= Lower(a)[i] <= 'Z')
  {
    if Lower(a) == Lower(b) {
      assert |Lower(a)| == |a| && |Lower(b)| == |b|;
      forall i | 0 <= i < |a| ensures SameLetter(a[i], b[i]) {
        assert Lower(a)[i] == Lower(b)[i];
      }
    }
    if SameText(a, b) {
      forall i | 0 <= i < |a| ensures Lower(a)[i] == Lower(b)[i] {
        assert SameLetter(a[i], b[i]);
      }
    }
  }

  lemma LowerTwice(text: string)
    ensures Lower(Lower(text)) == Lower(text)
  {
  }

  predicate IsHexDigit(c: char) {
    '0' <= c <= '9' || 'a' <= c <= 'f' || 'A' <= c <= 'F'
  }

  /** The match of `^0x[a-f\d]{n}$`, in either case. */
  predicate IsHex(text: string, n: nat) {
    && |text| == n + 2 && text[0] == '0' && (text[1] == 'x' || text[1] == 'X')
    && forall i :: 2 <= i < |text| ==> IsHexDigit(text[i])
  }

  // ---------- Format ----------

  const MAX_SIGNATURES := 50
  const MAX_OWNERS := 50

  predicate EntryFormed(e: Entry) {
    IsHex(e.owner, 40) && IsHex(e.signature, 130)
  }

  /** What `parseProposal` accepts; `termsOk` stands for its checks of the terms. */
  predicate WellFormed(c: Crypto, p: Proposal) {
    && c.termsOk(p.terms) && IsHex(p.safeTxHash, 64)
    && |p.signatures| <= MAX_SIGNATURES
    && forall i :: 0 <= i < |p.signatures| ==> EntryFormed(p.signatures[i])
  }

  const HEX_DIGITS := {'0', '1', '2', '3', '4', '5', '6', '7', '8', '9',
                       'a', 'b', 'c', 'd', 'e', 'f', 'A', 'B', 'C', 'D', 'E', 'F'}

  /** The prefix `0x` and this many hexadecimal digits. */
  ghost predicate Hexadecimal(text: string, n: nat) {
    && |text| == n + 2 && text[0] == '0' && text[1] in {'x', 'X'}
    && forall i :: 2 <= i < |text| ==> text[i] in HEX_DIGITS
  }

  lemma HexExactly(text: string, n: nat)
    ensures IsHex(text, n) <==> Hexadecimal(text, n)
  {
    forall c ensures IsHexDigit(c) <==> c in HEX_DIGITS {
    }
  }

  /** The format, spelled out. */
  lemma FormatExactly(c: Crypto, p: Proposal)
    ensures WellFormed(c, p)
       <==> && c.termsOk(p.terms) && Hexadecimal(p.safeTxHash, 64) && |p.signatures| <= 50
            && forall i :: 0 <= i < |p.signatures| ==>
                 Hexadecimal(p.signatures[i].owner, 40) && Hexadecimal(p.signatures[i].signature, 130)
  {
    HexExactly(p.safeTxHash, 64);
    forall i | 0 <= i < |p.signatures|
      ensures EntryFormed(p.signatures[i])
         <==> Hexadecimal(p.signatures[i].owner, 40) && Hexadecimal(p.signatures[i].signature, 130)
    {
      HexExactly(p.signatures[i].owner, 40);
      HexExactly(p.signatures[i].signature, 130);
    }
  }

  // ---------- Order ----------

  function Codes(text: string): seq<int> {
    seq(|text|, i requires 0 <= i < |text| => text[i] as int)
  }

  /** `localeCompare` on lower-case hexadecimal addresses: digits before letters, left to right. */
  predicate Before(a: string, b: string) {
    KeyOrder.Less(Codes(a), Codes(b))
  }

  /** In the characters: the first difference decides, and a proper prefix comes first. */
  ghost predicate ComesFirst(a: string, b: string) {
    || (exists k: nat :: SmallerAt(a, b, k))
    || (|a| < |b| && a == b[..|a|])
  }

  ghost predicate SmallerAt(a: string, b: string, k: nat) {
    k < |a| && k < |b| && a[..k] == b[..k] && a[k] < b[k]
  }

  lemma CodesPrefix(a: string, b: string, k: nat)
    requires k <= |a| && k <= |b|
    ensures Codes(a)[..k] == Codes(b)[..k] <==> a[..k] == b[..k]
  {
    forall i | 0 <= i < k ensures Codes(a)[i] == Codes(b)[i] <==> a[i] == b[i] {
    }
    if Codes(a)[..k] == Codes(b)[..k] {
      forall i | 0 <= i < k ensures a[..k][i] == b[..k][i] {
        assert Codes(a)[..k][i] == Codes(b)[..k][i];
      }
    }
    if a[..k] == b[..k] {
      forall i | 0 <= i < k ensures Codes(a)[..k][i] == Codes(b)[..k][i] {
        assert a[..k][i] == b[..k][i];
      }
    }
  }

  lemma BeforeExactly(a: string, b: string)
    ensures Before(a, b) <==> ComesFirst(a, b)
  {
    KeyOrder.LessExactly(Codes(a), Codes(b));
    forall k: nat ensures KeyOrder.SmallerAt(Codes(a), Codes(b), k) <==> SmallerAt(a, b, k) {
      if k < |a| && k < |b| {
        CodesPrefix(a, b, k);
      }
    }
    if |a| < |b| {
      CodesPrefix(a, b, |a|);
      assert a[..|a|] == a && Codes(a)[..|a|] == Codes(a);
    }
  }

  lemma FirstTransitive(a: string, b: string, c: string)
    requires ComesFirst(a, b) && ComesFirst(b, c)
    ensures ComesFirst(a, c)
  {
    BeforeExactly(a, b);
    BeforeExactly(b, c);
    BeforeExactly(a, c);
    KeyOrder.LessTransitive(Codes(a), Codes(b), Codes(c));
  }

  lemma FirstTotal(a: string, b: string)
    ensures !ComesFirst(a, a)
    ensures a == b || ComesFirst(a, b) || ComesFirst(b, a)
  {
    BeforeExactly(a, a);
    BeforeExactly(a, b);
    BeforeExactly(b, a);
    KeyOrder.LessIrreflexive(Codes(a));
    KeyOrder.LessTotal(Codes(a), Codes(b));
    if Codes(a) == Codes(b) {
      assert |Codes(a)| == |a| && |Codes(b)| == |b|;
      CodesPrefix(a, b, |a|);
      assert a[..|a|] == a && b[..|a|] == b;
    }
  }

  // ---------- Verification ----------

  ghost predicate OwnersAscend(entries: seq<Entry>) {
    forall i, j :: 0 <= i < j < |entries| ==> ComesFirst(entries[i].owner, entries[j].owner)
  }

  predicate IsOwner(owner: string, owners: seq<string>) {
    exists i :: 0 <= i < |owners| && Lower(owners[i]) == owner
  }

  /** The signature recovers to the owner it is said to be by, who has a proper address and is an owner
      of the Safe. */
  predicate Genuine(c: Crypto, hash: string, entry: Entry, owners: seq<string>) {
    var recovered := c.recover(hash, entry.signature);
    && recovered.Some? && SameText(recovered.value.owner, entry.owner)
    && c.validAddress(entry.owner)
    && exists i :: 0 <= i < |owners| && SameText(owners[i], entry.owner)
  }

  /** What is kept of a genuine entry: the owner in lower case, the signature in canonical form. */
  predicate KeptAs(c: Crypto, hash: string, raw: Entry, e: Entry) {
    && e.owner == Lower(raw.owner)
    && c.recover(hash, raw.signature).Some? && e.signature == c.recover(hash, raw.signature).value.signature
  }

  lemma OwnerExactly(owner: string, owners: seq<string>)
    ensures IsOwner(Lower(owner), owners) <==> exists i :: 0 <= i < |owners| && SameText(owners[i], owner)
  {
    forall i | 0 <= i < |owners| ensures Lower(owners[i]) == Lower(owner) <==> SameText(owners[i], owner) {
      LowerExactly(owners[i], owner);
    }
  }

  /** What verification turns an entry into, if it accepts it: exactly the genuine ones. */
  function Checked(c: Crypto, hash: string, entry: Entry, owners: seq<string>): (r: Option<Entry>)
    ensures r.Some? <==> Genuine(c, hash, entry, owners)
    ensures r.Some? ==> KeptAs(c, hash, entry, r.value)
  {
    var recovered := c.recover(hash, entry.signature);
    OwnerExactly(entry.owner, owners);
    if recovered.None? || !c.validAddress(entry.owner) then None
    else
      LowerExactly(recovered.value.owner, entry.owner);
      if Lower(recovered.value.owner) != Lower(entry.owner) || !IsOwner(Lower(entry.owner), owners) then None
      else Some(Entry(Lower(entry.owner), recovered.value.signature))
  }

  function Insert(entry: Entry, sorted: seq<Entry>): seq<Entry> {
    if sorted == [] || Before(entry.owner, sorted[0].owner) then [entry] + sorted
    else [sorted[0]] + Insert(entry, sorted[1..])
  }

  lemma {:induction false} InsertAscends(entry: Entry, sorted: seq<Entry>)
    requires OwnersAscend(sorted) && forall e :: e in sorted ==> e.owner != entry.owner
    ensures OwnersAscend(Insert(entry, sorted))
    ensures forall e :: e in Insert(entry, sorted) <==> e == entry || e in sorted
    ensures |Insert(entry, sorted)| == |sorted| + 1
  {
    if sorted == [] {
    } else if Before(entry.owner, sorted[0].owner) {
      BeforeExactly(entry.owner, sorted[0].owner);
      forall j | 0 <= j < |sorted| ensures ComesFirst(entry.owner, sorted[j].owner) {
        if j > 0 { FirstTransitive(entry.owner, sorted[0].owner, sorted[j].owner); }
      }
    } else {
      assert sorted[0] in sorted;
      BeforeExactly(entry.owner, sorted[0].owner);
      FirstTotal(entry.owner, sorted[0].owner);
      var tail := sorted[1..];
      assert forall e :: e in sorted <==> e == sorted[0] || e in tail by { assert sorted == [sorted[0]] + tail; }
      InsertAscends(entry, tail);
      var rest := Insert(entry, tail);
      forall e | e in rest ensures ComesFirst(sorted[0].owner, e.owner) {
        if e != entry {
          var k :| 0 <= k < |tail| && tail[k] == e;
          assert tail[k] == sorted[k + 1];
        }
      }
      AscendsCons(sorted[0], rest);
    }
  }

  lemma AscendsCons(first: Entry, rest: seq<Entry>)
    requires OwnersAscend(rest) && forall e :: e in rest ==> ComesFirst(first.owner, e.owner)
    ensures OwnersAscend([first] + rest)
  {
  }

  /** Some genuine entry is kept as `e`. */
  ghost predicate Vouched(c: Crypto, hash: string, owners: seq<string>, e: Entry) {
    exists raw: Entry {:trigger KeptAs(c, hash, raw, e)} :: Genuine(c, hash, raw, owners) && KeptAs(c, hash, raw, e)
  }

  /** A verified proposal: strictly ascending current owners, each with its canonical signature. */
  ghost predicate Verified(c: Crypto, p: Proposal, owners: seq<string>) {
    && SameText(c.hash(p.terms), p.safeTxHash)
    && OwnersAscend(p.signatures)
    && (forall e :: e in p.signatures ==> Vouched(c, p.safeTxHash, owners, e))
  }

  /** The hash is that of the terms, every entry is genuine, and no two are by the same owner. */
  ghost predicate Acceptable(c: Crypto, p: Proposal, owners: seq<string>) {
    && SameText(c.hash(p.terms), p.safeTxHash)
    && (forall i :: 0 <= i < |p.signatures| ==> Genuine(c, p.safeTxHash, p.signatures[i], owners))
    && (forall i, j :: 0 <= i < j < |p.signatures| ==> !SameText(p.signatures[i].owner, p.signatures[j].owner))
  }

  /** Succeeds exactly on acceptable proposals, and keeps exactly their entries, the owners in lower case
      and ascending. */
  method VerifySignatures(c: Crypto, p: Proposal, owners: seq<string>) returns (r: Result<Proposal, Error>)
    ensures r.Success? <==> Acceptable(c, p, owners)
    ensures r.Success? ==> r.value.terms == p.terms && r.value.safeTxHash == p.safeTxHash
    ensures r.Success? ==> Verified(c, r.value, owners) && |r.value.signatures| == |p.signatures|
    ensures r.Success? ==>
              forall e :: e in r.value.signatures <==>
                exists i :: 0 <= i < |p.signatures| && Yields(c, p, owners, i, e)
  {
    LowerExactly(c.hash(p.terms), p.safeTxHash);
    if Lower(c.hash(p.terms)) != Lower(p.safeTxHash) {
      return Failure(HashMismatch);
    }
    var seen: set<string>, sorted: seq<Entry> := {}, [];
    for i := 0 to |p.signatures|
      invariant Accepted(c, p, owners, i, seen, sorted)
    {
      var checked := Checked(c, p.safeTxHash, p.signatures[i], owners);
      if checked.None? {
        return Failure(BadSignature);
      }
      var owner := checked.value.owner;
      if owner in seen {
        assert SeenBy(p, i, owner);
        SeenTwice(c, p, owners, i);
        return Failure(BadSignature);
      }
      AcceptOne(c, p, owners, i, seen, sorted, checked.value);
      seen := seen + {owner};
      sorted := Insert(checked.value, sorted);
    }
    OwnersDiffer(p);
    assert forall e :: YieldedBy(c, p, owners, |p.signatures|, e) <==>
                       exists i :: 0 <= i < |p.signatures| && Yields(c, p, owners, i, e);
    return Success(p.(signatures := sorted));
  }

  /** Entry `k` of the proposal is accepted, as `e`. */
  ghost predicate Yields(c: Crypto, p: Proposal, owners: seq<string>, k: nat, e: Entry)
    requires k < |p.signatures|
  {
    Genuine(c, p.safeTxHash, p.signatures[k], owners) && KeptAs(c, p.safeTxHash, p.signatures[k], e)
  }

  lemma SeenTwice(c: Crypto, p: Proposal, owners: seq<string>, i: nat)
    requires i < |p.signatures| && SeenBy(p, i, Lower(p.signatures[i].owner))
    ensures !Acceptable(c, p, owners)
  {
    var k :| 0 <= k < i && Lower(p.signatures[k].owner) == Lower(p.signatures[i].owner);
    LowerExactly(p.signatures[k].owner, p.signatures[i].owner);
  }

  /** Owners differ in lower case exactly if they differ in more than case. */
  lemma OwnersDiffer(p: Proposal)
    ensures
      var all := p.signatures;
      (forall i, j :: 0 <= i < j < |all| ==> Lower(all[i].owner) != Lower(all[j].owner))
      <==> (forall i, j :: 0 <= i < j < |all| ==> !SameText(all[i].owner, all[j].owner))
  {
    forall i, j | 0 <= i < j < |p.signatures|
      ensures Lower(p.signatures[i].owner) == Lower(p.signatures[j].owner)
         <==> SameText(p.signatures[i].owner, p.signatures[j].owner)
    {
      LowerExactly(p.signatures[i].owner, p.signatures[j].owner);
    }
  }

  /** The state of the verification loop after `i` entries. */
  ghost predicate Accepted(c: Crypto, p: Proposal, owners: seq<string>, i: nat, seen: set<string>, sorted: seq<Entry>)
    requires i <= |p.signatures|
  {
    && OwnersAscend(sorted) && |sorted| == i
    && (forall k :: 0 <= k < i ==> Checked(c, p.safeTxHash, p.signatures[k], owners).Some?)
    && (forall e :: e in sorted <==> YieldedBy(c, p, owners, i, e))
    && (forall o :: o in seen <==> SeenBy(p, i, o))
    && (forall j, k :: 0 <= j < k < i ==> Lower(p.signatures[j].owner) != Lower(p.signatures[k].owner))
  }

  ghost predicate YieldedBy(c: Crypto, p: Proposal, owners: seq<string>, i: nat, e: Entry)
    requires i <= |p.signatures|
  {
    exists k :: 0 <= k < i && Yields(c, p, owners, k, e)
  }

  ghost predicate SeenBy(p: Proposal, i: nat, o: string)
    requires i <= |p.signatures|
  {
    exists k :: 0 <= k < i && Lower(p.signatures[k].owner) == o
  }

  lemma YieldedNext(c: Crypto, p: Proposal, owners: seq<string>, i: nat, e: Entry)
    requires i < |p.signatures|
    ensures YieldedBy(c, p, owners, i + 1, e) <==> YieldedBy(c, p, owners, i, e) || Yields(c, p, owners, i, e)
  {
  }

  lemma SeenNext(p: Proposal, i: nat, o: string)
    requires i < |p.signatures|
    ensures SeenBy(p, i + 1, o) <==> SeenBy(p, i, o) || Lower(p.signatures[i].owner) == o
  {
  }

  lemma NotYetSeen(c: Crypto, p: Proposal, owners: seq<string>, i: nat, sorted: seq<Entry>, owner: string)
    requires i < |p.signatures| && forall e :: e in sorted <==> YieldedBy(c, p, owners, i, e)
    requires !SeenBy(p, i, owner)
    ensures forall e :: e in sorted ==> e.owner != owner
  {
    forall e | e in sorted ensures e.owner != owner {
      assert YieldedBy(c, p, owners, i, e);
      var k :| 0 <= k < i && Yields(c, p, owners, k, e);
      assert e.owner == Lower(p.signatures[k].owner) && SeenBy(p, i, e.owner);
    }
  }

  lemma AcceptSorted(c: Crypto, p: Proposal, owners: seq<string>, i: nat, sorted: seq<Entry>, entry: Entry)
    requires i < |p.signatures| && OwnersAscend(sorted) && forall e :: e in sorted <==> YieldedBy(c, p, owners, i, e)
    requires Yields(c, p, owners, i, entry) && !SeenBy(p, i, entry.owner)
    ensures OwnersAscend(Insert(entry, sorted)) && |Insert(entry, sorted)| == |sorted| + 1
    ensures forall e :: e in Insert(entry, sorted) <==> YieldedBy(c, p, owners, i + 1, e)
  {
    NotYetSeen(c, p, owners, i, sorted, entry.owner);
    InsertAscends(entry, sorted);
    forall e ensures e in Insert(entry, sorted) <==> YieldedBy(c, p, owners, i + 1, e) {
      YieldedNext(c, p, owners, i, e);
    }
  }

  lemma AcceptSeen(p: Proposal, i: nat, seen: set<string>, owner: string)
    requires i < |p.signatures| && forall o :: o in seen <==> SeenBy(p, i, o)
    requires owner == Lower(p.signatures[i].owner) && owner !in seen
    ensures forall o :: o in seen + {owner} <==> SeenBy(p, i + 1, o)
    ensures forall k :: 0 <= k < i ==> Lower(p.signatures[k].owner) != owner
  {
    forall o ensures o in seen + {owner} <==> SeenBy(p, i + 1, o) {
      SeenNext(p, i, o);
    }
    forall k | 0 <= k < i ensures Lower(p.signatures[k].owner) != owner {
      assert SeenBy(p, i, Lower(p.signatures[k].owner));
    }
  }

  lemma AcceptOne(c: Crypto, p: Proposal, owners: seq<string>, i: nat, seen: set<string>, sorted: seq<Entry>, e: Entry)
    requires i < |p.signatures| && Accepted(c, p, owners, i, seen, sorted)
    requires Yields(c, p, owners, i, e) && e.owner !in seen
    ensures Accepted(c, p, owners, i + 1, seen + {e.owner}, Insert(e, sorted))
  {
    AcceptSeen(p, i, seen, e.owner);
    AcceptSorted(c, p, owners, i, sorted, e);
  }

  // ---------- Signing and executing ----------

  /** Recovering from a canonical signature gives the same, and lower case leaves an address valid. */
  ghost predicate Lawful(c: Crypto) {
    && (forall h, s :: c.recover(h, s).Some? ==> c.recover(h, c.recover(h, s).value.signature) == c.recover(h, s))
    && (forall a :: c.validAddress(a) ==> c.validAddress(Lower(a)))
  }

  /** A canonical signature is 65 bytes in hexadecimal, and the case of the hash's digits is immaterial. */
  ghost predicate HexLawful(c: Crypto) {
    && (forall h, s :: c.recover(h, s).Some? ==> IsHex(c.recover(h, s).value.signature, 130))
    && (forall h, k, s {:trigger c.recover(h, s), c.recover(k, s)} ::
          Lower(h) == Lower(k) ==> c.recover(h, s) == c.recover(k, s))
  }

  lemma GenuineAgain(c: Crypto, hash: string, raw: Entry, owners: seq<string>, e: Entry)
    requires Lawful(c) && Genuine(c, hash, raw, owners) && KeptAs(c, hash, raw, e)
    ensures Checked(c, hash, e, owners) == Some(e)
  {
    assert Checked(c, hash, raw, owners) == Some(e);
    LowerTwice(raw.owner);
    assert e.signature == c.recover(hash, raw.signature).value.signature;
  }

  /** The entries of a verified proposal pass the check again, unchanged. */
  lemma VerifiedAgain(c: Crypto, p: Proposal, owners: seq<string>, i: nat)
    requires Lawful(c) && Verified(c, p, owners) && i < |p.signatures|
    ensures Checked(c, p.safeTxHash, p.signatures[i], owners) == Some(p.signatures[i])
    ensures Lower(p.signatures[i].owner) == p.signatures[i].owner
  {
    var e := p.signatures[i];
    assert Vouched(c, p.safeTxHash, owners, e);
    var raw: Entry :| Genuine(c, p.safeTxHash, raw, owners) && KeptAs(c, p.safeTxHash, raw, e);
    GenuineAgain(c, p.safeTxHash, raw, owners, e);
    LowerTwice(raw.owner);
  }

  lemma KeptIsOwner(c: Crypto, p: Proposal, owners: seq<string>, e: Entry)
    requires Verified(c, p, owners) && e in p.signatures
    ensures IsOwner(e.owner, owners)
  {
    assert Vouched(c, p.safeTxHash, owners, e);
    var raw: Entry :| Genuine(c, p.safeTxHash, raw, owners) && KeptAs(c, p.safeTxHash, raw, e);
    OwnerExactly(raw.owner, owners);
  }

  predicate HasSigned(p: Proposal, owner: string) {
    exists i :: 0 <= i < |p.signatures| && p.signatures[i].owner == owner
  }

  /** An owner who has not signed, with a signature that checks out. */
  predicate MaySign(c: Crypto, p: Proposal, owners: seq<string>, wallet: Entry) {
    && (forall i :: 0 <= i < |p.signatures| ==> !SameText(p.signatures[i].owner, wallet.owner))
    && Genuine(c, p.safeTxHash, wallet, owners)
  }

  /** The owners of a verified proposal are in lower case, so looking for the lower-case one is enough. */
  lemma SignedExactly(c: Crypto, p: Proposal, owners: seq<string>, owner: string)
    requires Verified(c, p, owners)
    ensures HasSigned(p, Lower(owner))
       <==> exists i :: 0 <= i < |p.signatures| && SameText(p.signatures[i].owner, owner)
  {
    forall i | 0 <= i < |p.signatures|
      ensures p.signatures[i].owner == Lower(owner) <==> SameText(p.signatures[i].owner, owner)
    {
      KeptIsLower(c, p, owners, p.signatures[i]);
      LowerExactly(p.signatures[i].owner, owner);
    }
  }

  lemma KeptIsLower(c: Crypto, p: Proposal, owners: seq<string>, e: Entry)
    requires Verified(c, p, owners) && e in p.signatures
    ensures Lower(e.owner) == e.owner
  {
    assert Vouched(c, p.safeTxHash, owners, e);
    var raw: Entry :| Genuine(c, p.safeTxHash, raw, owners) && KeptAs(c, p.safeTxHash, raw, e);
    LowerTwice(raw.owner);
  }

  lemma PushedAcceptable(c: Crypto, p: Proposal, owners: seq<string>, wallet: Entry)
    requires Lawful(c) && Verified(c, p, owners) && MaySign(c, p, owners, wallet)
    ensures Acceptable(c, p.(signatures := p.signatures + [wallet]), owners)
  {
    var all := p.signatures + [wallet];
    forall i | 0 <= i < |all| ensures Genuine(c, p.safeTxHash, all[i], owners) {
      if i < |p.signatures| { VerifiedAgain(c, p, owners, i); }
    }
    forall i, j | 0 <= i < j < |all| ensures !SameText(all[i].owner, all[j].owner) {
      VerifiedAgain(c, p, owners, i);
      LowerExactly(all[i].owner, all[j].owner);
      if j < |p.signatures| {
        VerifiedAgain(c, p, owners, j);
        FirstTotal(all[i].owner, all[j].owner);
      }
    }
  }

  /** `signProposal` after validation: succeeds exactly for an owner who has not signed and whose
      signature checks out, and then adds that entry to the others.  The other entries are checked
      again here, so that they pass once more rests on recovery and checksums being lawful. */
  method SignProposal(c: Crypto, p: Proposal, owners: seq<string>, wallet: Entry) returns (r: Result<Proposal, Error>)
    requires Verified(c, p, owners)
    ensures r.Success? ==> MaySign(c, p, owners, wallet) && r.value == p.(signatures := r.value.signatures)
    ensures r.Success? ==> Verified(c, r.value, owners) && |r.value.signatures| == |p.signatures| + 1
    ensures Lawful(c) ==> (r.Success? <==> MaySign(c, p, owners, wallet))
    ensures Lawful(c) && r.Success? ==>
              forall e :: e in r.value.signatures <==>
                e in p.signatures || KeptAs(c, p.safeTxHash, wallet, e)
  {
    SignedExactly(c, p, owners, wallet.owner);
    OwnerExactly(wallet.owner, owners);
    if !IsOwner(Lower(wallet.owner), owners) {
      return Failure(NotAnOwner);
    }
    if HasSigned(p, Lower(wallet.owner)) {
      return Failure(AlreadySigned);
    }
    var pushed := p.(signatures := p.signatures + [wallet]);
    r := VerifySignatures(c, pushed, owners);
    assert pushed.signatures[|p.signatures|] == wallet;
    if Lawful(c) && MaySign(c, p, owners, wallet) {
      PushedAcceptable(c, p, owners, wallet);
      forall e
        ensures e in r.value.signatures <==>
                  e in p.signatures || KeptAs(c, p.safeTxHash, wallet, e)
      {
        PushedYields(c, p, owners, wallet, e);
      }
    }
  }

  lemma PushedYields(c: Crypto, p: Proposal, owners: seq<string>, wallet: Entry, e: Entry)
    requires Lawful(c) && Verified(c, p, owners) && Genuine(c, p.safeTxHash, wallet, owners)
    ensures
      var pushed := p.(signatures := p.signatures + [wallet]);
      (exists i :: 0 <= i < |pushed.signatures| && Yields(c, pushed, owners, i, e))
      <==> e in p.signatures || KeptAs(c, p.safeTxHash, wallet, e)
  {
    var pushed := p.(signatures := p.signatures + [wallet]);
    forall i | 0 <= i < |p.signatures| ensures Yields(c, pushed, owners, i, e) <==> e == p.signatures[i] {
      VerifiedAgain(c, p, owners, i);
    }
    assert Yields(c, pushed, owners, |p.signatures|, e) <==> KeptAs(c, p.safeTxHash, wallet, e);
    if e in p.signatures {
      var i :| 0 <= i < |p.signatures| && p.signatures[i] == e;
      assert Yields(c, pushed, owners, i, e);
    }
  }

  const SIGNATURE_CHARS := 132

  function Join(entries: seq<Entry>): string {
    if entries == [] then []
    else
      var last := entries[|entries| - 1].signature;
      Join(entries[..|entries| - 1]) + (if |last| >= 2 then last[2..] else [])
  }

  /** The signature blob of `prepareSafeExecution`: the first `threshold` signatures, in owner order. */
  method ExecutionBlob(p: Proposal, threshold: nat) returns (r: Result<string, Error>)
    ensures r.Success? <==> threshold <= |p.signatures|
    ensures r.Success? ==> r.value == "0x" + Join(p.signatures[..threshold])
  {
    if |p.signatures| < threshold {
      return Failure(BelowThreshold);
    }
    var joined := [];
    for i := 0 to threshold
      invariant joined == Join(p.signatures[..i])
    {
      assert p.signatures[..i + 1][..i] == p.signatures[..i];
      var s := p.signatures[i].signature;
      joined := joined + if |s| >= 2 then s[2..] else [];
    }
    return Success("0x" + joined);
  }

  lemma {:induction false} JoinChunks(entries: seq<Entry>, i: nat)
    requires forall e :: e in entries ==> |e.signature| == SIGNATURE_CHARS
    requires i < |entries|
    ensures |Join(entries)| == 130 * |entries|
    ensures Join(entries)[130 * i..130 * i + 130] == entries[i].signature[2..]
    decreases |entries|
  {
    var n := |entries| - 1;
    var init, chunk := entries[..n], entries[n].signature[2..];
    JoinLength(init);
    JoinLast(entries);
    if i < n {
      JoinChunks(init, i);
      SliceLeft(Join(init), chunk, 130 * i, 130 * i + 130);
    } else {
      SliceRight(Join(init), chunk);
    }
  }

  lemma JoinLast(entries: seq<Entry>)
    requires entries != [] && |entries[|entries| - 1].signature| >= 2
    ensures Join(entries) == Join(entries[..|entries| - 1]) + entries[|entries| - 1].signature[2..]
  {
  }

  lemma {:induction false} JoinLength(entries: seq<Entry>)
    requires forall e :: e in entries ==> |e.signature| == SIGNATURE_CHARS
    ensures |Join(entries)| == 130 * |entries|
  {
    if entries != [] {
      JoinLength(entries[..|entries| - 1]);
      assert entries[|entries| - 1] in entries;
    }
  }

  lemma SliceLeft(a: string, b: string, from: nat, to: nat)
    requires from <= to <= |a|
    ensures (a + b)[from..to] == a[from..to]
  {
  }

  lemma SliceRight(a: string, b: string)
    ensures (a + b)[|a|..|a| + |b|] == b
  {
  }

  /** An entry of this owner has a signature that recovers to the owner, with this canonical text. */
  ghost predicate SignedBy(c: Crypto, hash: string, owner: string, text: string) {
    exists raw: Entry {:trigger c.recover(hash, raw.signature)} ::
      var recovered := c.recover(hash, raw.signature);
      && SameText(raw.owner, owner) && recovered.Some?
      && SameText(recovered.value.owner, owner) && recovered.value.signature == text
  }

  /** What verification keeps was signed by its owner, who is an owner of the Safe. */
  lemma KeptIsSigned(c: Crypto, p: Proposal, owners: seq<string>, e: Entry)
    requires Verified(c, p, owners) && e in p.signatures
    ensures SignedBy(c, p.safeTxHash, e.owner, e.signature)
    ensures exists k :: 0 <= k < |owners| && SameText(owners[k], e.owner)
    ensures forall k :: 0 <= k < |e.owner| ==> !('A' <= e.owner[k] <= 'Z')
  {
    assert Vouched(c, p.safeTxHash, owners, e);
    var raw: Entry :| Genuine(c, p.safeTxHash, raw, owners) && KeptAs(c, p.safeTxHash, raw, e);
    var recovered := c.recover(p.safeTxHash, raw.signature);
    LowerExactly(raw.owner, e.owner);
    LowerTwice(raw.owner);
    LowerExactly(recovered.value.owner, raw.owner);
    LowerExactly(recovered.value.owner, e.owner);
    OwnerExactly(raw.owner, owners);
    OwnerExactly(e.owner, owners);
  }

  /** After verification, the blob is exactly `threshold` signatures of 65 bytes, by distinct current
      owners in strictly ascending order. */
  lemma BlobSigners(c: Crypto, p: Proposal, owners: seq<string>, threshold: nat, i: nat)
    requires Verified(c, p, owners) && i < threshold <= |p.signatures|
    requires forall e :: e in p.signatures ==> |e.signature| == SIGNATURE_CHARS
    ensures |Join(p.signatures[..threshold])| == 130 * threshold
    ensures Join(p.signatures[..threshold])[130 * i..130 * i + 130] == p.signatures[i].signature[2..]
    ensures SignedBy(c, p.safeTxHash, p.signatures[i].owner, p.signatures[i].signature)
    ensures exists k :: 0 <= k < |owners| && SameText(owners[k], p.signatures[i].owner)
    ensures forall j :: i < j < threshold ==> ComesFirst(p.signatures[i].owner, p.signatures[j].owner)
  {
    KeptIsSigned(c, p, owners, p.signatures[i]);
    JoinChunks(p.signatures[..threshold], i);
  }
}
