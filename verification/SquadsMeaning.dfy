/** What a compiled Squads message means: it keeps every program, account and byte of the
    instructions, and re-expanding its header gives back exactly the privileges they asked for. */
module SquadsMeaning {
  import opened KeyOrder
  import opened SquadsCompiler

  lemma SplitKeys(m: TransactionMessage, vault: Pubkey, ixs: seq<Instruction>)
    returns (ws: seq<Pubkey>, rs: seq<Pubkey>, wn: seq<Pubkey>, rn: seq<Pubkey>)
    requires IsCompilation(m, vault, ixs)
    ensures AreGroups(vault, ixs, ws, rs, wn, rn)
    ensures m.accountKeys == [vault] + ws + rs + wn + rn
    ensures m.numWritableSigners == 1 + |ws| && m.numSigners == 1 + |ws| + |rs| && m.numWritableNonSigners == |wn|
  {
    ws := m.accountKeys[1..m.numWritableSigners];
    rs := m.accountKeys[m.numWritableSigners..m.numSigners];
    wn := m.accountKeys[m.numSigners..m.numSigners + m.numWritableNonSigners];
    rn := m.accountKeys[m.numSigners + m.numWritableNonSigners..];
  }

  lemma GroupsDistinct(vault: Pubkey, ixs: seq<Instruction>,
                       ws: seq<Pubkey>, rs: seq<Pubkey>, wn: seq<Pubkey>, rn: seq<Pubkey>)
    requires AreGroups(vault, ixs, ws, rs, wn, rn)
    ensures Distinct([vault] + ws + rs + wn + rn)
  {
    AscendingDistinct(ws);
    AscendingDistinct(rs);
    AscendingDistinct(wn);
    AscendingDistinct(rn);
    assert Elements([vault]) == {vault};
    DistinctConcat([vault], ws);
    DistinctConcat([vault] + ws, rs);
    DistinctConcat([vault] + ws + rs, wn);
    DistinctConcat([vault] + ws + rs + wn, rn);
  }

  /** The key table is duplicate-free, and holds the used keys and the vault, which comes first. */
  lemma KeyTableExact(m: TransactionMessage, vault: Pubkey, ixs: seq<Instruction>)
    requires IsCompilation(m, vault, ixs)
    ensures m.accountKeys[0] == vault
    ensures Distinct(m.accountKeys)
    ensures Elements(m.accountKeys) == UsedKeys(ixs) + {vault}
  {
    var ws, rs, wn, rn := SplitKeys(m, vault, ixs);
    GroupsDistinct(vault, ixs, ws, rs, wn, rn);
    GroupsListEveryKey(vault, ixs, ws, rs, wn, rn);
  }

  lemma HeaderCounts(m: TransactionMessage, vault: Pubkey, ixs: seq<Instruction>)
    requires IsCompilation(m, vault, ixs)
    ensures m.numSigners == |SignerKeys(ixs) + {vault}|
    ensures m.numWritableSigners == |SignerKeys(ixs) * WritableKeys(ixs) + {vault}|
    ensures m.numWritableNonSigners == |WritableKeys(ixs) - SignerKeys(ixs) - {vault}|
    ensures |m.accountKeys| == |UsedKeys(ixs) + {vault}|
  {
    SignerCounts(m, vault, ixs);
    WritableCounts(m, vault, ixs);
  }

  lemma SignerCounts(m: TransactionMessage, vault: Pubkey, ixs: seq<Instruction>)
    requires IsCompilation(m, vault, ixs)
    ensures m.numSigners == |SignerKeys(ixs) + {vault}|
    ensures m.numWritableNonSigners == |WritableKeys(ixs) - SignerKeys(ixs) - {vault}|
    ensures |m.accountKeys| == |UsedKeys(ixs) + {vault}|
  {
    var ws, rs, wn, rn := SplitKeys(m, vault, ixs);
    GroupLengths(vault, ixs, ws, rs, wn, rn);
  }

  lemma WritableCounts(m: TransactionMessage, vault: Pubkey, ixs: seq<Instruction>)
    requires IsCompilation(m, vault, ixs)
    ensures m.numWritableSigners == |SignerKeys(ixs) * WritableKeys(ixs) + {vault}|
  {
    var ws, rs, wn, rn := SplitKeys(m, vault, ixs);
    var both := SignerKeys(ixs) * WritableKeys(ixs);
    ListsCount(ws, both - {vault});
    DisjointCount({vault}, both - {vault}, both + {vault});
  }

  /** Every used key has an index that fits a `u8`. */
  lemma UsedKeyIndexed(m: TransactionMessage, vault: Pubkey, ixs: seq<Instruction>, key: Pubkey) returns (index: u8)
    requires IsCompilation(m, vault, ixs) && key in UsedKeys(ixs)
    ensures index < |m.accountKeys| && m.accountKeys[index] == key
  {
    var ix :| ix in ixs && key in UsedBy(ix);
    var i :| 0 <= i < |ixs| && ixs[i] == ix;
    assert Denotes(m.accountKeys, m.instructions[i], ixs[i]);
    if key == ix.programId {
      index := m.instructions[i].programIdIndex;
    } else {
      var a :| a in ix.accounts && a.pubkey == key;
      var j :| 0 <= j < |ix.accounts| && ix.accounts[j] == a;
      index := m.instructions[i].accountIndexes[j];
    }
  }

  /** A compiled message exists only within the limits, so compilation succeeds exactly within them. */
  lemma CompilationFits(m: TransactionMessage, vault: Pubkey, ixs: seq<Instruction>)
    requires IsCompilation(m, vault, ixs)
    ensures CompileFits(vault, ixs)
  {
    AtMost256Keys(m, vault, ixs);
    HeaderCounts(m, vault, ixs);
  }

  lemma AtMost256Keys(m: TransactionMessage, vault: Pubkey, ixs: seq<Instruction>)
    requires IsCompilation(m, vault, ixs)
    ensures |m.accountKeys| <= 256
  {
    KeyTableExact(m, vault, ixs);
    if |m.accountKeys| > 256 {
      assert m.accountKeys[256] in Elements(m.accountKeys);
      var index := UsedKeyIndexed(m, vault, ixs, m.accountKeys[256]);
      assert false;
    }
  }

  lemma DenotationUnique(keys: seq<Pubkey>, c: CompiledInstruction, d: CompiledInstruction, ix: Instruction)
    requires Distinct(keys) && Denotes(keys, c, ix) && Denotes(keys, d, ix)
    ensures c == d
  {
    assert forall j :: 0 <= j < |ix.accounts| ==> c.accountIndexes[j] == d.accountIndexes[j];
    assert c.accountIndexes == d.accountIndexes;
  }

  lemma KeysUnique(m: TransactionMessage, n: TransactionMessage, vault: Pubkey, ixs: seq<Instruction>)
    requires IsCompilation(m, vault, ixs) && IsCompilation(n, vault, ixs)
    ensures m.accountKeys == n.accountKeys && m.numSigners == n.numSigners
    ensures m.numWritableSigners == n.numWritableSigners && m.numWritableNonSigners == n.numWritableNonSigners
  {
    var a, b, c, d := SplitKeys(m, vault, ixs);
    var a', b', c', d' := SplitKeys(n, vault, ixs);
    AscendingUnique(a, a');
    AscendingUnique(b, b');
    AscendingUnique(c, c');
    AscendingUnique(d, d');
  }

  /** `IsCompilation` pins the message down completely. */
  lemma CompilationUnique(m: TransactionMessage, n: TransactionMessage, vault: Pubkey, ixs: seq<Instruction>)
    requires IsCompilation(m, vault, ixs) && IsCompilation(n, vault, ixs)
    ensures m == n
  {
    KeysUnique(m, n, vault, ixs);
    KeyTableExact(m, vault, ixs);
    forall i | 0 <= i < |ixs| ensures m.instructions[i] == n.instructions[i] {
      DenotationUnique(m.accountKeys, m.instructions[i], n.instructions[i], ixs[i]);
    }
    assert m.instructions == n.instructions;
  }

  // ---------- Re-expansion for execution ----------

  predicate IsStaticWritableIndex(m: TransactionMessage, index: nat) {
    if index < m.numWritableSigners then true
    else if index >= m.numSigners then index - m.numSigners < m.numWritableNonSigners
    else false
  }

  predicate IsSignerIndex(m: TransactionMessage, index: nat) {
    index < m.numSigners
  }

  /** `vault` and `ephemeralPdas` are the program-derived addresses the source computes here. */
  function MessageAccountsForExecute(m: TransactionMessage, vault: Pubkey,
                                     ephemeralPdas: seq<Pubkey>): seq<AccountMeta> {
    seq(|m.accountKeys|, index requires 0 <= index < |m.accountKeys| =>
      AccountMeta(m.accountKeys[index],
                  IsSignerIndex(m, index) && m.accountKeys[index] != vault && m.accountKeys[index] !in ephemeralPdas,
                  IsStaticWritableIndex(m, index)))
  }

  lemma PrivilegesOfIndex(m: TransactionMessage, vault: Pubkey, ixs: seq<Instruction>, index: nat)
    requires IsCompilation(m, vault, ixs) && index < |m.accountKeys|
    ensures IsStaticWritableIndex(m, index) <==> m.accountKeys[index] in WritableKeys(ixs) + {vault}
    ensures IsSignerIndex(m, index) <==> m.accountKeys[index] in SignerKeys(ixs) + {vault}
  {
    var key := m.accountKeys[index];
    var a, b, c := m.numWritableSigners, m.numSigners, m.numSigners + m.numWritableNonSigners;
    if index == 0 {
    } else if index < a {
      assert m.accountKeys[1..a][index - 1] == key;
      assert key in Elements(m.accountKeys[1..a]);
    } else if index < b {
      assert m.accountKeys[a..b][index - a] == key;
      assert key in Elements(m.accountKeys[a..b]);
    } else if index < c {
      assert m.accountKeys[b..c][index - b] == key;
      assert key in Elements(m.accountKeys[b..c]);
    } else {
      assert m.accountKeys[c..][index - c] == key;
      assert key in Elements(m.accountKeys[c..]);
    }
  }

  /** Execution lists each used key and the vault once; a key is writable exactly when it is the
      vault or some instruction marks it writable, and signs exactly when it is neither the vault
      nor an ephemeral signer and some instruction marks it signer. */
  lemma PrivilegesPreserved(m: TransactionMessage, vault: Pubkey, ixs: seq<Instruction>, ephemeralPdas: seq<Pubkey>)
    requires IsCompilation(m, vault, ixs)
    ensures
      var metas := MessageAccountsForExecute(m, vault, ephemeralPdas);
      && (forall k :: k in UsedKeys(ixs) + {vault} <==> exists i :: 0 <= i < |metas| && metas[i].pubkey == k)
      && (forall i, j :: 0 <= i < j < |metas| ==> metas[i].pubkey != metas[j].pubkey)
      && (forall i :: 0 <= i < |metas| ==>
            (metas[i].isWritable <==> metas[i].pubkey == vault || metas[i].pubkey in WritableKeys(ixs)))
      && (forall i :: 0 <= i < |metas| ==>
            (metas[i].isSigner <==>
             metas[i].pubkey != vault && metas[i].pubkey in SignerKeys(ixs) && metas[i].pubkey !in ephemeralPdas))
  {
    var metas := MessageAccountsForExecute(m, vault, ephemeralPdas);
    KeyTableExact(m, vault, ixs);
    forall k | k in UsedKeys(ixs) + {vault} ensures exists i :: 0 <= i < |metas| && metas[i].pubkey == k {
      assert k in Elements(m.accountKeys);
      var i :| 0 <= i < |m.accountKeys| && m.accountKeys[i] == k;
      assert metas[i].pubkey == k;
    }
    forall i | 0 <= i < |metas| ensures metas[i].pubkey in UsedKeys(ixs) + {vault} {
      assert m.accountKeys[i] in Elements(m.accountKeys);
    }
    forall i | 0 <= i < |metas|
      ensures metas[i].isWritable <==> metas[i].pubkey == vault || metas[i].pubkey in WritableKeys(ixs)
      ensures metas[i].isSigner <==>
              metas[i].pubkey != vault && metas[i].pubkey in SignerKeys(ixs) && metas[i].pubkey !in ephemeralPdas
    {
      PrivilegesOfIndex(m, vault, ixs, i);
    }
  }
}
