/** Model of the Squads v4 message compiler (crates/app-services/src/squads_v4.rs).

    `CompileTransactionMessage` follows the source: it folds every mention of a key into a
    sorted table, partitions the table four ways and replaces keys by `u8` indexes.  What a
    compiled message has to be is stated separately, by `IsCompilation`, which never mentions
    the table; `CompilationUnique` shows that it leaves no freedom. */
module SquadsCompiler {
  import opened Wrappers
  import opened KeyOrder

  datatype AccountMeta = AccountMeta(pubkey: Pubkey, isSigner: bool, isWritable: bool)

  datatype Instruction = Instruction(programId: Pubkey, accounts: seq<AccountMeta>, data: seq<u8>)

  datatype CompiledInstruction = CompiledInstruction(programIdIndex: u8, accountIndexes: seq<u8>, data: seq<u8>)

  datatype AddressTableLookup =
    AddressTableLookup(accountKey: Pubkey, writableIndexes: seq<u8>, readonlyIndexes: seq<u8>)

  datatype TransactionMessage = TransactionMessage(
    numSigners: u8,
    numWritableSigners: u8,
    numWritableNonSigners: u8,
    accountKeys: seq<Pubkey>,
    instructions: seq<CompiledInstruction>,
    addressTableLookups: seq<AddressTableLookup>)

  // ---------- What the instructions say about keys ----------

  function UsedBy(ix: Instruction): set<Pubkey> {
    {ix.programId} + set a | a in ix.accounts :: a.pubkey
  }

  function UsedKeys(ixs: seq<Instruction>): set<Pubkey> {
    set ix, k | ix in ixs && k in UsedBy(ix) :: k
  }

  function SignerKeys(ixs: seq<Instruction>): set<Pubkey> {
    set ix, a | ix in ixs && a in ix.accounts && a.isSigner :: a.pubkey
  }

  function WritableKeys(ixs: seq<Instruction>): set<Pubkey> {
    set ix, a | ix in ixs && a in ix.accounts && a.isWritable :: a.pubkey
  }

  // ---------- What a compiled message is ----------

  /** `ci` names exactly the program, the accounts in order, and the data of `ix`. */
  ghost predicate Denotes(keys: seq<Pubkey>, ci: CompiledInstruction, ix: Instruction) {
    && ci.programIdIndex < |keys|
    && keys[ci.programIdIndex] == ix.programId
    && |ci.accountIndexes| == |ix.accounts|
    && (forall j :: 0 <= j < |ix.accounts| ==>
          ci.accountIndexes[j] < |keys| && keys[ci.accountIndexes[j]] == ix.accounts[j].pubkey)
    && ci.data == ix.data
  }

  ghost predicate Lists(keys: seq<Pubkey>, group: set<Pubkey>) {
    Ascending(keys) && Elements(keys) == group
  }

  ghost predicate IsCompilation(m: TransactionMessage, vault: Pubkey, ixs: seq<Instruction>) {
    var signers, writables := SignerKeys(ixs), WritableKeys(ixs);
    var writableEnd := m.numSigners + m.numWritableNonSigners;
    && 1 <= m.numWritableSigners <= m.numSigners && writableEnd <= |m.accountKeys|
    && m.accountKeys[0] == vault
    && Lists(m.accountKeys[1..m.numWritableSigners], signers * writables - {vault})
    && Lists(m.accountKeys[m.numWritableSigners..m.numSigners], signers - writables - {vault})
    && Lists(m.accountKeys[m.numSigners..writableEnd], writables - signers - {vault})
    && Lists(m.accountKeys[writableEnd..], UsedKeys(ixs) - signers - writables - {vault})
    && |m.instructions| == |ixs|
    && (forall i :: 0 <= i < |ixs| ==> Denotes(m.accountKeys, m.instructions[i], ixs[i]))
    && m.addressTableLookups == []
  }

  /** When every header count and every index of the compiled message fits a `u8`. */
  ghost predicate CompileFits(vault: Pubkey, ixs: seq<Instruction>) {
    && |SignerKeys(ixs) + {vault}| <= 255
    && |WritableKeys(ixs) - SignerKeys(ixs) - {vault}| <= 255
    && |UsedKeys(ixs) + {vault}| <= 256
  }

  // ---------- The key table ----------

  datatype KeyEntry = KeyEntry(key: Pubkey, isSigner: bool, isWritable: bool)

  function Keys(table: seq<KeyEntry>): seq<Pubkey> {
    seq(|table|, i requires 0 <= i < |table| => table[i].key)
  }

  /** `entry(key).or_default()` followed by `|=` on both flags, on a map iterated in key order. */
  function Touch(table: seq<KeyEntry>, key: Pubkey, isSigner: bool, isWritable: bool): seq<KeyEntry> {
    if table == [] then [KeyEntry(key, isSigner, isWritable)]
    else if table[0].key == key then
      [KeyEntry(key, table[0].isSigner || isSigner, table[0].isWritable || isWritable)] + table[1..]
    else if Less(key, table[0].key) then [KeyEntry(key, isSigner, isWritable)] + table
    else [table[0]] + Touch(table[1..], key, isSigner, isWritable)
  }

  /** `BTreeMap::remove`. */
  function Drop(table: seq<KeyEntry>, key: Pubkey): seq<KeyEntry> {
    if table == [] then []
    else if table[0].key == key then table[1..]
    else [table[0]] + Drop(table[1..], key)
  }

  /** One of the four `filter_map` passes over the table. */
  function Pick(table: seq<KeyEntry>, isSigner: bool, isWritable: bool): seq<Pubkey> {
    if table == [] then []
    else
      (if table[0].isSigner == isSigner && table[0].isWritable == isWritable then [table[0].key] else [])
      + Pick(table[1..], isSigner, isWritable)
  }

  ghost predicate InKeyOrder(table: seq<KeyEntry>) {
    forall i, j :: 0 <= i < j < |table| ==> Less(table[i].key, table[j].key)
  }

  ghost predicate HasKey(table: seq<KeyEntry>, k: Pubkey) {
    exists e :: e in table && e.key == k
  }

  /** The table lists `used` in key order, with the flags given by the other two sets. */
  ghost predicate Tabulates(table: seq<KeyEntry>, used: set<Pubkey>, signers: set<Pubkey>, writables: set<Pubkey>) {
    && InKeyOrder(table)
    && (forall e :: e in table ==>
          e.key in used && (e.isSigner <==> e.key in signers) && (e.isWritable <==> e.key in writables))
    && (forall k :: k in used ==> HasKey(table, k))
  }

  lemma OrderedTail(table: seq<KeyEntry>)
    requires table != [] && InKeyOrder(table)
    ensures InKeyOrder(table[1..])
    ensures forall e :: e in table[1..] ==> e in table && Less(table[0].key, e.key)
  {
    forall e | e in table[1..] ensures e in table && Less(table[0].key, e.key) {
      var i :| 0 <= i < |table[1..]| && table[1..][i] == e;
      assert table[i + 1] == e;
    }
  }

  lemma OrderedCons(e: KeyEntry, rest: seq<KeyEntry>)
    requires InKeyOrder(rest) && forall f :: f in rest ==> Less(e.key, f.key)
    ensures InKeyOrder([e] + rest)
  {
  }

  lemma HasKeyCons(e: KeyEntry, rest: seq<KeyEntry>, k: Pubkey)
    ensures HasKey([e] + rest, k) <==> k == e.key || HasKey(rest, k)
  {
    assert forall f :: f in [e] + rest <==> f == e || f in rest;
  }

  lemma TabulatesTail(table: seq<KeyEntry>, used: set<Pubkey>, signers: set<Pubkey>, writables: set<Pubkey>)
    requires table != [] && Tabulates(table, used, signers, writables)
    ensures Tabulates(table[1..], used - {table[0].key}, signers, writables)
  {
    var rest := table[1..];
    assert table == [table[0]] + rest;
    OrderedTail(table);
    forall e | e in rest ensures e.key != table[0].key {
      LessIrreflexive(e.key);
    }
    forall k | k in used - {table[0].key} ensures HasKey(rest, k) {
      HasKeyCons(table[0], rest, k);
    }
  }

  lemma TabulatesCons(e: KeyEntry, rest: seq<KeyEntry>, used: set<Pubkey>, signers: set<Pubkey>, writables: set<Pubkey>)
    requires Tabulates(rest, used, signers, writables)
    requires forall k :: k in used ==> Less(e.key, k)
    requires (e.isSigner <==> e.key in signers) && (e.isWritable <==> e.key in writables)
    ensures Tabulates([e] + rest, used + {e.key}, signers, writables)
  {
    OrderedCons(e, rest);
    forall k | k in used + {e.key} ensures HasKey([e] + rest, k) {
      HasKeyCons(e, rest, k);
    }
  }

  /** The head of a sorted table is below every other key it lists. */
  lemma HeadIsLeast(table: seq<KeyEntry>, used: set<Pubkey>, signers: set<Pubkey>, writables: set<Pubkey>)
    requires table != [] && Tabulates(table, used, signers, writables)
    ensures forall k :: k in used && k != table[0].key ==> Less(table[0].key, k)
  {
    forall k | k in used && k != table[0].key ensures Less(table[0].key, k) {
      assert HasKey(table, k);
      var e :| e in table && e.key == k;
      var i :| 0 <= i < |table| && table[i] == e;
    }
  }

  lemma NothingTabulated(used: set<Pubkey>, signers: set<Pubkey>, writables: set<Pubkey>)
    requires Tabulates([], used, signers, writables)
    ensures used == {}
  {
    assert forall e: KeyEntry :: e !in [];
    assert forall k :: !HasKey([], k);
  }

  function With(s: set<Pubkey>, key: Pubkey, flag: bool): set<Pubkey> {
    if flag then s + {key} else s
  }

  lemma TabulatesFlags(table: seq<KeyEntry>, used: set<Pubkey>,
                       s0: set<Pubkey>, w0: set<Pubkey>, s1: set<Pubkey>, w1: set<Pubkey>)
    requires Tabulates(table, used, s0, w0)
    requires forall k :: k in used ==> (k in s0 <==> k in s1) && (k in w0 <==> k in w1)
    ensures Tabulates(table, used, s1, w1)
  {
  }

  lemma TouchSame(head: KeyEntry, rest: seq<KeyEntry>, used: set<Pubkey>, signers: set<Pubkey>,
                  writables: set<Pubkey>, s: bool, w: bool)
    requires Tabulates(rest, used, signers, writables) && forall k :: k in used ==> Less(head.key, k)
    requires (head.isSigner <==> head.key in signers) && (head.isWritable <==> head.key in writables)
    ensures Tabulates([KeyEntry(head.key, head.isSigner || s, head.isWritable || w)] + rest, used + {head.key},
                      With(signers, head.key, s), With(writables, head.key, w))
  {
    var s1, w1 := With(signers, head.key, s), With(writables, head.key, w);
    forall k | k in used ensures k != head.key {
      LessIrreflexive(head.key);
    }
    TabulatesFlags(rest, used, signers, writables, s1, w1);
    TabulatesCons(KeyEntry(head.key, head.isSigner || s, head.isWritable || w), rest, used, s1, w1);
  }

  lemma TouchBefore(table: seq<KeyEntry>, used: set<Pubkey>, signers: set<Pubkey>,
                    writables: set<Pubkey>, key: Pubkey, s: bool, w: bool)
    requires Tabulates(table, used, signers, writables) && table != [] && Less(key, table[0].key)
    requires key in signers + writables ==> key in used
    ensures Tabulates([KeyEntry(key, s, w)] + table, used + {key}, With(signers, key, s), With(writables, key, w))
  {
    var s1, w1 := With(signers, key, s), With(writables, key, w);
    HeadIsLeast(table, used, signers, writables);
    forall k | k in used ensures Less(key, k) {
      if k != table[0].key { LessTransitive(key, table[0].key, k); }
    }
    if key in used { LessIrreflexive(key); }
    TabulatesFlags(table, used, signers, writables, s1, w1);
    TabulatesCons(KeyEntry(key, s, w), table, used, s1, w1);
  }

  lemma {:induction false} TouchTabulates(table: seq<KeyEntry>, used: set<Pubkey>, signers: set<Pubkey>,
                                          writables: set<Pubkey>, key: Pubkey, s: bool, w: bool)
    requires Tabulates(table, used, signers, writables)
    requires key in signers + writables ==> key in used
    ensures Tabulates(Touch(table, key, s, w), used + {key}, With(signers, key, s), With(writables, key, w))
  {
    var s1, w1 := With(signers, key, s), With(writables, key, w);
    if table == [] {
      assert used == {} by { NothingTabulated(used, signers, writables); }
      TabulatesCons(KeyEntry(key, s, w), [], {}, s1, w1);
      assert [KeyEntry(key, s, w)] + [] == Touch(table, key, s, w);
    } else {
      var head, rest := table[0], table[1..];
      HeadIsLeast(table, used, signers, writables);
      assert head in table;
      TabulatesTail(table, used, signers, writables);
      if head.key == key {
        TouchSame(head, rest, used - {key}, signers, writables, s, w);
        assert used - {key} + {key} == used + {key};
      } else if Less(key, head.key) {
        TouchBefore(table, used, signers, writables, key, s, w);
      } else {
        LessTotal(key, head.key);
        TouchTabulates(rest, used - {head.key}, signers, writables, key, s, w);
        assert Touch(table, key, s, w) == [head] + Touch(rest, key, s, w);
        TabulatesCons(head, Touch(rest, key, s, w), used - {head.key} + {key}, s1, w1);
        assert used - {head.key} + {key} + {head.key} == used + {key};
      }
    }
  }

  lemma {:induction false} DropTabulates(table: seq<KeyEntry>, used: set<Pubkey>, signers: set<Pubkey>,
                                         writables: set<Pubkey>, key: Pubkey)
    requires Tabulates(table, used, signers, writables)
    ensures Tabulates(Drop(table, key), used - {key}, signers, writables)
  {
    if table == [] {
    } else {
      TabulatesTail(table, used, signers, writables);
      if table[0].key != key {
        HeadIsLeast(table, used, signers, writables);
        assert table[0] in table;
        DropTabulates(table[1..], used - {table[0].key}, signers, writables, key);
        TabulatesCons(table[0], Drop(table[1..], key), used - {table[0].key} - {key}, signers, writables);
        assert used - {table[0].key} - {key} + {table[0].key} == used - {key};
      }
    }
  }

  ghost function GroupOf(used: set<Pubkey>, signers: set<Pubkey>, writables: set<Pubkey>, s: bool,
                         w: bool): set<Pubkey> {
    set k | k in used && (k in signers <==> s) && (k in writables <==> w)
  }

  lemma GroupWithout(used: set<Pubkey>, signers: set<Pubkey>, writables: set<Pubkey>, s: bool, w: bool, key: Pubkey)
    requires key in used
    ensures GroupOf(used, signers, writables, s, w)
         == GroupOf(used - {key}, signers, writables, s, w)
            + (if (key in signers <==> s) && (key in writables <==> w) then {key} else {})
  {
  }

  lemma {:induction false} PickLists(table: seq<KeyEntry>, used: set<Pubkey>, signers: set<Pubkey>,
                                     writables: set<Pubkey>, s: bool, w: bool)
    requires Tabulates(table, used, signers, writables)
    ensures Lists(Pick(table, s, w), GroupOf(used, signers, writables, s, w))
  {
    if table == [] {
      assert used == {} by { NothingTabulated(used, signers, writables); }
    } else {
      var head := table[0];
      assert head in table;
      HeadIsLeast(table, used, signers, writables);
      TabulatesTail(table, used, signers, writables);
      PickLists(table[1..], used - {head.key}, signers, writables, s, w);
      var rest := Pick(table[1..], s, w);
      assert forall k :: k in rest ==> k in Elements(rest);
      AscendingCons(head.key, rest);
      GroupWithout(used, signers, writables, s, w, head.key);
      if !(head.isSigner == s && head.isWritable == w) {
        assert Pick(table, s, w) == rest;
      }
    }
  }

  // ---------- The compiler ----------

  const TOO_MANY_ACCOUNTS := "Squads transaction has too many accounts"
  const MISSING_ACCOUNT := "Squads transaction message is missing an account"

  function CheckedU8(value: nat): Result<u8, string> {
    if value <= 255 then Success(value) else Failure(TOO_MANY_ACCOUNTS)
  }

  function Position(keys: seq<Pubkey>, key: Pubkey): (r: Option<nat>)
    ensures r.Some? <==> key in keys
    ensures r.Some? ==> r.value < |keys| && keys[r.value] == key && key !in keys[..r.value]
  {
    if keys == [] then None
    else if keys[0] == key then Some(0)
    else
      var rest := Position(keys[1..], key);
      assert rest.Some? ==> keys[..rest.value + 1] == [keys[0]] + keys[1..][..rest.value];
      if rest.Some? then Some(rest.value + 1) else None
  }

  function AccountIndex(keys: seq<Pubkey>, key: Pubkey): (r: Result<u8, string>)
    ensures r.Success? ==> r.value < |keys| && keys[r.value] == key && key !in keys[..r.value]
    ensures r == Failure(MISSING_ACCOUNT) <==> key !in keys
    ensures r == Failure(TOO_MANY_ACCOUNTS) <==> key in keys && |keys| > 256 && key !in keys[..256]
    ensures r.Failure? ==> r.error in {MISSING_ACCOUNT, TOO_MANY_ACCOUNTS}
  {
    var position := Position(keys, key);
    if position.None? then Failure(MISSING_ACCOUNT) else CheckedU8(position.value)
  }

  lemma UsedSnoc(before: seq<Instruction>, ix: Instruction)
    ensures UsedKeys(before + [ix]) == UsedKeys(before) + UsedBy(ix)
    ensures SignerKeys(before + [ix]) == SignerKeys(before) + SignerKeys([ix])
    ensures WritableKeys(before + [ix]) == WritableKeys(before) + WritableKeys([ix])
  {
    assert forall x :: x in before + [ix] <==> x in before || x == ix;
    assert forall x :: x in [ix] <==> x == ix;
  }

  lemma FlagsSnoc(ix: Instruction, accounts: seq<AccountMeta>, a: AccountMeta)
    ensures UsedBy(ix.(accounts := accounts + [a])) == UsedBy(ix.(accounts := accounts)) + {a.pubkey}
    ensures SignerKeys([ix.(accounts := accounts + [a])])
         == With(SignerKeys([ix.(accounts := accounts)]), a.pubkey, a.isSigner)
    ensures WritableKeys([ix.(accounts := accounts + [a])])
         == With(WritableKeys([ix.(accounts := accounts)]), a.pubkey, a.isWritable)
  {
    assert forall x :: x in accounts + [a] <==> x in accounts || x == a;
    var shorter, longer := ix.(accounts := accounts), ix.(accounts := accounts + [a]);
    assert forall x :: x in [shorter] <==> x == shorter;
    assert forall x :: x in [longer] <==> x == longer;
  }

  lemma FlaggedAreUsed(ixs: seq<Instruction>)
    ensures SignerKeys(ixs) <= UsedKeys(ixs) && WritableKeys(ixs) <= UsedKeys(ixs)
  {
    forall ix, a | ix in ixs && a in ix.accounts ensures a.pubkey in UsedKeys(ixs) {
      assert a.pubkey in UsedBy(ix);
    }
  }

  ghost predicate Covers(table: seq<KeyEntry>, ixs: seq<Instruction>) {
    Tabulates(table, UsedKeys(ixs), SignerKeys(ixs), WritableKeys(ixs))
  }

  lemma CoversProgram(table: seq<KeyEntry>, before: seq<Instruction>, ix: Instruction)
    requires Covers(table, before) && ix.accounts == []
    ensures Covers(Touch(table, ix.programId, false, false), before + [ix])
  {
    FlaggedAreUsed(before);
    TouchTabulates(table, UsedKeys(before), SignerKeys(before), WritableKeys(before), ix.programId, false, false);
    UsedSnoc(before, ix);
    assert SignerKeys([ix]) == {} && WritableKeys([ix]) == {} && UsedBy(ix) == {ix.programId};
    assert SignerKeys(before) + {} == SignerKeys(before) && WritableKeys(before) + {} == WritableKeys(before);
  }

  lemma MentionSnoc(before: seq<Instruction>, ix: Instruction, accounts: seq<AccountMeta>, a: AccountMeta)
    ensures
      var shorter, longer := before + [ix.(accounts := accounts)], before + [ix.(accounts := accounts + [a])];
      && UsedKeys(longer) == UsedKeys(shorter) + {a.pubkey}
      && SignerKeys(longer) == With(SignerKeys(shorter), a.pubkey, a.isSigner)
      && WritableKeys(longer) == With(WritableKeys(shorter), a.pubkey, a.isWritable)
  {
    var short, long := ix.(accounts := accounts), ix.(accounts := accounts + [a]);
    FlagsSnoc(ix, accounts, a);
    UsedSnoc(before, short);
    UsedSnoc(before, long);
    WithUnion(UsedKeys(before), UsedBy(short), a.pubkey, true);
    WithUnion(SignerKeys(before), SignerKeys([short]), a.pubkey, a.isSigner);
    WithUnion(WritableKeys(before), WritableKeys([short]), a.pubkey, a.isWritable);
  }

  lemma WithUnion(s: set<Pubkey>, t: set<Pubkey>, key: Pubkey, flag: bool)
    ensures s + With(t, key, flag) == With(s + t, key, flag)
  {
  }

  lemma CoversAccount(table: seq<KeyEntry>, before: seq<Instruction>, ix: Instruction,
                      accounts: seq<AccountMeta>, a: AccountMeta)
    requires Covers(table, before + [ix.(accounts := accounts)])
    ensures Covers(Touch(table, a.pubkey, a.isSigner, a.isWritable), before + [ix.(accounts := accounts + [a])])
  {
    var shorter, longer := before + [ix.(accounts := accounts)], before + [ix.(accounts := accounts + [a])];
    var used, signers, writables := UsedKeys(shorter), SignerKeys(shorter), WritableKeys(shorter);
    assert a.pubkey in signers + writables ==> a.pubkey in used by { FlaggedAreUsed(shorter); }
    TouchTabulates(table, used, signers, writables, a.pubkey, a.isSigner, a.isWritable);
    assert && UsedKeys(longer) == used + {a.pubkey}
           && SignerKeys(longer) == With(signers, a.pubkey, a.isSigner)
           && WritableKeys(longer) == With(writables, a.pubkey, a.isWritable)
    by { MentionSnoc(before, ix, accounts, a); }
  }

  ghost function FirstAccounts(ix: Instruction, j: nat): Instruction
    requires j <= |ix.accounts|
  {
    ix.(accounts := ix.accounts[..j])
  }

  lemma CoversNext(table: seq<KeyEntry>, before: seq<Instruction>, ix: Instruction, j: nat)
    requires j < |ix.accounts| && Covers(table, before + [FirstAccounts(ix, j)])
    ensures
      var a := ix.accounts[j];
      Covers(Touch(table, a.pubkey, a.isSigner, a.isWritable), before + [FirstAccounts(ix, j + 1)])
  {
    assert ix.accounts[..j + 1] == ix.accounts[..j] + [ix.accounts[j]];
    CoversAccount(table, before, ix, ix.accounts[..j], ix.accounts[j]);
  }

  method TouchInstruction(table: seq<KeyEntry>, ghost before: seq<Instruction>, ix: Instruction)
    returns (r: seq<KeyEntry>)
    requires Covers(table, before)
    ensures Covers(r, before + [ix])
  {
    r := Touch(table, ix.programId, false, false);
    CoversProgram(table, before, ix.(accounts := []));
    assert FirstAccounts(ix, 0) == ix.(accounts := []);
    for j := 0 to |ix.accounts|
      invariant Covers(r, before + [FirstAccounts(ix, j)])
    {
      CoversNext(r, before, ix, j);
      r := Touch(r, ix.accounts[j].pubkey, ix.accounts[j].isSigner, ix.accounts[j].isWritable);
    }
    assert FirstAccounts(ix, |ix.accounts|) == ix;
  }

  method BuildKeyTable(ixs: seq<Instruction>) returns (table: seq<KeyEntry>)
    ensures Covers(table, ixs)
  {
    table := [];
    for i := 0 to |ixs|
      invariant Covers(table, ixs[..i])
    {
      assert ixs[..i + 1] == ixs[..i] + [ixs[i]];
      table := TouchInstruction(table, ixs[..i], ixs[i]);
    }
    assert ixs[..|ixs|] == ixs;
  }

  method IndexAccounts(keys: seq<Pubkey>, accounts: seq<AccountMeta>) returns (r: Result<seq<u8>, string>)
    requires forall a :: a in accounts ==> a.pubkey in keys
    ensures r.Failure? ==> |keys| > 256 && r.error == TOO_MANY_ACCOUNTS
    ensures r.Success? ==> |r.value| == |accounts|
    ensures r.Success? ==>
              forall j :: 0 <= j < |accounts| ==> r.value[j] < |keys| && keys[r.value[j]] == accounts[j].pubkey
  {
    var indexes: seq<u8> := [];
    for j := 0 to |accounts|
      invariant |indexes| == j
      invariant forall k :: 0 <= k < j ==> indexes[k] < |keys| && keys[indexes[k]] == accounts[k].pubkey
    {
      var index := AccountIndex(keys, accounts[j].pubkey);
      if index.Failure? {
        return Failure(index.error);
      }
      indexes := indexes + [index.value];
    }
    return Success(indexes);
  }

  method CompileInstructions(keys: seq<Pubkey>, ixs: seq<Instruction>)
    returns (r: Result<seq<CompiledInstruction>, string>)
    requires forall ix, k :: ix in ixs && k in UsedBy(ix) ==> k in keys
    ensures r.Failure? ==> |keys| > 256 && r.error == TOO_MANY_ACCOUNTS
    ensures r.Success? ==> |r.value| == |ixs| && forall i :: 0 <= i < |ixs| ==> Denotes(keys, r.value[i], ixs[i])
  {
    var compiled := [];
    for i := 0 to |ixs|
      invariant |compiled| == i
      invariant forall k :: 0 <= k < i ==> Denotes(keys, compiled[k], ixs[k])
    {
      var ix := ixs[i];
      assert ix.programId in UsedBy(ix);
      var programIdIndex := AccountIndex(keys, ix.programId);
      if programIdIndex.Failure? {
        return Failure(programIdIndex.error);
      }
      forall a | a in ix.accounts ensures a.pubkey in keys {
        assert a.pubkey in UsedBy(ix);
      }
      var accountIndexes := IndexAccounts(keys, ix.accounts);
      if accountIndexes.Failure? {
        return Failure(accountIndexes.error);
      }
      compiled := compiled + [CompiledInstruction(programIdIndex.value, accountIndexes.value, ix.data)];
    }
    return Success(compiled);
  }

  lemma ListsCount(s: seq<Pubkey>, group: set<Pubkey>)
    requires Lists(s, group)
    ensures |s| == |group|
  {
    AscendingDistinct(s);
    DistinctCount(s);
  }

  lemma DisjointCount(a: set<Pubkey>, b: set<Pubkey>, whole: set<Pubkey>)
    requires a !! b && whole == a + b
    ensures |whole| == |a| + |b|
  {
  }

  /** The four groups and the vault partition the keys. */
  lemma GroupCounts(vault: Pubkey, used: set<Pubkey>, signers: set<Pubkey>, writables: set<Pubkey>)
    requires signers <= used && writables <= used
    ensures 1 + |signers * writables - {vault}| + |signers - writables - {vault}| == |signers + {vault}|
    ensures |signers + {vault}| + |writables - signers - {vault}| + |used - signers - writables - {vault}|
         == |used + {vault}|
  {
    SignerCount(vault, signers, writables);
    NonSignerCount(signers + {vault}, used + {vault}, writables);
    assert writables - (signers + {vault}) == writables - signers - {vault};
    assert used + {vault} - (signers + {vault}) - writables == used - signers - writables - {vault};
  }

  lemma SignerCount(vault: Pubkey, signers: set<Pubkey>, writables: set<Pubkey>)
    ensures 1 + |signers * writables - {vault}| + |signers - writables - {vault}| == |signers + {vault}|
  {
    var ws := signers * writables - {vault};
    DisjointCount({vault}, ws, {vault} + ws);
    DisjointCount({vault} + ws, signers - writables - {vault}, signers + {vault});
  }

  lemma NonSignerCount(signers: set<Pubkey>, used: set<Pubkey>, writables: set<Pubkey>)
    requires signers <= used && writables <= used
    ensures |signers| + |writables - signers| + |used - signers - writables| == |used|
  {
    DisjointCount(signers, writables - signers, signers + writables);
    DisjointCount(signers + writables, used - signers - writables, used);
  }

  lemma GroupsByFlags(vault: Pubkey, used: set<Pubkey>, signers: set<Pubkey>, writables: set<Pubkey>)
    requires signers <= used && writables <= used
    ensures
      var rest, s, w := used + {vault} - {vault}, signers + {vault}, writables + {vault};
      && GroupOf(rest, s, w, true, true) == signers * writables - {vault}
      && GroupOf(rest, s, w, true, false) == signers - writables - {vault}
      && GroupOf(rest, s, w, false, true) == writables - signers - {vault}
      && GroupOf(rest, s, w, false, false) == used - signers - writables - {vault}
  {
  }

  /** After the vault has been touched and removed, the four passes list the four groups. */
  lemma FourGroups(table: seq<KeyEntry>, vault: Pubkey, ixs: seq<Instruction>)
    requires Covers(table, ixs)
    ensures
      var t := Drop(Touch(table, vault, true, true), vault);
      var used, signers, writables := UsedKeys(ixs), SignerKeys(ixs), WritableKeys(ixs);
      && Lists(Pick(t, true, true), signers * writables - {vault})
      && Lists(Pick(t, true, false), signers - writables - {vault})
      && Lists(Pick(t, false, true), writables - signers - {vault})
      && Lists(Pick(t, false, false), used - signers - writables - {vault})
  {
    var used, signers, writables := UsedKeys(ixs), SignerKeys(ixs), WritableKeys(ixs);
    FlaggedAreUsed(ixs);
    var touched := Touch(table, vault, true, true);
    TouchTabulates(table, used, signers, writables, vault, true, true);
    DropTabulates(touched, used + {vault}, signers + {vault}, writables + {vault}, vault);
    var t, rest := Drop(touched, vault), used + {vault} - {vault};
    PickLists(t, rest, signers + {vault}, writables + {vault}, true, true);
    PickLists(t, rest, signers + {vault}, writables + {vault}, true, false);
    PickLists(t, rest, signers + {vault}, writables + {vault}, false, true);
    PickLists(t, rest, signers + {vault}, writables + {vault}, false, false);
    GroupsByFlags(vault, used, signers, writables);
  }

  ghost predicate AreGroups(vault: Pubkey, ixs: seq<Instruction>,
                            ws: seq<Pubkey>, rs: seq<Pubkey>, wn: seq<Pubkey>, rn: seq<Pubkey>) {
    var used, signers, writables := UsedKeys(ixs), SignerKeys(ixs), WritableKeys(ixs);
    && Lists(ws, signers * writables - {vault})
    && Lists(rs, signers - writables - {vault})
    && Lists(wn, writables - signers - {vault})
    && Lists(rn, used - signers - writables - {vault})
  }

  lemma GroupLengths(vault: Pubkey, ixs: seq<Instruction>, ws: seq<Pubkey>, rs: seq<Pubkey>, wn: seq<Pubkey>,
                     rn: seq<Pubkey>)
    requires AreGroups(vault, ixs, ws, rs, wn, rn)
    ensures 1 + |ws| + |rs| == |SignerKeys(ixs) + {vault}|
    ensures |wn| == |WritableKeys(ixs) - SignerKeys(ixs) - {vault}|
    ensures 1 + |ws| + |rs| + |wn| + |rn| == |UsedKeys(ixs) + {vault}|
  {
    var used, signers, writables := UsedKeys(ixs), SignerKeys(ixs), WritableKeys(ixs);
    FlaggedAreUsed(ixs);
    GroupCounts(vault, used, signers, writables);
    ListsCount(ws, signers * writables - {vault});
    ListsCount(rs, signers - writables - {vault});
    ListsCount(wn, writables - signers - {vault});
    ListsCount(rn, used - signers - writables - {vault});
  }

  lemma GroupsListEveryKey(vault: Pubkey, ixs: seq<Instruction>,
                           ws: seq<Pubkey>, rs: seq<Pubkey>, wn: seq<Pubkey>, rn: seq<Pubkey>)
    requires AreGroups(vault, ixs, ws, rs, wn, rn)
    ensures Elements([vault] + ws + rs + wn + rn) == UsedKeys(ixs) + {vault}
  {
    FlaggedAreUsed(ixs);
    assert Elements([vault] + ws + rs + wn + rn) == {vault} + Elements(ws) + Elements(rs) + Elements(wn) + Elements(rn);
  }

  lemma UsedAreListed(vault: Pubkey, ixs: seq<Instruction>,
                      ws: seq<Pubkey>, rs: seq<Pubkey>, wn: seq<Pubkey>, rn: seq<Pubkey>)
    requires AreGroups(vault, ixs, ws, rs, wn, rn)
    ensures forall ix, k :: ix in ixs && k in UsedBy(ix) ==> k in [vault] + ws + rs + wn + rn
  {
    GroupsListEveryKey(vault, ixs, ws, rs, wn, rn);
    forall ix, k | ix in ixs && k in UsedBy(ix) ensures k in [vault] + ws + rs + wn + rn {
      assert k in UsedKeys(ixs);
      assert k in Elements([vault] + ws + rs + wn + rn);
    }
  }

  lemma GroupsCompile(m: TransactionMessage, vault: Pubkey, ixs: seq<Instruction>,
                      ws: seq<Pubkey>, rs: seq<Pubkey>, wn: seq<Pubkey>, rn: seq<Pubkey>)
    requires AreGroups(vault, ixs, ws, rs, wn, rn)
    requires m.accountKeys == [vault] + ws + rs + wn + rn
    requires m.numWritableSigners == 1 + |ws| && m.numSigners == 1 + |ws| + |rs| && m.numWritableNonSigners == |wn|
    requires |m.instructions| == |ixs| && m.addressTableLookups == []
    requires forall i :: 0 <= i < |ixs| ==> Denotes(m.accountKeys, m.instructions[i], ixs[i])
    ensures IsCompilation(m, vault, ixs)
  {
    assert m.accountKeys[1..m.numWritableSigners] == ws;
    assert m.accountKeys[m.numWritableSigners..m.numSigners] == rs;
    assert m.accountKeys[m.numSigners..m.numSigners + m.numWritableNonSigners] == wn;
    assert m.accountKeys[m.numSigners + m.numWritableNonSigners..] == rn;
  }

  method CompileTransactionMessage(vault: Pubkey, ixs: seq<Instruction>)
    returns (r: Result<TransactionMessage, string>)
    ensures r.Success? ==> IsCompilation(r.value, vault, ixs)
    ensures r.Failure? ==> !CompileFits(vault, ixs) && r.error == TOO_MANY_ACCOUNTS
  {
    var table := BuildKeyTable(ixs);
    FourGroups(table, vault, ixs);
    table := Touch(table, vault, true, true);
    table := Drop(table, vault);
    var ws, rs := Pick(table, true, true), Pick(table, true, false);
    var wn, rn := Pick(table, false, true), Pick(table, false, false);
    assert AreGroups(vault, ixs, ws, rs, wn, rn);
    r := AssembleMessage(vault, ixs, ws, rs, wn, rn);
  }

  /** The second half of the source function: header counts, key table and indexes. */
  method AssembleMessage(vault: Pubkey, ixs: seq<Instruction>,
                         ws: seq<Pubkey>, rs: seq<Pubkey>, wn: seq<Pubkey>, rn: seq<Pubkey>)
    returns (r: Result<TransactionMessage, string>)
    requires AreGroups(vault, ixs, ws, rs, wn, rn)
    ensures r.Success? ==> IsCompilation(r.value, vault, ixs)
    ensures r.Failure? ==> !CompileFits(vault, ixs) && r.error == TOO_MANY_ACCOUNTS
  {
    GroupLengths(vault, ixs, ws, rs, wn, rn);
    var writableSigners := [vault] + ws;
    var numSigners := CheckedU8(|writableSigners| + |rs|);
    if numSigners.Failure? {
      return Failure(numSigners.error);
    }
    var numWritableSigners := CheckedU8(|writableSigners|);
    if numWritableSigners.Failure? {
      assert false;  // the writable signers are among the signers already counted
    }
    var numWritableNonSigners := CheckedU8(|wn|);
    if numWritableNonSigners.Failure? {
      return Failure(numWritableNonSigners.error);
    }
    var accountKeys := writableSigners + rs + wn + rn;
    UsedAreListed(vault, ixs, ws, rs, wn, rn);
    var instructions := CompileInstructions(accountKeys, ixs);
    if instructions.Failure? {
      return Failure(instructions.error);
    }
    r := Success(TransactionMessage(numSigners.value, numWritableSigners.value, numWritableNonSigners.value,
                                    accountKeys, instructions.value, []));
    GroupsCompile(r.value, vault, ixs, ws, rs, wn, rn);
  }
}
