/** The wire form of a Squads message, its parser, and the exact limits of the whole pipeline. */
module SquadsWire {
  import opened Wrappers
  import opened KeyOrder
  import opened SquadsCompiler
  import SquadsMeaning

  // ---------- The format ----------

  function Concat<T>(xs: seq<T>, print1: T -> seq<u8>): seq<u8> {
    if xs == [] then [] else print1(xs[0]) + Concat(xs[1..], print1)
  }

  /** A `write_small_vec_u8` section. */
  function VecBytes<T>(xs: seq<T>, print1: T -> seq<u8>): seq<u8>
    requires |xs| <= 255
  {
    [|xs|] + Concat(xs, print1)
  }

  /** `u16::to_le_bytes`. */
  function LittleEndian16(n: nat): seq<u8>
    requires n < 0x1_0000
  {
    [n % 256, n / 256]
  }

  predicate InstructionFits(ci: CompiledInstruction) {
    |ci.accountIndexes| <= 255 && |ci.data| <= 65535
  }

  predicate LookupFits(l: AddressTableLookup) {
    |l.writableIndexes| <= 255 && |l.readonlyIndexes| <= 255
  }

  predicate MessageFits(m: TransactionMessage) {
    && |m.accountKeys| <= 255 && |m.instructions| <= 255 && |m.addressTableLookups| <= 255
    && (forall ci :: ci in m.instructions ==> InstructionFits(ci))
    && (forall l :: l in m.addressTableLookups ==> LookupFits(l))
  }

  /** Total on every instruction, so that it can be mapped over a list; used only on fitting ones. */
  function InstructionBytes(ci: CompiledInstruction): seq<u8> {
    if InstructionFits(ci) then
      [ci.programIdIndex] + ([|ci.accountIndexes|] + ci.accountIndexes) + (LittleEndian16(|ci.data|) + ci.data)
    else []
  }

  function LookupBytes(l: AddressTableLookup): seq<u8> {
    if LookupFits(l) then
      l.accountKey + ([|l.writableIndexes|] + l.writableIndexes) + ([|l.readonlyIndexes|] + l.readonlyIndexes)
    else []
  }

  function KeyBytes(k: Pubkey): seq<u8> {
    k
  }

  ghost function MessageBytes(m: TransactionMessage): seq<u8>
    requires MessageFits(m)
  {
    [m.numSigners, m.numWritableSigners, m.numWritableNonSigners]
    + VecBytes(m.accountKeys, KeyBytes)
    + VecBytes(m.instructions, InstructionBytes)
    + VecBytes(m.addressTableLookups, LookupBytes)
  }

  // ---------- The writer ----------

  lemma {:induction false} ConcatSnoc<T>(xs: seq<T>, x: T, print1: T -> seq<u8>)
    ensures Concat(xs + [x], print1) == Concat(xs, print1) + print1(x)
  {
    if xs == [] {
      assert [] + [x] == [x];
    } else {
      assert (xs + [x])[1..] == xs[1..] + [x];
      ConcatSnoc(xs[1..], x, print1);
    }
  }

  method WriteSmallBytesU8(buffer: seq<u8>, values: seq<u8>, field: string) returns (r: Result<seq<u8>, string>)
    ensures r.Success? <==> |values| <= 255
    ensures r.Success? ==> r.value == buffer + ([|values|] + values)
    ensures r.Failure? ==> r.error == "Too many Squads " + field
  {
    if |values| > 255 {
      return Failure("Too many Squads " + field);
    }
    var out := buffer + [|values|];
    out := out + values;
    assert out == buffer + ([|values|] + values);
    return Success(out);
  }

  method WriteSmallBytesU16(buffer: seq<u8>, values: seq<u8>, field: string) returns (r: Result<seq<u8>, string>)
    ensures r.Success? <==> |values| <= 65535
    ensures r.Success? ==> r.value == buffer + (LittleEndian16(|values|) + values)
    ensures r.Failure? ==> r.error == "Squads " + field + " is too large"
  {
    if |values| > 65535 {
      return Failure("Squads " + field + " is too large");
    }
    var out := buffer + LittleEndian16(|values|);
    out := out + values;
    assert out == buffer + (LittleEndian16(|values|) + values);
    return Success(out);
  }

  /** The output once a count and the first `i` items have been written. */
  ghost function VecWritten<T>(buffer: seq<u8>, xs: seq<T>, i: nat, print1: T -> seq<u8>): seq<u8>
    requires i <= |xs| <= 255
  {
    buffer + [|xs|] + Concat(xs[..i], print1)
  }

  lemma VecStep<T>(buffer: seq<u8>, xs: seq<T>, i: nat, print1: T -> seq<u8>)
    requires i < |xs| <= 255
    ensures VecWritten(buffer, xs, i + 1, print1) == VecWritten(buffer, xs, i, print1) + print1(xs[i])
  {
    assert xs[..i + 1] == xs[..i] + [xs[i]];
    ConcatSnoc(xs[..i], xs[i], print1);
  }

  lemma VecDone<T>(buffer: seq<u8>, xs: seq<T>, print1: T -> seq<u8>)
    requires |xs| <= 255
    ensures VecWritten(buffer, xs, |xs|, print1) == buffer + VecBytes(xs, print1)
  {
    assert xs[..|xs|] == xs;
  }

  method WriteKeys(buffer: seq<u8>, keys: seq<Pubkey>) returns (r: Result<seq<u8>, string>)
    ensures r.Success? <==> |keys| <= 255
    ensures r.Success? ==> r.value == buffer + VecBytes(keys, KeyBytes)
  {
    if |keys| > 255 {
      return Failure("Too many Squads account keys");
    }
    var out: seq<u8> := buffer + [|keys|];
    for i := 0 to |keys|
      invariant out == VecWritten(buffer, keys, i, KeyBytes)
    {
      VecStep(buffer, keys, i, KeyBytes);
      out := out + keys[i];
    }
    VecDone(buffer, keys, KeyBytes);
    return Success(out);
  }

  method WriteInstruction(buffer: seq<u8>, ci: CompiledInstruction) returns (r: Result<seq<u8>, string>)
    ensures r.Success? <==> InstructionFits(ci)
    ensures r.Success? ==> r.value == buffer + InstructionBytes(ci)
  {
    var out := buffer + [ci.programIdIndex];
    var indexed := WriteSmallBytesU8(out, ci.accountIndexes, "instruction accounts");
    if indexed.Failure? {
      return Failure(indexed.error);
    }
    r := WriteSmallBytesU16(indexed.value, ci.data, "instruction data");
  }

  method WriteInstructions(buffer: seq<u8>, instructions: seq<CompiledInstruction>) returns (r: Result<seq<u8>, string>)
    ensures r.Success? <==> |instructions| <= 255 && forall ci :: ci in instructions ==> InstructionFits(ci)
    ensures r.Success? ==> r.value == buffer + VecBytes(instructions, InstructionBytes)
  {
    if |instructions| > 255 {
      return Failure("Too many Squads instructions");
    }
    var out: seq<u8> := buffer + [|instructions|];
    for i := 0 to |instructions|
      invariant out == VecWritten(buffer, instructions, i, InstructionBytes)
      invariant forall k :: 0 <= k < i ==> InstructionFits(instructions[k])
    {
      assert instructions[i] in instructions;
      var written := WriteInstruction(out, instructions[i]);
      if written.Failure? {
        return Failure(written.error);
      }
      VecStep(buffer, instructions, i, InstructionBytes);
      out := written.value;
    }
    VecDone(buffer, instructions, InstructionBytes);
    return Success(out);
  }

  method WriteLookup(buffer: seq<u8>, l: AddressTableLookup) returns (r: Result<seq<u8>, string>)
    ensures r.Success? <==> LookupFits(l)
    ensures r.Success? ==> r.value == buffer + LookupBytes(l)
  {
    var out := buffer + l.accountKey;
    var writable := WriteSmallBytesU8(out, l.writableIndexes, "lookup writable indexes");
    if writable.Failure? {
      return Failure(writable.error);
    }
    r := WriteSmallBytesU8(writable.value, l.readonlyIndexes, "lookup readonly indexes");
  }

  method WriteLookups(buffer: seq<u8>, lookups: seq<AddressTableLookup>) returns (r: Result<seq<u8>, string>)
    ensures r.Success? <==> |lookups| <= 255 && forall l :: l in lookups ==> LookupFits(l)
    ensures r.Success? ==> r.value == buffer + VecBytes(lookups, LookupBytes)
  {
    if |lookups| > 255 {
      return Failure("Too many Squads address table lookups");
    }
    var out: seq<u8> := buffer + [|lookups|];
    for i := 0 to |lookups|
      invariant out == VecWritten(buffer, lookups, i, LookupBytes)
      invariant forall k :: 0 <= k < i ==> LookupFits(lookups[k])
    {
      assert lookups[i] in lookups;
      var written := WriteLookup(out, lookups[i]);
      if written.Failure? {
        return Failure(written.error);
      }
      VecStep(buffer, lookups, i, LookupBytes);
      out := written.value;
    }
    VecDone(buffer, lookups, LookupBytes);
    return Success(out);
  }

  method SerializeTransactionMessageArg(m: TransactionMessage) returns (r: Result<seq<u8>, string>)
    ensures r.Success? <==> MessageFits(m)
    ensures r.Success? ==> r.value == MessageBytes(m)
  {
    var header: seq<u8> := [m.numSigners, m.numWritableSigners, m.numWritableNonSigners];
    var keys := WriteKeys(header, m.accountKeys);
    if keys.Failure? {
      return Failure(keys.error);
    }
    var instructions := WriteInstructions(keys.value, m.instructions);
    if instructions.Failure? {
      return Failure(instructions.error);
    }
    r := WriteLookups(instructions.value, m.addressTableLookups);
  }

  // ---------- The parser ----------

  type Parsed<T> = Option<(T, seq<u8>)>

  function ParseBytes(n: nat, bytes: seq<u8>): Parsed<seq<u8>> {
    if n <= |bytes| then Some((bytes[..n], bytes[n..])) else None
  }

  function ParseSmallBytesU8(bytes: seq<u8>): Parsed<seq<u8>> {
    if bytes == [] then None else ParseBytes(bytes[0], bytes[1..])
  }

  function ParseSmallBytesU16(bytes: seq<u8>): Parsed<seq<u8>> {
    if |bytes| < 2 then None else ParseBytes((bytes[0] as int) + 256 * (bytes[1] as int), bytes[2..])
  }

  function ParseKey(bytes: seq<u8>): Parsed<Pubkey> {
    if |bytes| < 32 then None else Some((bytes[..32], bytes[32..]))
  }

  function ParseInstruction(bytes: seq<u8>): Parsed<CompiledInstruction> {
    if bytes == [] then None else
    var indexes := ParseSmallBytesU8(bytes[1..]);
    if indexes.None? then None else
    var data := ParseSmallBytesU16(indexes.value.1);
    if data.None? then None else
    Some((CompiledInstruction(bytes[0], indexes.value.0, data.value.0), data.value.1))
  }

  function ParseLookup(bytes: seq<u8>): Parsed<AddressTableLookup> {
    var key := ParseKey(bytes);
    if key.None? then None else
    var writable := ParseSmallBytesU8(key.value.1);
    if writable.None? then None else
    var readonly := ParseSmallBytesU8(writable.value.1);
    if readonly.None? then None else
    Some((AddressTableLookup(key.value.0, writable.value.0, readonly.value.0), readonly.value.1))
  }

  function ParseMany<T>(n: nat, parse1: seq<u8> -> Parsed<T>, bytes: seq<u8>): Parsed<seq<T>> {
    if n == 0 then Some(([], bytes)) else
    var first := parse1(bytes);
    if first.None? then None else
    var rest := ParseMany(n - 1, parse1, first.value.1);
    if rest.None? then None else
    Some(([first.value.0] + rest.value.0, rest.value.1))
  }

  function ParseSmallVecU8<T>(parse1: seq<u8> -> Parsed<T>, bytes: seq<u8>): Parsed<seq<T>> {
    if bytes == [] then None else ParseMany(bytes[0], parse1, bytes[1..])
  }

  function ParseMessage(bytes: seq<u8>): Parsed<TransactionMessage> {
    if |bytes| < 3 then None else
    var keys := ParseSmallVecU8(ParseKey, bytes[3..]);
    if keys.None? then None else
    var instructions := ParseSmallVecU8(ParseInstruction, keys.value.1);
    if instructions.None? then None else
    var lookups := ParseSmallVecU8(ParseLookup, instructions.value.1);
    if lookups.None? then None else
    Some((TransactionMessage(bytes[0], bytes[1], bytes[2], keys.value.0, instructions.value.0, lookups.value.0),
          lookups.value.1))
  }

  // ---------- The parser inverts the writer ----------

  lemma ParseBytesInverts(values: seq<u8>, rest: seq<u8>)
    ensures ParseBytes(|values|, values + rest) == Some((values, rest))
  {
    assert (values + rest)[..|values|] == values && (values + rest)[|values|..] == rest;
  }

  lemma ParseSmallInverts(values: seq<u8>, rest: seq<u8>)
    ensures |values| <= 255 ==> ParseSmallBytesU8([|values|] + values + rest) == Some((values, rest))
    ensures |values| <= 65535 ==> ParseSmallBytesU16(LittleEndian16(|values|) + values + rest) == Some((values, rest))
  {
    ParseBytesInverts(values, rest);
    if |values| <= 255 {
      assert ([|values|] + values + rest)[1..] == values + rest;
    }
    if |values| <= 65535 {
      assert (LittleEndian16(|values|) + values + rest)[2..] == values + rest;
    }
  }

  lemma ParseInstructionInverts(ci: CompiledInstruction, rest: seq<u8>)
    requires InstructionFits(ci)
    ensures ParseInstruction(InstructionBytes(ci) + rest) == Some((ci, rest))
  {
    var data := LittleEndian16(|ci.data|) + ci.data + rest;
    assert (InstructionBytes(ci) + rest)[1..] == [|ci.accountIndexes|] + ci.accountIndexes + data;
    ParseSmallInverts(ci.accountIndexes, data);
    ParseSmallInverts(ci.data, rest);
  }

  lemma ParseLookupInverts(l: AddressTableLookup, rest: seq<u8>)
    requires LookupFits(l)
    ensures ParseLookup(LookupBytes(l) + rest) == Some((l, rest))
  {
    var readonly := [|l.readonlyIndexes|] + l.readonlyIndexes + rest;
    var writable := [|l.writableIndexes|] + l.writableIndexes + readonly;
    assert LookupBytes(l) + rest == l.accountKey + writable;
    ParseKeyInverts(l.accountKey, writable);
    ParseSmallInverts(l.writableIndexes, readonly);
    ParseSmallInverts(l.readonlyIndexes, rest);
  }

  lemma ParseKeyInverts(k: Pubkey, rest: seq<u8>)
    ensures ParseKey(KeyBytes(k) + rest) == Some((k, rest))
  {
    assert (k + rest)[..32] == k && (k + rest)[32..] == rest;
  }

  ghost predicate Inverts<T(!new)>(xs: seq<T>, print1: T -> seq<u8>, parse1: seq<u8> -> Parsed<T>) {
    forall x, r :: x in xs ==> parse1(print1(x) + r) == Some((x, r))
  }

  lemma {:induction false} ParseManyInverts<T(!new)>(xs: seq<T>, print1: T -> seq<u8>, parse1: seq<u8> -> Parsed<T>,
                                                     rest: seq<u8>)
    requires Inverts(xs, print1, parse1)
    ensures ParseMany(|xs|, parse1, Concat(xs, print1) + rest) == Some((xs, rest))
  {
    if xs == [] {
      assert Concat(xs, print1) + rest == rest;
    } else {
      var more := Concat(xs[1..], print1) + rest;
      assert Concat(xs, print1) + rest == print1(xs[0]) + more;
      assert parse1(print1(xs[0]) + more) == Some((xs[0], more));
      ParseManyInverts(xs[1..], print1, parse1, rest);
      assert [xs[0]] + xs[1..] == xs;
    }
  }

  lemma ParseVecInverts<T(!new)>(xs: seq<T>, print1: T -> seq<u8>, parse1: seq<u8> -> Parsed<T>, rest: seq<u8>)
    requires |xs| <= 255 && Inverts(xs, print1, parse1)
    ensures ParseSmallVecU8(parse1, VecBytes(xs, print1) + rest) == Some((xs, rest))
  {
    ParseManyInverts(xs, print1, parse1, rest);
    assert (VecBytes(xs, print1) + rest)[1..] == Concat(xs, print1) + rest;
  }

  lemma EveryItemInverts(m: TransactionMessage)
    requires MessageFits(m)
    ensures Inverts(m.accountKeys, KeyBytes, ParseKey)
    ensures Inverts(m.instructions, InstructionBytes, ParseInstruction)
    ensures Inverts(m.addressTableLookups, LookupBytes, ParseLookup)
  {
    forall k: Pubkey, r ensures ParseKey(KeyBytes(k) + r) == Some((k, r)) {
      ParseKeyInverts(k, r);
    }
    forall ci, r | ci in m.instructions ensures ParseInstruction(InstructionBytes(ci) + r) == Some((ci, r)) {
      ParseInstructionInverts(ci, r);
    }
    forall l, r | l in m.addressTableLookups ensures ParseLookup(LookupBytes(l) + r) == Some((l, r)) {
      ParseLookupInverts(l, r);
    }
  }

  lemma Reassociate(head: seq<u8>, a: seq<u8>, b: seq<u8>, c: seq<u8>, rest: seq<u8>)
    requires |head| == 3
    ensures (head + a + b + c + rest)[3..] == a + (b + (c + rest))
    ensures (head + a + b + c + rest)[..3] == head
    ensures head + (a + (b + (c + rest))) == head + a + b + c + rest
  {
  }

  lemma SectionsInvert(m: TransactionMessage, rest: seq<u8>)
    requires MessageFits(m)
    ensures
      var b, c := VecBytes(m.instructions, InstructionBytes), VecBytes(m.addressTableLookups, LookupBytes);
      && ParseSmallVecU8(ParseKey, VecBytes(m.accountKeys, KeyBytes) + (b + (c + rest)))
         == Some((m.accountKeys, b + (c + rest)))
      && ParseSmallVecU8(ParseInstruction, b + (c + rest)) == Some((m.instructions, c + rest))
      && ParseSmallVecU8(ParseLookup, c + rest) == Some((m.addressTableLookups, rest))
  {
    EveryItemInverts(m);
    var b, c := VecBytes(m.instructions, InstructionBytes), VecBytes(m.addressTableLookups, LookupBytes);
    ParseVecInverts(m.accountKeys, KeyBytes, ParseKey, b + (c + rest));
    ParseVecInverts(m.instructions, InstructionBytes, ParseInstruction, c + rest);
    ParseVecInverts(m.addressTableLookups, LookupBytes, ParseLookup, rest);
  }

  /** Reading back a written message gives the message and leaves exactly what followed it. */
  lemma ParseInvertsSerialize(m: TransactionMessage, rest: seq<u8>)
    requires MessageFits(m)
    ensures ParseMessage(MessageBytes(m) + rest) == Some((m, rest))
  {
    var head: seq<u8> := [m.numSigners, m.numWritableSigners, m.numWritableNonSigners];
    var a, b, c := VecBytes(m.accountKeys, KeyBytes), VecBytes(m.instructions, InstructionBytes),
                   VecBytes(m.addressTableLookups, LookupBytes);
    Reassociate(head, a, b, c, rest);
    SectionsInvert(m, rest);
    var bytes := MessageBytes(m) + rest;
    assert bytes[0] == bytes[..3][0] && bytes[1] == bytes[..3][1] && bytes[2] == bytes[..3][2];
  }

  // ---------- The parser accepts nothing but written messages ----------

  lemma ParseSmallSound(bytes: seq<u8>)
    ensures ParseSmallBytesU8(bytes).Some? ==>
              var (v, rest) := ParseSmallBytesU8(bytes).value; |v| <= 255 && bytes == [|v|] + v + rest
    ensures ParseSmallBytesU16(bytes).Some? ==>
              var (v, rest) := ParseSmallBytesU16(bytes).value;
              |v| <= 65535 && bytes == LittleEndian16(|v|) + v + rest
  {
  }

  lemma ParseInstructionSound(bytes: seq<u8>)
    ensures ParseInstruction(bytes).Some? ==>
              var (ci, rest) := ParseInstruction(bytes).value;
              InstructionFits(ci) && bytes == InstructionBytes(ci) + rest
  {
    if ParseInstruction(bytes).Some? {
      var (indexes, more) := ParseSmallBytesU8(bytes[1..]).value;
      var (data, rest) := ParseSmallBytesU16(more).value;
      ParseSmallSound(bytes[1..]);
      ParseSmallSound(more);
      assert bytes == [bytes[0]] + bytes[1..];
      Join3([bytes[0]], [|indexes|] + indexes, LittleEndian16(|data|) + data, rest);
    }
  }

  lemma ParseLookupSound(bytes: seq<u8>)
    ensures ParseLookup(bytes).Some? ==>
              var (l, rest) := ParseLookup(bytes).value;
              LookupFits(l) && bytes == LookupBytes(l) + rest
  {
    if ParseLookup(bytes).Some? {
      var (key, more) := ParseKey(bytes).value;
      var (writable, last) := ParseSmallBytesU8(more).value;
      var (readonly, rest) := ParseSmallBytesU8(last).value;
      assert bytes == key + more;
      ParseSmallSound(more);
      ParseSmallSound(last);
      Join3(key, [|writable|] + writable, [|readonly|] + readonly, rest);
    }
  }

  lemma Join3(a: seq<u8>, b: seq<u8>, c: seq<u8>, rest: seq<u8>)
    ensures a + (b + (c + rest)) == a + b + c + rest
  {
  }

  ghost predicate Sound<T(!new)>(print1: T -> seq<u8>, parse1: seq<u8> -> Parsed<T>, fits: T -> bool) {
    forall b :: parse1(b).Some? ==> fits(parse1(b).value.0) && b == print1(parse1(b).value.0) + parse1(b).value.1
  }

  lemma {:induction false} ParseManySound<T(!new)>(n: nat, print1: T -> seq<u8>, parse1: seq<u8> -> Parsed<T>,
                                             fits: T -> bool, bytes: seq<u8>)
    requires Sound(print1, parse1, fits)
    ensures ParseMany(n, parse1, bytes).Some? ==>
              var (xs, rest) := ParseMany(n, parse1, bytes).value;
              |xs| == n && (forall x :: x in xs ==> fits(x)) && bytes == Concat(xs, print1) + rest
  {
    if n > 0 && ParseMany(n, parse1, bytes).Some? {
      var (x, more) := parse1(bytes).value;
      ParseManySound(n - 1, print1, parse1, fits, more);
      var (xs, rest) := ParseMany(n - 1, parse1, more).value;
      assert ([x] + xs)[1..] == xs;
      assert Concat([x] + xs, print1) == print1(x) + Concat(xs, print1);
      assert bytes == print1(x) + Concat(xs, print1) + rest;
    }
  }

  lemma ParseVecSound<T(!new)>(print1: T -> seq<u8>, parse1: seq<u8> -> Parsed<T>, fits: T -> bool, bytes: seq<u8>)
    requires Sound(print1, parse1, fits)
    ensures ParseSmallVecU8(parse1, bytes).Some? ==>
              var (xs, rest) := ParseSmallVecU8(parse1, bytes).value;
              |xs| <= 255 && (forall x :: x in xs ==> fits(x)) && bytes == VecBytes(xs, print1) + rest
  {
    if bytes != [] {
      ParseManySound(bytes[0], print1, parse1, fits, bytes[1..]);
      if ParseSmallVecU8(parse1, bytes).Some? {
        var (xs, rest) := ParseSmallVecU8(parse1, bytes).value;
        assert bytes == [bytes[0]] + bytes[1..];
        assert bytes == [|xs|] + Concat(xs, print1) + rest;
      }
    }
  }

  lemma EveryItemSound()
    ensures Sound(KeyBytes, ParseKey, (k: Pubkey) => true)
    ensures Sound(InstructionBytes, ParseInstruction, InstructionFits)
    ensures Sound(LookupBytes, ParseLookup, LookupFits)
  {
    forall b | ParseKey(b).Some? ensures b == KeyBytes(ParseKey(b).value.0) + ParseKey(b).value.1 {
      assert b == b[..32] + b[32..];
    }
    forall b { ParseInstructionSound(b); }
    forall b { ParseLookupSound(b); }
  }

  /** Whatever the parser accepts is the written form of the message it returns. */
  lemma ParseOnlySerialized(bytes: seq<u8>)
    ensures ParseMessage(bytes).Some? ==>
              var (m, rest) := ParseMessage(bytes).value;
              MessageFits(m) && bytes == MessageBytes(m) + rest
  {
    if ParseMessage(bytes).Some? {
      EveryItemSound();
      var (keys, b) := ParseSmallVecU8(ParseKey, bytes[3..]).value;
      var (instructions, c) := ParseSmallVecU8(ParseInstruction, b).value;
      var (lookups, rest) := ParseSmallVecU8(ParseLookup, c).value;
      ParseVecSound(KeyBytes, ParseKey, (k: Pubkey) => true, bytes[3..]);
      ParseVecSound(InstructionBytes, ParseInstruction, InstructionFits, b);
      ParseVecSound(LookupBytes, ParseLookup, LookupFits, c);
      Rebuild(bytes, keys, b, instructions, c, lookups, rest);
    }
  }

  lemma Rebuild(bytes: seq<u8>, keys: seq<Pubkey>, b: seq<u8>, instructions: seq<CompiledInstruction>, c: seq<u8>,
                lookups: seq<AddressTableLookup>, rest: seq<u8>)
    requires |bytes| >= 3 && |keys| <= 255 && |instructions| <= 255 && |lookups| <= 255
    requires forall ci :: ci in instructions ==> InstructionFits(ci)
    requires forall l :: l in lookups ==> LookupFits(l)
    requires bytes[3..] == VecBytes(keys, KeyBytes) + b
    requires b == VecBytes(instructions, InstructionBytes) + c
    requires c == VecBytes(lookups, LookupBytes) + rest
    ensures
      var m := TransactionMessage(bytes[0], bytes[1], bytes[2], keys, instructions, lookups);
      MessageFits(m) && bytes == MessageBytes(m) + rest
  {
    var head := [bytes[0], bytes[1], bytes[2]];
    assert bytes == head + bytes[3..];
    Reassociate(head, VecBytes(keys, KeyBytes), VecBytes(instructions, InstructionBytes),
                VecBytes(lookups, LookupBytes), rest);
  }

  // ---------- The whole pipeline ----------

  ghost predicate WithinLimits(vault: Pubkey, ixs: seq<Instruction>) {
    && |UsedKeys(ixs) + {vault}| <= 255
    && |ixs| <= 255
    && (forall ix :: ix in ixs ==> |ix.accounts| <= 255 && |ix.data| <= 65535)
  }

  lemma SmallerSet(a: set<Pubkey>, b: set<Pubkey>)
    requires a <= b
    ensures |a| <= |b|
  {
    assert b == a + (b - a);
    assert |a + (b - a)| == |a| + |b - a|;
  }

  lemma LimitsFit(vault: Pubkey, ixs: seq<Instruction>)
    requires WithinLimits(vault, ixs)
    ensures CompileFits(vault, ixs)
  {
    FlaggedAreUsed(ixs);
    SmallerSet(SignerKeys(ixs) + {vault}, UsedKeys(ixs) + {vault});
    SmallerSet(WritableKeys(ixs) - SignerKeys(ixs) - {vault}, UsedKeys(ixs) + {vault});
  }

  lemma SameSizes(m: TransactionMessage, vault: Pubkey, ixs: seq<Instruction>, i: nat)
    requires IsCompilation(m, vault, ixs) && i < |ixs|
    ensures InstructionFits(m.instructions[i]) <==> |ixs[i].accounts| <= 255 && |ixs[i].data| <= 65535
  {
    assert Denotes(m.accountKeys, m.instructions[i], ixs[i]);
  }

  lemma CompiledShape(m: TransactionMessage, vault: Pubkey, ixs: seq<Instruction>)
    requires IsCompilation(m, vault, ixs)
    ensures |m.instructions| == |ixs| && m.addressTableLookups == []
    ensures forall i :: 0 <= i < |ixs| ==>
              (InstructionFits(m.instructions[i]) <==> |ixs[i].accounts| <= 255 && |ixs[i].data| <= 65535)
  {
    forall i | 0 <= i < |ixs|
      ensures InstructionFits(m.instructions[i]) <==> |ixs[i].accounts| <= 255 && |ixs[i].data| <= 65535
    {
      SameSizes(m, vault, ixs, i);
    }
  }

  lemma CompiledSize(m: TransactionMessage, vault: Pubkey, ixs: seq<Instruction>)
    requires IsCompilation(m, vault, ixs)
    ensures MessageFits(m) <==> WithinLimits(vault, ixs)
  {
    SquadsMeaning.HeaderCounts(m, vault, ixs);
    CompiledShape(m, vault, ixs);
    LimitsAgree(m, vault, ixs);
  }

  lemma LimitsAgree(m: TransactionMessage, vault: Pubkey, ixs: seq<Instruction>)
    requires |m.accountKeys| == |UsedKeys(ixs) + {vault}|
    requires |m.instructions| == |ixs| && m.addressTableLookups == []
    requires forall i :: 0 <= i < |ixs| ==>
               (InstructionFits(m.instructions[i]) <==> |ixs[i].accounts| <= 255 && |ixs[i].data| <= 65535)
    ensures MessageFits(m) <==> WithinLimits(vault, ixs)
  {
    InstructionsFit(m.instructions, ixs);
  }

  lemma InstructionsFit(compiled: seq<CompiledInstruction>, ixs: seq<Instruction>)
    requires |compiled| == |ixs|
    requires forall i :: 0 <= i < |ixs| ==>
               (InstructionFits(compiled[i]) <==> |ixs[i].accounts| <= 255 && |ixs[i].data| <= 65535)
    ensures (forall ci :: ci in compiled ==> InstructionFits(ci))
       <==> (forall ix :: ix in ixs ==> |ix.accounts| <= 255 && |ix.data| <= 65535)
  {
    if forall ci :: ci in compiled ==> InstructionFits(ci) {
      forall ix | ix in ixs ensures |ix.accounts| <= 255 && |ix.data| <= 65535 {
        var i :| 0 <= i < |ixs| && ixs[i] == ix;
        assert compiled[i] in compiled;
      }
    }
    if forall ix :: ix in ixs ==> |ix.accounts| <= 255 && |ix.data| <= 65535 {
      forall ci | ci in compiled ensures InstructionFits(ci) {
        var i :| 0 <= i < |compiled| && compiled[i] == ci;
        assert ixs[i] in ixs;
      }
    }
  }

  /** Compile then serialize, as `vault_transaction_create_ix` does: it succeeds exactly within the
      four limits, and the bytes parse, with nothing left over, to the compilation of the input. */
  method CompileAndSerialize(vault: Pubkey, ixs: seq<Instruction>) returns (r: Result<seq<u8>, string>)
    ensures r.Success? <==> WithinLimits(vault, ixs)
    ensures r.Success? ==> ParseMessage(r.value).Some? && ParseMessage(r.value).value.1 == []
    ensures r.Success? ==> IsCompilation(ParseMessage(r.value).value.0, vault, ixs)
  {
    var message := CompileTransactionMessage(vault, ixs);
    if message.Failure? {
      if WithinLimits(vault, ixs) { LimitsFit(vault, ixs); }
      return Failure(message.error);
    }
    CompiledSize(message.value, vault, ixs);
    r := SerializeTransactionMessageArg(message.value);
    if r.Success? {
      ParseInvertsSerialize(message.value, []);
      assert MessageBytes(message.value) + [] == r.value;
    }
  }
}
