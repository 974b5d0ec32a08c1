/** Model of `validateTypedFields` (apps/extension/src/transaction-security.ts): the shape check of an
    EIP-712 message against its types ("Definition of encodeData"), with a budget of nodes. */
module TypedDataShape {
  import opened Wrappers

  datatype Json =
    | Null
    | Bool(bool)
    | Number(int)
    | Text(string)
    | Array(items: seq<Json>)
    | Object(members: seq<Member>)

  datatype Member = Member(name: string, value: Json)

  datatype Field = Field(name: string, typeName: string)

  type Types = map<string, seq<Field>>

  const MAX_NODES := 4096
  const MAX_DEPTH := 32

  // ---------- Array types ----------

  predicate IsDigit(c: char) {
    '0' <= c <= '9'
  }

  predicate EndsLine(c: char) {
    c == '\n' || c == '\r' || c == '\U{2028}' || c == '\U{2029}'
  }

  /** The length of the longest run of digits at the end of a text. */
  function TrailingDigits(text: string): (r: nat)
    ensures r <= |text|
  {
    if text != [] && IsDigit(text[|text| - 1]) then 1 + TrailingDigits(text[..|text| - 1]) else 0
  }

  function DigitsValue(text: string): nat {
    if text == [] then 0
    else
      var last := text[|text| - 1];
      DigitsValue(text[..|text| - 1]) * 10 + (if IsDigit(last) then last as int - '0' as int else 0)
  }

  datatype ArrayType = ArrayType(element: string, length: Option<nat>)

  /** The match of `^(.*)\[([0-9]*)\]$`: the element type and the declared length, if any. */
  function ParseArrayType(typeName: string): Option<ArrayType> {
    var n := |typeName|;
    if n < 2 || typeName[n - 1] != ']' then None
    else
      var inner := typeName[..n - 1];
      var open := |inner| - TrailingDigits(inner);
      if open == 0 || inner[open - 1] != '[' || exists i :: 0 <= i < open - 1 && EndsLine(inner[i]) then None
      else
        var digits := inner[open..];
        Some(ArrayType(inner[..open - 1], if digits == [] then None else Some(DigitsValue(digits))))
  }

  /** A decimal numeral without superfluous zeros. */
  function Decimal(n: nat): (r: string)
    ensures r != [] && forall i :: 0 <= i < |r| ==> IsDigit(r[i])
  {
    if n < 10 then [('0' as int + n) as char] else Decimal(n / 10) + [('0' as int + n % 10) as char]
  }

  lemma {:induction false} DecimalValue(n: nat)
    ensures DigitsValue(Decimal(n)) == n
  {
    if n >= 10 {
      DecimalValue(n / 10);
      var last := ('0' as int + n % 10) as char;
      assert Decimal(n)[..|Decimal(n)| - 1] == Decimal(n / 10) && Decimal(n)[|Decimal(n)| - 1] == last;
      assert IsDigit(last) && last as int - '0' as int == n % 10;
    } else {
      assert Decimal(n)[..0] == [];
    }
  }

  lemma {:induction false} TrailingExactly(text: string)
    ensures
      var k := TrailingDigits(text);
      && (forall i :: |text| - k <= i < |text| ==> IsDigit(text[i]))
      && (k < |text| ==> !IsDigit(text[|text| - k - 1]))
  {
    if text != [] && IsDigit(text[|text| - 1]) {
      TrailingExactly(text[..|text| - 1]);
    }
  }

  lemma {:induction false} TrailingIs(before: string, digits: string)
    requires before != [] && !IsDigit(before[|before| - 1])
    requires forall i :: 0 <= i < |digits| ==> IsDigit(digits[i])
    ensures TrailingDigits(before + digits) == |digits|
  {
    if digits == [] {
      assert before + digits == before;
    } else {
      var n, text := |digits| - 1, before + digits;
      assert text[..|text| - 1] == before + digits[..n] && text[|text| - 1] == digits[n];
      TrailingIs(before, digits[..n]);
    }
  }

  /** The text is this array type: the element type, which has no line break, and the digits of the length. */
  ghost predicate Spells(typeName: string, arrayType: ArrayType, digits: string) {
    && typeName == arrayType.element + "[" + digits + "]"
    && (forall i :: 0 <= i < |digits| ==> IsDigit(digits[i]))
    && (forall i :: 0 <= i < |arrayType.element| ==>
          arrayType.element[i] !in {'\n', '\r', '\U{2028}', '\U{2029}'})
    && arrayType.length == if digits == [] then None else Some(DigitsValue(digits))
  }

  lemma ParseSpelled(typeName: string, arrayType: ArrayType, digits: string)
    requires Spells(typeName, arrayType, digits)
    ensures ParseArrayType(typeName) == Some(arrayType)
  {
    var element := arrayType.element;
    var before := element + "[";
    var inner := typeName[..|typeName| - 1];
    assert inner == before + digits;
    assert before[|before| - 1] == '[';
    TrailingIs(before, digits);
    assert inner[..|element|] == element && inner[|before|..] == digits;
    assert forall i :: 0 <= i < |element| ==> inner[i] == element[i];
  }

  lemma ParsedSpells(typeName: string, arrayType: ArrayType) returns (digits: string)
    requires ParseArrayType(typeName) == Some(arrayType)
    ensures Spells(typeName, arrayType, digits)
  {
    var inner := typeName[..|typeName| - 1];
    var open := |inner| - TrailingDigits(inner);
    digits := inner[open..];
    TrailingExactly(inner);
    assert typeName == inner + "]" && inner == inner[..open - 1] + "[" + digits;
    assert forall i :: 0 <= i < |arrayType.element| ==> arrayType.element[i] == inner[i];
    assert forall i :: 0 <= i < |digits| ==> digits[i] == inner[open + i];
  }

  /** A type name is parsed exactly as what it spells: there is at most one element type and length. */
  lemma ParseExactly(typeName: string, arrayType: ArrayType)
    ensures ParseArrayType(typeName) == Some(arrayType) <==> exists digits :: Spells(typeName, arrayType, digits)
  {
    if ParseArrayType(typeName) == Some(arrayType) {
      var digits := ParsedSpells(typeName, arrayType);
    }
    forall digits | Spells(typeName, arrayType, digits) ensures ParseArrayType(typeName) == Some(arrayType) {
      ParseSpelled(typeName, arrayType, digits);
    }
  }

  /** `T[n]` and `T[]`. */
  lemma ArrayTypesParse(element: string, n: nat)
    requires forall i :: 0 <= i < |element| ==> element[i] !in {'\n', '\r', '\U{2028}', '\U{2029}'}
    ensures ParseArrayType(element + "[" + Decimal(n) + "]") == Some(ArrayType(element, Some(n)))
    ensures ParseArrayType(element + "[]") == Some(ArrayType(element, None))
  {
    DecimalValue(n);
    ParseSpelled(element + "[" + Decimal(n) + "]", ArrayType(element, Some(n)), Decimal(n));
    assert element + "[]" == element + "[" + [] + "]";
    ParseSpelled(element + "[]", ArrayType(element, None), []);
  }

  // ---------- One level ----------

  function Names(members: seq<Member>): set<string> {
    set m | m in members :: m.name
  }

  function FieldNames(fields: seq<Field>): set<string> {
    set f | f in fields :: f.name
  }

  function Lookup(members: seq<Member>, name: string): Json {
    if members == [] then Null
    else if members[0].name == name then members[0].value
    else Lookup(members[1..], name)
  }

  /** The value found is that of the first member with the name. */
  lemma {:induction false} LookupExactly(members: seq<Member>, name: string) returns (i: nat)
    requires name in Names(members)
    ensures i < |members| && members[i].name == name && members[i].value == Lookup(members, name)
    ensures forall j :: 0 <= j < i ==> members[j].name != name
  {
    if members[0].name == name {
      i := 0;
    } else {
      var m :| m in members && m.name == name;
      assert members == [members[0]] + members[1..] && m in members[1..];
      var k := LookupExactly(members[1..], name);
      i := k + 1;
    }
  }

  /** A value has the shape of its type, at the top level only. */
  predicate LevelOk(types: Types, typeName: string, value: Json) {
    var arrayType := ParseArrayType(typeName);
    if arrayType.Some? then
      value.Array? && (arrayType.value.length.Some? ==> |value.items| == arrayType.value.length.value)
    else if typeName in types then
      value.Object? && Names(value.members) == FieldNames(types[typeName])
    else true
  }

  datatype Child = Child(typeName: string, value: Json)

  /** The parts a value is checked by: array members, or fields in schema order. */
  function Children(types: Types, typeName: string, value: Json): seq<Child>
    requires LevelOk(types, typeName, value)
  {
    var arrayType := ParseArrayType(typeName);
    if arrayType.Some? then
      seq(|value.items|, i requires 0 <= i < |value.items| => Child(arrayType.value.element, value.items[i]))
    else if typeName in types then
      var fields := types[typeName];
      seq(|fields|, i requires 0 <= i < |fields| => Child(fields[i].typeName, Lookup(value.members, fields[i].name)))
    else []
  }

  // ---------- Whole values ----------

  function Size(value: Json): nat {
    match value
    case Array(items) => 1 + SizeOfItems(items)
    case Object(members) => 1 + SizeOfMembers(members)
    case _ => 1
  }

  function SizeOfItems(items: seq<Json>): nat {
    if items == [] then 0 else Size(items[0]) + SizeOfItems(items[1..])
  }

  function SizeOfMembers(members: seq<Member>): nat {
    if members == [] then 0 else Size(members[0].value) + SizeOfMembers(members[1..])
  }

  lemma {:induction false} ItemSmaller(items: seq<Json>, i: nat)
    requires i < |items|
    ensures Size(items[i]) <= SizeOfItems(items)
  {
    if i > 0 {
      ItemSmaller(items[1..], i - 1);
    }
  }

  lemma {:induction false} PresentSmaller(members: seq<Member>, name: string)
    requires name in Names(members)
    ensures Size(Lookup(members, name)) <= SizeOfMembers(members)
  {
    if members[0].name != name {
      var m :| m in members && m.name == name;
      assert members == [members[0]] + members[1..];
      assert m in members[1..];
      PresentSmaller(members[1..], name);
    }
  }

  lemma ChildrenSmaller(types: Types, typeName: string, value: Json)
    requires LevelOk(types, typeName, value)
    ensures forall c :: c in Children(types, typeName, value) ==> Size(c.value) < Size(value)
  {
    var arrayType := ParseArrayType(typeName);
    forall c | c in Children(types, typeName, value) ensures Size(c.value) < Size(value) {
      if arrayType.Some? {
        var i :| 0 <= i < |value.items| && c == Child(arrayType.value.element, value.items[i]);
        ItemSmaller(value.items, i);
      } else {
        var fields := types[typeName];
        var i :| 0 <= i < |fields| && c == Child(fields[i].typeName, Lookup(value.members, fields[i].name));
        assert fields[i].name in FieldNames(fields);
        PresentSmaller(value.members, fields[i].name);
      }
    }
  }

  ghost predicate Smaller(children: seq<Child>, bound: nat) {
    forall c :: c in children ==> Size(c.value) < bound
  }

  /** Every object at every level has exactly the fields its schema signs, and every array its length. */
  ghost predicate Conforms(types: Types, typeName: string, value: Json)
    decreases Size(value), 1, 0
  {
    LevelOk(types, typeName, value) &&
    (ChildrenSmaller(types, typeName, value);
     AllConform(types, Children(types, typeName, value), Size(value)))
  }

  ghost predicate AllConform(types: Types, children: seq<Child>, bound: nat)
    requires Smaller(children, bound)
    decreases bound, 0, |children|
  {
    children == [] ||
    (Conforms(types, children[0].typeName, children[0].value) && AllConform(types, children[1..], bound))
  }

  /** How many values the check visits. */
  ghost function Nodes(types: Types, typeName: string, value: Json): nat
    decreases Size(value), 1, 0
  {
    if LevelOk(types, typeName, value) then
      ChildrenSmaller(types, typeName, value);
      1 + AllNodes(types, Children(types, typeName, value), Size(value))
    else 1
  }

  ghost function AllNodes(types: Types, children: seq<Child>, bound: nat): nat
    requires Smaller(children, bound)
    decreases bound, 0, |children|
  {
    if children == [] then 0
    else Nodes(types, children[0].typeName, children[0].value) + AllNodes(types, children[1..], bound)
  }

  /** How deep they nest; the outermost value is at depth 0. */
  ghost function Depth(types: Types, typeName: string, value: Json): nat
    decreases Size(value), 1, 0
  {
    if LevelOk(types, typeName, value) then
      ChildrenSmaller(types, typeName, value);
      MaxDepth(types, Children(types, typeName, value), Size(value))
    else 0
  }

  ghost function MaxDepth(types: Types, children: seq<Child>, bound: nat): nat
    requires Smaller(children, bound)
    decreases bound, 0, |children|
  {
    if children == [] then 0
    else
      var first := 1 + Depth(types, children[0].typeName, children[0].value);
      var rest := MaxDepth(types, children[1..], bound);
      if first >= rest then first else rest
  }

  // ---------- The check ----------

  class TypedFieldChecker {
    const types: Types
    var remaining: int

    constructor (types: Types)
      ensures this.types == types && remaining == MAX_NODES
    {
      this.types := types;
      remaining := MAX_NODES;
    }

    /** Accepts exactly the conforming values within the depth and the budget that is left, and then
        has spent one unit of the budget for each node. */
    method Visit(typeName: string, value: Json, depth: nat) returns (ok: bool)
      requires remaining >= 0
      modifies this`remaining
      ensures ok <==>
                && Conforms(types, typeName, value)
                && depth + Depth(types, typeName, value) <= MAX_DEPTH
                && Nodes(types, typeName, value) <= old(remaining)
      ensures ok ==> remaining == old(remaining) - Nodes(types, typeName, value)
      decreases Size(value), 1, 0
    {
      if depth > MAX_DEPTH {
        return false;
      }
      remaining := remaining - 1;
      if remaining < 0 {
        return false;
      }
      if !LevelOk(types, typeName, value) {
        return false;
      }
      ChildrenSmaller(types, typeName, value);
      ok := VisitAll(Children(types, typeName, value), depth, Size(value));
    }

    /** The loop over array members or fields. */
    method VisitAll(children: seq<Child>, depth: nat, ghost bound: nat) returns (ok: bool)
      requires remaining >= 0 && Smaller(children, bound) && depth <= MAX_DEPTH
      modifies this`remaining
      ensures ok <==>
                && AllConform(types, children, bound)
                && depth + MaxDepth(types, children, bound) <= MAX_DEPTH
                && AllNodes(types, children, bound) <= old(remaining)
      ensures ok ==> remaining == old(remaining) - AllNodes(types, children, bound)
      decreases bound, 0, |children|
    {
      if children == [] {
        return true;
      }
      assert children[0] in children;
      ok := Visit(children[0].typeName, children[0].value, depth + 1);
      if !ok {
        return;
      }
      ok := VisitAll(children[1..], depth, bound);
    }
  }

  /** What `validateTypedFields` accepts. */
  ghost predicate WellShaped(types: Types, primaryType: string, message: Json) {
    && Conforms(types, primaryType, message)
    && Depth(types, primaryType, message) <= 32
    && Nodes(types, primaryType, message) <= 4096
  }

  method ValidateTypedFields(types: Types, primaryType: string, message: Json) returns (ok: bool)
    ensures ok <==> WellShaped(types, primaryType, message)
  {
    var checker := new TypedFieldChecker(types);
    ok := checker.Visit(primaryType, message, 0);
  }

  /** What acceptance buys: nothing the signer would leave out, at any level. */
  lemma AcceptedObjectsExact(types: Types, typeName: string, value: Json)
    requires Conforms(types, typeName, value) && ParseArrayType(typeName).None? && typeName in types
    ensures value.Object? && Names(value.members) == FieldNames(types[typeName])
    ensures forall f :: f in types[typeName] ==> Conforms(types, f.typeName, Lookup(value.members, f.name))
  {
    ChildrenSmaller(types, typeName, value);
    var children := Children(types, typeName, value);
    forall f | f in types[typeName] ensures Conforms(types, f.typeName, Lookup(value.members, f.name)) {
      var i :| 0 <= i < |types[typeName]| && types[typeName][i] == f;
      ConformsAt(types, children, Size(value), i);
    }
  }

  lemma AcceptedArraysExact(types: Types, typeName: string, value: Json)
    requires Conforms(types, typeName, value) && ParseArrayType(typeName).Some?
    ensures value.Array?
    ensures
      var arrayType := ParseArrayType(typeName).value;
      && (arrayType.length.Some? ==> |value.items| == arrayType.length.value)
      && forall i :: 0 <= i < |value.items| ==> Conforms(types, arrayType.element, value.items[i])
  {
    ChildrenSmaller(types, typeName, value);
    var arrayType := ParseArrayType(typeName).value;
    forall i | 0 <= i < |value.items| ensures Conforms(types, arrayType.element, value.items[i]) {
      ConformsAt(types, Children(types, typeName, value), Size(value), i);
    }
  }

  lemma {:induction false} ConformsAt(types: Types, children: seq<Child>, bound: nat, i: nat)
    requires Smaller(children, bound) && AllConform(types, children, bound) && i < |children|
    ensures Conforms(types, children[i].typeName, children[i].value)
    decreases |children|
  {
    if i > 0 {
      ConformsAt(types, children[1..], bound, i - 1);
    }
  }

  lemma {:induction false} AllConformAt(types: Types, children: seq<Child>, bound: nat)
    requires Smaller(children, bound)
    requires forall i :: 0 <= i < |children| ==> Conforms(types, children[i].typeName, children[i].value)
    ensures AllConform(types, children, bound)
    decreases |children|
  {
    if children != [] {
      AllConformAt(types, children[1..], bound);
    }
  }

  /** What conforming means, one level at a time: an array its length and each member, a struct its
      fields and no others, and anything else is left to the encoder. */
  lemma ConformsExactly(types: Types, typeName: string, value: Json)
    ensures ParseArrayType(typeName).Some? ==>
              var arrayType := ParseArrayType(typeName).value;
              (Conforms(types, typeName, value)
               <==> && value.Array?
                    && (arrayType.length.Some? ==> |value.items| == arrayType.length.value)
                    && forall i :: 0 <= i < |value.items| ==> Conforms(types, arrayType.element, value.items[i]))
    ensures ParseArrayType(typeName).None? && typeName in types ==>
              (Conforms(types, typeName, value)
               <==> && value.Object? && Names(value.members) == FieldNames(types[typeName])
                    && forall f :: f in types[typeName] ==> Conforms(types, f.typeName, Lookup(value.members, f.name)))
    ensures ParseArrayType(typeName).None? && typeName !in types ==>
              && Conforms(types, typeName, value)
              && Depth(types, typeName, value) == 0 && Nodes(types, typeName, value) == 1
  {
    if LevelOk(types, typeName, value) {
      ChildrenSmaller(types, typeName, value);
      var children := Children(types, typeName, value);
      if forall i :: 0 <= i < |children| ==> Conforms(types, children[i].typeName, children[i].value) {
        AllConformAt(types, children, Size(value));
      }
      if Conforms(types, typeName, value) && ParseArrayType(typeName).Some? {
        AcceptedArraysExact(types, typeName, value);
      } else if Conforms(types, typeName, value) && typeName in types {
        AcceptedObjectsExact(types, typeName, value);
      }
    }
  }
}
