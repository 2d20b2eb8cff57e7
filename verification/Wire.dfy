// The protocol buffer wire format: varints, fixed-width integers, length-delimited records
// and groups, as the "Protocol Buffers Encoding" document defines them.  A message is a
// sequence of fields; the readers take the input that is left and return what is left after
// them.

module Wire {
  import opened Octets
  import opened Options

  const TWO_31 := 0x8000_0000
  const TWO_32 := 0x1_0000_0000
  const TWO_63 := 0x8000_0000_0000_0000
  const TWO_64 := 0x1_0000_0000_0000_0000

  datatype Read<T> = Fail | Got(value: T, rest: Bytes)

  // ---- varints ----

  function EncodeVarint(n: nat): Bytes {
    if n < 128 then [n] else [n % 128 + 128] + EncodeVarint(n / 128)
  }

  // At most `left` bytes.
  function ReadGroups(b: Bytes, left: nat): (r: Read<nat>)
    ensures r.Got? ==> |r.rest| < |b|
  {
    if left == 0 || b == [] then Fail
    else if b[0] < 128 then Got(b[0], b[1..])
    else
      match ReadGroups(b[1..], left - 1)
      case Fail => Fail
      case Got(v, rest) => Got(b[0] - 128 + 128 * v, rest)
  }

  // A varint has at most ten bytes; bits beyond the reader's width are dropped.
  function ReadVarint(b: Bytes): (r: Read<nat>)
    ensures r.Got? ==> |r.rest| < |b| && r.value < TWO_64
  {
    match ReadGroups(b, 10)
    case Fail => Fail
    case Got(v, rest) => Got(v % TWO_64, rest)
  }

  function Pow128(k: nat): nat { if k == 0 then 1 else 128 * Pow128(k - 1) }

  lemma {:induction false} GroupsRoundTrip(n: nat, left: nat, rest: Bytes)
    requires n < Pow128(left) && left > 0
    ensures ReadGroups(EncodeVarint(n) + rest, left) == Got(n, rest)
    decreases left
  {
    var b := EncodeVarint(n) + rest;
    if n < 128 {
      assert b[1..] == rest;
    } else {
      assert b[1..] == EncodeVarint(n / 128) + rest;
      GroupsRoundTrip(n / 128, left - 1, rest);
    }
  }

  // No varint begins another one.
  lemma {:induction false} VarintIsPrefixFree(x: nat, y: nat, a: Bytes, b: Bytes)
    requires EncodeVarint(x) + a == EncodeVarint(y) + b
    ensures x == y && a == b
  {
    var p, q := EncodeVarint(x) + a, EncodeVarint(y) + b;
    assert p[0] == q[0];
    if x >= 128 && y >= 128 {
      assert p[1..] == EncodeVarint(x / 128) + a && q[1..] == EncodeVarint(y / 128) + b;
      VarintIsPrefixFree(x / 128, y / 128, a, b);
    } else {
      assert p[1..] == a && q[1..] == b;
    }
  }

  lemma TenGroupsHold64Bits()
    ensures Pow128(10) >= TWO_64
  {
    assert Pow128(2) == 0x4000;
    assert Pow128(4) == 128 * 128 * Pow128(2) == 0x1000_0000;
    assert Pow128(6) == 128 * 128 * Pow128(4) == 0x400_0000_0000;
    assert Pow128(8) == 128 * 128 * Pow128(6);
    assert Pow128(10) == 128 * 128 * Pow128(8);
  }

  lemma VarintRoundTrip(n: nat, rest: Bytes)
    requires n < TWO_64
    ensures ReadVarint(EncodeVarint(n) + rest) == Got(n, rest)
  {
    TenGroupsHold64Bits();
    GroupsRoundTrip(n, 10, rest);
    Fits64Bits(EncodeVarint(n) + rest, n, rest);
  }

  lemma Fits64Bits(b: Bytes, n: nat, rest: Bytes)
    requires n < TWO_64 && ReadGroups(b, 10) == Got(n, rest)
    ensures ReadVarint(b) == Got(n, rest)
  {
  }

  function VarintSize(n: nat): nat { if n < 128 then 1 else 1 + VarintSize(n / 128) }

  lemma {:induction false} VarintLength(n: nat)
    ensures |EncodeVarint(n)| == VarintSize(n)
  {
    if n >= 128 {
      VarintLength(n / 128);
    }
  }

  lemma {:induction false} VarintSizeIs(n: nat, k: nat)
    requires Pow128(k) <= n < Pow128(k + 1)
    ensures VarintSize(n) == k + 1
    decreases k
  {
    if k > 0 {
      assert Pow128(k - 1) <= n / 128 < Pow128(k);
      VarintSizeIs(n / 128, k - 1);
    }
  }

  // ---- fixed width, least significant byte first ----

  function EncodeFixed(n: nat, width: nat): Bytes {
    if width == 0 then [] else [n % 256] + EncodeFixed(n / 256, width - 1)
  }

  function ReadFixed(b: Bytes, width: nat): (r: Read<nat>)
    ensures r.Got? ==> |r.rest| == |b| - width
  {
    if width == 0 then Got(0, b)
    else if b == [] then Fail
    else
      match ReadFixed(b[1..], width - 1)
      case Fail => Fail
      case Got(v, rest) => Got(b[0] + 256 * v, rest)
  }

  function Pow256(k: nat): nat { if k == 0 then 1 else 256 * Pow256(k - 1) }

  lemma {:induction false} FixedRoundTrip(n: nat, width: nat, rest: Bytes)
    requires n < Pow256(width)
    ensures ReadFixed(EncodeFixed(n, width) + rest, width) == Got(n, rest) && |EncodeFixed(n, width)| == width
  {
    if width > 0 {
      assert (EncodeFixed(n, width) + rest)[1..] == EncodeFixed(n / 256, width - 1) + rest;
      FixedRoundTrip(n / 256, width - 1, rest);
    } else {
      assert EncodeFixed(n, width) + rest == rest;
    }
  }

  // ---- length-delimited records ----

  // A length may not exceed 2^31 - 1, nor what is left.
  function ReadBytes(b: Bytes): (r: Read<Bytes>)
    ensures r.Got? ==> |r.rest| < |b| && |r.value| < TWO_31
  {
    match ReadVarint(b)
    case Fail => Fail
    case Got(n, rest) => if n >= TWO_31 || n > |rest| then Fail else Got(rest[..n], rest[n..])
  }

  lemma BytesRoundTrip(d: Bytes, rest: Bytes)
    requires |d| < TWO_31
    ensures ReadBytes(EncodeVarint(|d|) + d + rest) == Got(d, rest)
  {
    var b := EncodeVarint(|d|) + d + rest;
    assert b == EncodeVarint(|d|) + (d + rest);
    VarintRoundTrip(|d|, d + rest);
    assert ReadVarint(b) == Got(|d|, d + rest);
    assert (d + rest)[..|d|] == d && (d + rest)[|d|..] == rest;
  }

  // ---- fields ----

  datatype Field =
    | VarintField(number: nat, value: nat)
    | Fixed64Field(number: nat, value: nat)
    | BytesField(number: nat, data: Bytes)
    | GroupField(number: nat, fields: seq<Field>)
    | Fixed32Field(number: nat, value: nat)

  ghost predicate ValidField(f: Field)
    decreases f
  {
    && 1 <= f.number < 0x2000_0000
    && match f
       case VarintField(_, v) => v < TWO_64
       case Fixed64Field(_, v) => v < TWO_64
       case BytesField(_, d) => |d| < TWO_31
       case GroupField(_, fs) => forall g :: g in fs ==> ValidField(g)
       case Fixed32Field(_, v) => v < TWO_32
  }

  function Tag(number: nat, wireType: nat): Bytes { EncodeVarint(8 * number + wireType) }

  function WireType(f: Field): nat {
    match f
    case VarintField(_, _) => 0
    case Fixed64Field(_, _) => 1
    case BytesField(_, _) => 2
    case GroupField(_, _) => 3
    case Fixed32Field(_, _) => 5
  }

  function EncodeBody(f: Field): Bytes
    decreases f, 0
  {
    match f
    case VarintField(_, v) => EncodeVarint(v)
    case Fixed64Field(_, v) => EncodeFixed(v, 8)
    case BytesField(_, d) => EncodeVarint(|d|) + d
    case GroupField(n, fs) => EncodeFields(fs) + Tag(n, 4)
    case Fixed32Field(_, v) => EncodeFixed(v, 4)
  }

  function EncodeField(f: Field): Bytes
    decreases f, 1
  {
    Tag(f.number, WireType(f)) + EncodeBody(f)
  }

  function EncodeFields(fs: seq<Field>): Bytes
    decreases fs
  {
    if fs == [] then [] else EncodeField(fs[0]) + EncodeFields(fs[1..])
  }

  // A tag is a varint of which 32 bits are kept; a zero tag starts no field.
  function ReadTag(b: Bytes): (r: Read<nat>)
    ensures r.Got? ==> |r.rest| < |b| && 0 < r.value < TWO_32
  {
    match ReadVarint(b)
    case Fail => Fail
    case Got(t, rest) => if t % TWO_32 == 0 then Fail else Got(t % TWO_32, rest)
  }

  // The field whose tag has just been read.
  function ReadBody(tag: nat, b: Bytes): (r: Read<Field>)
    ensures r.Got? ==> |r.rest| <= |b|
    decreases |b|, 1
  {
    var n := tag / 8;
    if n == 0 then Fail
    else if tag % 8 == 0 then
      match ReadVarint(b) { case Fail => Fail case Got(v, rest) => Got(VarintField(n, v), rest) }
    else if tag % 8 == 1 then
      match ReadFixed(b, 8) { case Fail => Fail case Got(v, rest) => Got(Fixed64Field(n, v), rest) }
    else if tag % 8 == 2 then
      match ReadBytes(b) { case Fail => Fail case Got(d, rest) => Got(BytesField(n, d), rest) }
    else if tag % 8 == 3 then
      match ReadGroup(n, b) { case Fail => Fail case Got(fs, rest) => Got(GroupField(n, fs), rest) }
    else if tag % 8 == 5 then
      match ReadFixed(b, 4) { case Fail => Fail case Got(v, rest) => Got(Fixed32Field(n, v), rest) }
    else Fail
  }

  // The fields of group n up to its end tag.
  function ReadGroup(n: nat, b: Bytes): (r: Read<seq<Field>>)
    ensures r.Got? ==> |r.rest| <= |b|
    decreases |b|, 0
  {
    match ReadTag(b)
    case Fail => Fail
    case Got(tag, rest) =>
      if tag % 8 == 4 then
        if tag / 8 == n then Got([], rest) else Fail
      else
        match ReadBody(tag, rest)
        case Fail => Fail
        case Got(f, rest') =>
          match ReadGroup(n, rest')
          case Fail => Fail
          case Got(fs, rest'') => Got([f] + fs, rest'')
  }

  function ReadField(b: Bytes): (r: Read<Field>)
    ensures r.Got? ==> |r.rest| < |b|
  {
    match ReadTag(b)
    case Fail => Fail
    case Got(tag, rest) => ReadBody(tag, rest)
  }

  // The fields of a whole message.
  function ParseFields(b: Bytes): Option<seq<Field>>
    decreases |b|
  {
    if b == [] then Some([])
    else
      match ReadField(b)
      case Fail => None
      case Got(f, rest) =>
        match ParseFields(rest)
        case None => None
        case Some(fs) => Some([f] + fs)
  }

  // ---- round trips ----

  lemma TagRoundTrip(number: nat, wireType: nat, rest: Bytes)
    requires 1 <= number < 0x2000_0000 && wireType < 8
    ensures ReadTag(Tag(number, wireType) + rest) == Got(8 * number + wireType, rest)
  {
    var tag := 8 * number + wireType;
    VarintRoundTrip(tag, rest);
    TagRead(EncodeVarint(tag) + rest, tag, rest);
  }

  lemma TagRead(b: Bytes, tag: nat, rest: Bytes)
    requires 0 < tag < TWO_32 && ReadVarint(b) == Got(tag, rest)
    ensures ReadTag(b) == Got(tag, rest)
  {
  }

  lemma FixedWidths()
    ensures Pow256(4) == TWO_32 && Pow256(8) == TWO_64
  {
    assert Pow256(2) == 0x1_0000;
    assert Pow256(4) == 256 * 256 * Pow256(2);
    assert Pow256(6) == 256 * 256 * Pow256(4);
    assert Pow256(8) == 256 * 256 * Pow256(6);
  }

  lemma {:induction false} BodyRoundTrip(f: Field, rest: Bytes)
    requires ValidField(f)
    ensures ReadBody(8 * f.number + WireType(f), EncodeBody(f) + rest) == Got(f, rest)
    decreases f, 0
  {
    if f.GroupField? {
      GroupRoundTrip(f.number, f.fields, rest);
      assert EncodeBody(f) + rest == EncodeFields(f.fields) + (Tag(f.number, 4) + rest);
      TagParts(f.number, 3);
      GroupBody(8 * f.number + 3, f.number, EncodeBody(f) + rest, f.fields, rest);
    } else {
      ScalarBody(f, rest);
    }
  }

  lemma ScalarBody(f: Field, rest: Bytes)
    requires ValidField(f) && !f.GroupField?
    ensures ReadBody(8 * f.number + WireType(f), EncodeBody(f) + rest) == Got(f, rest)
  {
    var tag := 8 * f.number + WireType(f);
    TagParts(f.number, WireType(f));
    match f
    case VarintField(n, v) => VarintBody(n, v, rest);
    case BytesField(n, d) => BytesBody(n, d, rest);
    case Fixed64Field(_, _) => Fixed64Body(f, tag, rest);
    case Fixed32Field(_, _) => Fixed32Body(f, tag, rest);
  }

  lemma TagParts(n: nat, wireType: nat)
    requires wireType < 8
    ensures (8 * n + wireType) / 8 == n && (8 * n + wireType) % 8 == wireType
  {
  }

  lemma VarintBody(n: nat, v: nat, rest: Bytes)
    requires 1 <= n && v < TWO_64
    ensures ReadBody(8 * n, EncodeVarint(v) + rest) == Got(VarintField(n, v), rest)
  {
    VarintRoundTrip(v, rest);
  }

  lemma BytesBody(n: nat, d: Bytes, rest: Bytes)
    requires 1 <= n && |d| < TWO_31
    ensures ReadBody(8 * n + 2, EncodeVarint(|d|) + d + rest) == Got(BytesField(n, d), rest)
  {
    BytesRoundTrip(d, rest);
  }

  lemma GroupBody(tag: nat, n: nat, b: Bytes, fs: seq<Field>, rest: Bytes)
    requires 1 <= n == tag / 8 && tag % 8 == 3 && ReadGroup(n, b) == Got(fs, rest)
    ensures ReadBody(tag, b) == Got(GroupField(n, fs), rest)
  {
  }

  lemma Fixed64Bytes(v: nat, rest: Bytes)
    requires v < TWO_64
    ensures ReadFixed(EncodeFixed(v, 8) + rest, 8) == Got(v, rest)
  {
    FixedWidths();
    FixedRoundTrip(v, 8, rest);
  }

  lemma Fixed64Read(tag: nat, n: nat, v: nat, b: Bytes, rest: Bytes)
    requires 1 <= n == tag / 8 && tag % 8 == 1 && ReadFixed(b, 8) == Got(v, rest)
    ensures ReadBody(tag, b) == Got(Fixed64Field(n, v), rest)
  {
  }

  lemma Fixed64Body(f: Field, tag: nat, rest: Bytes)
    requires f.Fixed64Field? && 1 <= f.number == tag / 8 && tag % 8 == 1 && f.value < TWO_64
    ensures ReadBody(tag, EncodeBody(f) + rest) == Got(f, rest)
  {
    Fixed64Bytes(f.value, rest);
    Fixed64Read(tag, f.number, f.value, EncodeBody(f) + rest, rest);
  }

  lemma Fixed32Bytes(v: nat, rest: Bytes)
    requires v < TWO_32
    ensures ReadFixed(EncodeFixed(v, 4) + rest, 4) == Got(v, rest)
  {
    FixedWidths();
    FixedRoundTrip(v, 4, rest);
  }

  lemma Fixed32Read(tag: nat, n: nat, v: nat, b: Bytes, rest: Bytes)
    requires 1 <= n == tag / 8 && tag % 8 == 5 && ReadFixed(b, 4) == Got(v, rest)
    ensures ReadBody(tag, b) == Got(Fixed32Field(n, v), rest)
  {
  }

  lemma Fixed32Body(f: Field, tag: nat, rest: Bytes)
    requires f.Fixed32Field? && 1 <= f.number == tag / 8 && tag % 8 == 5 && f.value < TWO_32
    ensures ReadBody(tag, EncodeBody(f) + rest) == Got(f, rest)
  {
    Fixed32Bytes(f.value, rest);
    Fixed32Read(tag, f.number, f.value, EncodeBody(f) + rest, rest);
  }

  lemma TagOfField(f: Field, rest: Bytes)
    requires ValidField(f)
    ensures ReadTag(EncodeField(f) + rest) == Got(8 * f.number + WireType(f), EncodeBody(f) + rest)
  {
    TagBefore(f.number, WireType(f), EncodeBody(f), rest);
  }

  lemma TagBefore(number: nat, wireType: nat, body: Bytes, rest: Bytes)
    requires 1 <= number < 0x2000_0000 && wireType < 8
    ensures ReadTag(Tag(number, wireType) + body + rest) == Got(8 * number + wireType, body + rest)
  {
    TagRoundTrip(number, wireType, body + rest);
    assert Tag(number, wireType) + body + rest == Tag(number, wireType) + (body + rest);
  }

  lemma {:induction false} FieldRoundTrip(f: Field, rest: Bytes)
    requires ValidField(f)
    ensures ReadField(EncodeField(f) + rest) == Got(f, rest)
    decreases f, 1
  {
    TagOfField(f, rest);
    BodyRoundTrip(f, rest);
  }

  lemma FirstField(fs: seq<Field>, rest: Bytes)
    requires fs != []
    ensures EncodeFields(fs) + rest == EncodeField(fs[0]) + (EncodeFields(fs[1..]) + rest)
  {
  }

  lemma EmptyGroup(n: nat, rest: Bytes)
    requires 1 <= n < 0x2000_0000
    ensures ReadGroup(n, EncodeFields([]) + (Tag(n, 4) + rest)) == Got([], rest)
  {
    assert EncodeFields([]) + (Tag(n, 4) + rest) == Tag(n, 4) + rest;
    TagRoundTrip(n, 4, rest);
  }

  lemma {:induction false} GroupRoundTrip(n: nat, fs: seq<Field>, rest: Bytes)
    requires 1 <= n < 0x2000_0000 && forall g :: g in fs ==> ValidField(g)
    ensures ReadGroup(n, EncodeFields(fs) + (Tag(n, 4) + rest)) == Got(fs, rest)
    decreases fs
  {
    if fs == [] {
      EmptyGroup(n, rest);
    } else {
      var more := EncodeFields(fs[1..]) + (Tag(n, 4) + rest);
      FirstField(fs, Tag(n, 4) + rest);
      TagOfField(fs[0], more);
      BodyRoundTrip(fs[0], more);
      GroupRoundTrip(n, fs[1..], rest);
      GroupStep(n, fs[0], fs[1..], EncodeField(fs[0]) + more, EncodeBody(fs[0]) + more, more, rest);
      assert [fs[0]] + fs[1..] == fs;
    }
  }

  lemma GroupStep(n: nat, f: Field, fs: seq<Field>, b: Bytes, body: Bytes, more: Bytes, rest: Bytes)
    requires ReadTag(b) == Got(8 * f.number + WireType(f), body)
    requires ReadBody(8 * f.number + WireType(f), body) == Got(f, more)
    requires ReadGroup(n, more) == Got(fs, rest)
    ensures ReadGroup(n, b) == Got([f] + fs, rest)
  {
  }

  lemma EncodedFieldNotEmpty(f: Field)
    ensures EncodeField(f) != []
  {
  }

  lemma {:induction false} FieldsRoundTrip(fs: seq<Field>)
    requires forall f :: f in fs ==> ValidField(f)
    ensures ParseFields(EncodeFields(fs)) == Some(fs)
  {
    if fs != [] {
      FieldRoundTrip(fs[0], EncodeFields(fs[1..]));
      EncodedFieldNotEmpty(fs[0]);
      FieldsRoundTrip(fs[1..]);
      assert [fs[0]] + fs[1..] == fs;
    }
  }

  // ---- more input after a field does not change it ----

  lemma {:induction false} GroupsExtend(b: Bytes, left: nat, more: Bytes)
    requires ReadGroups(b, left).Got?
    ensures ReadGroups(b + more, left) == Got(ReadGroups(b, left).value, ReadGroups(b, left).rest + more)
    decreases left
  {
    assert (b + more)[1..] == b[1..] + more;
    if b[0] >= 128 {
      GroupsExtend(b[1..], left - 1, more);
    }
  }

  lemma VarintExtends(b: Bytes, more: Bytes)
    requires ReadVarint(b).Got?
    ensures ReadVarint(b + more) == Got(ReadVarint(b).value, ReadVarint(b).rest + more)
  {
    GroupsExtend(b, 10, more);
  }

  lemma {:induction false} FixedExtends(b: Bytes, width: nat, more: Bytes)
    requires ReadFixed(b, width).Got?
    ensures ReadFixed(b + more, width) == Got(ReadFixed(b, width).value, ReadFixed(b, width).rest + more)
  {
    if width > 0 {
      assert (b + more)[1..] == b[1..] + more;
      FixedExtends(b[1..], width - 1, more);
    }
  }

  lemma BytesExtend(b: Bytes, more: Bytes)
    requires ReadBytes(b).Got?
    ensures ReadBytes(b + more) == Got(ReadBytes(b).value, ReadBytes(b).rest + more)
  {
    VarintExtends(b, more);
    var n, rest := ReadVarint(b).value, ReadVarint(b).rest;
    assert (rest + more)[..n] == rest[..n] && (rest + more)[n..] == rest[n..] + more;
  }

  lemma {:induction false} BodyExtends(tag: nat, b: Bytes, more: Bytes)
    requires ReadBody(tag, b).Got?
    ensures ReadBody(tag, b + more) == Got(ReadBody(tag, b).value, ReadBody(tag, b).rest + more)
    decreases |b|, 1
  {
    if tag % 8 == 0 {
      VarintExtends(b, more);
    } else if tag % 8 == 1 {
      FixedExtends(b, 8, more);
    } else if tag % 8 == 2 {
      BytesExtend(b, more);
    } else if tag % 8 == 3 {
      GroupExtends(tag / 8, b, more);
    } else {
      FixedExtends(b, 4, more);
    }
  }

  lemma {:induction false} GroupExtends(n: nat, b: Bytes, more: Bytes)
    requires ReadGroup(n, b).Got?
    ensures ReadGroup(n, b + more) == Got(ReadGroup(n, b).value, ReadGroup(n, b).rest + more)
    decreases |b|, 0
  {
    VarintExtends(b, more);
    var tag, rest := ReadTag(b).value, ReadTag(b).rest;
    if tag % 8 != 4 {
      BodyExtends(tag, rest, more);
      GroupExtends(n, ReadBody(tag, rest).rest, more);
    }
  }

  lemma FieldExtends(b: Bytes, more: Bytes)
    requires ReadField(b).Got?
    ensures ReadField(b + more) == Got(ReadField(b).value, ReadField(b).rest + more)
  {
    VarintExtends(b, more);
    BodyExtends(ReadTag(b).value, ReadTag(b).rest, more);
  }

  function Append(fs: seq<Field>, r: Option<seq<Field>>): Option<seq<Field>> {
    match r
    case None => None
    case Some(gs) => Some(fs + gs)
  }

  lemma AppendTwice(fs: seq<Field>, gs: seq<Field>, r: Option<seq<Field>>)
    ensures Append(fs, Append(gs, r)) == Append(fs + gs, r)
  {
    if r.Some? {
      assert fs + (gs + r.value) == (fs + gs) + r.value;
    }
  }

  lemma ParseStep(b: Bytes, f: Field, rest: Bytes)
    requires ReadField(b) == Got(f, rest)
    ensures ParseFields(b) == Append([f], ParseFields(rest))
  {
  }

  // The fields of a concatenation are the fields of both parts, for any first part that is a
  // message and any second part whatever.
  lemma {:induction false} ParseConcatenation(a: Bytes, b: Bytes)
    requires ParseFields(a).Some?
    ensures ParseFields(a + b) == Append(ParseFields(a).value, ParseFields(b))
    decreases |a|
  {
    if a == [] {
      assert a + b == b;
      assert ParseFields(b).Some? ==> [] + ParseFields(b).value == ParseFields(b).value;
    } else {
      var f, rest := ReadField(a).value, ReadField(a).rest;
      FieldExtends(a, b);
      ParseStep(a, f, rest);
      ParseStep(a + b, f, rest + b);
      ParseConcatenation(rest, b);
      AppendTwice([f], ParseFields(rest).value, ParseFields(b));
    }
  }

  // ---- sizes ----

  function FieldSize(f: Field): nat
    decreases f
  {
    match f
    case VarintField(n, v) => VarintSize(8 * n) + VarintSize(v)
    case Fixed64Field(n, v) => VarintSize(8 * n) + 8
    case BytesField(n, d) => VarintSize(8 * n) + VarintSize(|d|) + |d|
    case GroupField(n, fs) => 2 * VarintSize(8 * n) + FieldsSize(fs)
    case Fixed32Field(n, v) => VarintSize(8 * n) + 4
  }

  function FieldsSize(fs: seq<Field>): nat
    decreases fs
  {
    if fs == [] then 0 else FieldSize(fs[0]) + FieldsSize(fs[1..])
  }

  lemma TagSize(n: nat, wireType: nat)
    requires wireType < 8
    ensures |Tag(n, wireType)| == VarintSize(8 * n)
  {
    VarintLength(8 * n + wireType);
    assert (8 * n + wireType) / 128 == (8 * n) / 128;
  }

  lemma {:induction false} FixedLength(n: nat, width: nat)
    ensures |EncodeFixed(n, width)| == width
  {
    if width > 0 {
      FixedLength(n / 256, width - 1);
    }
  }

  lemma {:induction false} FieldSizeIsLength(f: Field)
    ensures FieldSize(f) == |EncodeField(f)|
    decreases f
  {
    TagSize(f.number, WireType(f));
    match f
    case VarintField(n, v) => VarintLength(v);
    case Fixed64Field(n, v) => FixedLength(v, 8);
    case BytesField(n, d) => VarintLength(|d|);
    case GroupField(n, fs) => TagSize(n, 4); FieldsSizeIsLength(fs);
    case Fixed32Field(n, v) => FixedLength(v, 4);
  }

  lemma {:induction false} FieldsSizeIsLength(fs: seq<Field>)
    ensures FieldsSize(fs) == |EncodeFields(fs)|
    decreases fs
  {
    if fs != [] {
      FieldSizeIsLength(fs[0]);
      FieldsSizeIsLength(fs[1..]);
    }
  }

  lemma {:induction false} EncodeConcatenation(a: seq<Field>, b: seq<Field>)
    ensures EncodeFields(a + b) == EncodeFields(a) + EncodeFields(b)
  {
    if a == [] {
      assert a + b == b;
    } else {
      assert (a + b)[1..] == a[1..] + b;
      EncodeConcatenation(a[1..], b);
    }
  }
}
