// The wire format byte by byte: what the readers and encoders of Wire do, stated by positions
// and by the numbers in the encoding document, and the layout of the two messages.

module WireFormat {
  import opened Octets
  import opened Wire
  import opened StudentCodec

  // ---- "Base 128 Varints" ----

  // Seven bits from each byte, the least significant group first.
  function GroupsValue(b: Bytes): nat {
    if b == [] then 0 else GroupsValue(b[..|b| - 1]) + (b[|b| - 1] % 128) * Pow128(|b| - 1)
  }

  lemma {:induction false} GroupsFirst(b: Bytes)
    requires b != []
    ensures GroupsValue(b) == b[0] % 128 + 128 * GroupsValue(b[1..])
  {
    var n := |b| - 1;
    if n == 0 {
      assert b[..0] == [] && b[1..] == [];
    } else {
      var init := b[..n];
      GroupsFirst(init);
      assert init[1..] == b[1..][..n - 1] && b[1..][n - 1] == b[n];
      var d, p := b[n] % 128, Pow128(n - 1);
      assert Pow128(n) == 128 * p;
      Reassociate(d, p);
    }
  }

  lemma Reassociate(d: int, p: int)
    ensures d * (128 * p) == 128 * (d * p)
  {
  }

  lemma {:induction false} VarintValue(n: nat)
    ensures GroupsValue(EncodeVarint(n)) == n
  {
    var e := EncodeVarint(n);
    GroupsFirst(e);
    if n < 128 {
      assert e[1..] == [];
    } else {
      assert e[1..] == EncodeVarint(n / 128);
      VarintValue(n / 128);
    }
  }

  // All bytes but the last have their top bit set, and the last is not an idle zero.
  lemma {:induction false} VarintShape(n: nat)
    ensures var e := EncodeVarint(n);
      && |e| >= 1 && (forall i :: 0 <= i < |e| - 1 ==> e[i] >= 128)
      && e[|e| - 1] < 128 && (|e| > 1 ==> e[|e| - 1] != 0)
  {
    if n >= 128 {
      var e := EncodeVarint(n);
      VarintShape(n / 128);
      assert e[1..] == EncodeVarint(n / 128);
      assert forall i :: 1 <= i < |e| ==> e[i] == e[1..][i - 1];
    }
  }

  // A varint is read up to the first byte without its top bit...
  lemma {:induction false} GroupsRead(b: Bytes, k: nat, left: nat)
    requires 1 <= k <= left && k <= |b| && b[k - 1] < 128 && forall i :: 0 <= i < k - 1 ==> b[i] >= 128
    ensures ReadGroups(b, left) == Got(GroupsValue(b[..k]), b[k..])
  {
    GroupsFirst(b[..k]);
    if k == 1 {
      assert b[..1][1..] == [];
    } else {
      GroupsRead(b[1..], k - 1, left - 1);
      assert b[1..][..k - 1] == b[..k][1..] && b[1..][k - 1..] == b[k..];
    }
  }

  lemma VarintRead(b: Bytes, k: nat)
    requires 1 <= k <= 10 && k <= |b| && b[k - 1] < 128 && forall i :: 0 <= i < k - 1 ==> b[i] >= 128
    ensures ReadVarint(b) == Got(GroupsValue(b[..k]) % 0x1_0000_0000_0000_0000, b[k..])
  {
    GroupsRead(b, k, 10);
  }

  // ... which must be among the first ten.
  lemma {:induction false} GroupsUnread(b: Bytes, left: nat)
    requires forall i :: 0 <= i < |b| && i < left ==> b[i] >= 128
    ensures ReadGroups(b, left).Fail?
  {
    if left > 0 && b != [] {
      GroupsUnread(b[1..], left - 1);
    }
  }

  lemma VarintUnread(b: Bytes)
    requires forall i :: 0 <= i < |b| && i < 10 ==> b[i] >= 128
    ensures ReadVarint(b).Fail?
  {
    GroupsUnread(b, 10);
  }

  // ---- fixed-width numbers, the least significant byte first ----

  function FixedValue(b: Bytes): nat {
    if b == [] then 0 else FixedValue(b[..|b| - 1]) + b[|b| - 1] * Pow256(|b| - 1)
  }

  lemma {:induction false} FixedFirst(b: Bytes)
    requires b != []
    ensures FixedValue(b) == b[0] + 256 * FixedValue(b[1..])
  {
    var n := |b| - 1;
    if n == 0 {
      assert b[..0] == [] && b[1..] == [];
    } else {
      FixedFirst(b[..n]);
      assert b[..n][1..] == b[1..][..n - 1] && b[1..][n - 1] == b[n];
      Regroup(b[n], Pow256(n - 1));
    }
  }

  lemma Regroup(d: int, p: int)
    ensures d * (256 * p) == 256 * (d * p)
  {
  }

  lemma {:induction false} FixedShape(n: nat, width: nat)
    requires n < Pow256(width)
    ensures |EncodeFixed(n, width)| == width && FixedValue(EncodeFixed(n, width)) == n
  {
    if width > 0 {
      var e := EncodeFixed(n, width);
      FixedShape(n / 256, width - 1);
      FixedFirst(e);
      assert e[1..] == EncodeFixed(n / 256, width - 1);
    }
  }

  lemma {:induction false} FixedRead(b: Bytes, width: nat)
    ensures ReadFixed(b, width) == if width <= |b| then Got(FixedValue(b[..width]), b[width..]) else Fail
  {
    if width == 0 {
      assert b[0..] == b;
    } else if b != [] {
      FixedRead(b[1..], width - 1);
      if width <= |b| {
        FixedFirst(b[..width]);
        assert b[..width][1..] == b[1..][..width - 1] && b[1..][width - 1..] == b[width..];
      }
    }
  }

  // ---- length-delimited records and tags ----

  lemma BytesRead(b: Bytes, n: nat, rest: Bytes)
    requires ReadVarint(b) == Got(n, rest)
    ensures ReadBytes(b).Got? <==> n < 0x8000_0000 && n <= |rest|
    ensures ReadBytes(b).Got? ==> |ReadBytes(b).value| == n && ReadBytes(b).value + ReadBytes(b).rest == rest
  {
  }

  // A field begins with its number and its kind in one number: varints have kind 0, 64-bit
  // numbers 1, records 2, groups 3 up to kind 4, 32-bit numbers 5.
  lemma FieldLayout(f: Field)
    requires 1 <= f.number
    ensures EncodeField(f) == match f
      case VarintField(n, v) => EncodeVarint(8 * n) + EncodeVarint(v)
      case Fixed64Field(n, v) => EncodeVarint(8 * n + 1) + EncodeFixed(v, 8)
      case BytesField(n, d) => EncodeVarint(8 * n + 2) + (EncodeVarint(|d|) + d)
      case GroupField(n, fs) => EncodeVarint(8 * n + 3) + (EncodeFields(fs) + EncodeVarint(8 * n + 4))
      case Fixed32Field(n, v) => EncodeVarint(8 * n + 5) + EncodeFixed(v, 4)
  {
  }

  // Nothing else is a field: number 0, the kinds 4, 6 and 7, and tags that have no 32 bits set.
  lemma NotAField(tag: nat, b: Bytes)
    requires tag < 8 || tag % 8 == 4 || tag % 8 == 6 || tag % 8 == 7
    ensures ReadBody(tag, b).Fail?
  {
  }

  lemma KindOfField(tag: nat, b: Bytes)
    requires ReadBody(tag, b).Got?
    ensures var f := ReadBody(tag, b).value;
      && f.number == tag / 8
      && (f.VarintField? <==> tag % 8 == 0) && (f.Fixed64Field? <==> tag % 8 == 1) && (f.BytesField? <==> tag % 8 == 2)
      && (f.GroupField? <==> tag % 8 == 3) && (f.Fixed32Field? <==> tag % 8 == 5)
  {
  }

  // A group ends at the end tag of its own number; at any other, or without one, it is not read.
  lemma GroupEnds(n: nat, tag: nat, b: Bytes, rest: Bytes)
    requires ReadTag(b) == Got(tag, rest) && tag % 8 == 4
    ensures ReadGroup(n, b) == if tag / 8 == n then Got([], rest) else Fail
  {
  }

  lemma OpenGroup(n: nat)
    ensures ReadGroup(n, []).Fail?
  {
    assert ReadVarint([]).Fail?;
  }

  lemma TagRead(b: Bytes, v: nat, rest: Bytes)
    requires ReadVarint(b) == Got(v, rest)
    ensures ReadTag(b).Got? <==> v % 0x1_0000_0000 != 0
    ensures ReadTag(b).Got? ==> ReadTag(b) == Got(v % 0x1_0000_0000, rest)
  {
  }

  // ---- the layout of the two messages ----

  // Two's complement in 64 bits.
  function Unsigned64(id: int): int { if id < 0 then id + 0x1_0000_0000_0000_0000 else id }

  lemma StudentLayout(m: Student)
    ensures SerializeStudent(m) ==
      (if m.id != 0 then [8] + EncodeVarint(Unsigned64(m.id)) else [])
      + (if m.name != [] then [18] + EncodeVarint(|m.name|) + m.name else [])
      + (if m.score != 0 && m.score != 0x8000_0000_0000_0000 then [25] + EncodeFixed(m.score, 8) else [])
      + EncodeFields(m.unknown)
  {
    assert EncodeVarint(8) == [8] && EncodeVarint(18) == [18] && EncodeVarint(25) == [25];
    assert NamePart(m) == if m.name != [] then [18] + EncodeVarint(|m.name|) + m.name else [];
    assert UnknownPart(m) == EncodeFields(m.unknown);
  }

  // One record of field 4 for each content, in order.
  function RecordsBytes(data: seq<Bytes>): Bytes {
    if data == [] then [] else [34] + EncodeVarint(|data[0]|) + data[0] + RecordsBytes(data[1..])
  }

  lemma {:induction false} RecordsLayout(data: seq<Bytes>)
    ensures EncodeFields(Records(data)) == RecordsBytes(data)
  {
    if data != [] {
      RecordLayout(data[0]);
      RecordsLayout(data[1..]);
      assert Records(data)[1..] == Records(data[1..]);
    }
  }

  lemma RecordLayout(e: Bytes)
    ensures EncodeField(BytesField(4, e)) == [34] + EncodeVarint(|e|) + e
  {
    var tag, length := Tag(4, 2), EncodeVarint(|e|);
    assert tag == [34] by {
      assert EncodeVarint(34) == [34];
    }
    assert EncodeField(BytesField(4, e)) == tag + (length + e);
    Associate(tag, length, e);
  }

  // A record for each student, in order, and then the unknown fields.
  lemma StusLayout(m: Stus)
    ensures SerializeStus(m) == RecordsBytes(Encodings(m.stus)) + EncodeFields(m.unknown)
    ensures |Encodings(m.stus)| == |m.stus|
    ensures forall i :: 0 <= i < |m.stus| ==> Encodings(m.stus)[i] == SerializeStudent(m.stus[i])
  {
    EncodeConcatenation(Records(Encodings(m.stus)), m.unknown);
    RecordsLayout(Encodings(m.stus));
  }
}
