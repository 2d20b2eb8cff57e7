// Percent-encoding of pub.c: `strdecode` rewrites a C string in place, `strencode` writes
// as much of a C string as its buffer is sure to hold.

module PercentCodec {
  import opened Octets

  const PERCENT: Byte := '%' as int

  // ---- digits ----

  predicate InRange(c: Byte, low: char, high: char) { low as int <= c <= high as int }

  predicate IsHex(c: Byte) { InRange(c, '0', '9') || InRange(c, 'a', 'f') || InRange(c, 'A', 'F') }

  function Hexit(c: Byte): (v: Byte)
    ensures v < 16
    ensures v > 0 ==> IsHex(c)
  {
    if InRange(c, '0', '9') then c - '0' as int
    else if InRange(c, 'a', 'f') then c - 'a' as int + 10
    else if InRange(c, 'A', 'F') then c - 'A' as int + 10
    else 0
  }

  function HexDigit(v: nat): (c: Byte)
    requires v < 16
    ensures IsHex(c) && c != PERCENT && Hexit(c) == v
  {
    if v < 10 then '0' as int + v else 'a' as int + v - 10
  }

  // Two digits stand for the same value exactly when they differ in case alone.
  lemma HexitIgnoresCase(c: Byte, d: Byte)
    requires IsHex(c) && IsHex(d)
    ensures Hexit(c) == Hexit(d) <==>
              c == d || (InRange(c, 'A', 'F') && d == c + 32) || (InRange(d, 'A', 'F') && c == d + 32)
  {
  }

  // ---- decoding ----

  predicate StartsEscape(s: Bytes) { |s| >= 3 && s[0] == PERCENT && IsHex(s[1]) && IsHex(s[2]) }

  // The first decoded byte, and the length of what stands for it.
  function First(s: Bytes): Byte
    requires s != []
  {
    if StartsEscape(s) then 16 * Hexit(s[1]) + Hexit(s[2]) else s[0]
  }

  function Width(s: Bytes): (w: nat)
    requires s != []
    ensures 1 <= w <= |s|
  {
    if StartsEscape(s) then 3 else 1
  }

  function Decode(s: Bytes): Bytes {
    if s == [] then [] else [First(s)] + Decode(s[Width(s)..])
  }

  // The positions at which an escape starts, wherever the decoder happens to stand.
  function EscapeCount(s: Bytes): nat {
    if s == [] then 0 else (if StartsEscape(s) then 1 else 0) + EscapeCount(s[1..])
  }

  // Escapes never overlap, so the decoder meets every one of them.
  lemma {:induction false} DecodedLength(s: Bytes)
    ensures |Decode(s)| == |s| - 2 * EscapeCount(s)
  {
    if s == [] {
    } else if StartsEscape(s) {
      assert s[1..][1..] == s[2..] && s[2..][1..] == s[3..];
      assert EscapeCount(s[1..]) == EscapeCount(s[2..]) == EscapeCount(s[3..]);
      DecodedLength(s[3..]);
    } else {
      DecodedLength(s[1..]);
    }
  }

  lemma {:induction false} NoEscapeNoChange(s: Bytes)
    ensures Decode(s) == s <==> EscapeCount(s) == 0
  {
    DecodedLength(s);
    if s != [] && EscapeCount(s) == 0 {
      NoEscapeNoChange(s[1..]);
    }
  }

  predicate CutsEscape(a: Bytes, b: Bytes) {
    exists k :: 0 <= k < |a| && |a| - 2 <= k && StartsEscape((a + b)[k..])
  }

  lemma FirstOfUncut(a: Bytes, b: Bytes)
    requires a != [] && !CutsEscape(a, b)
    ensures Width(a) == Width(a + b) && First(a) == First(a + b)
  {
    assert (a + b)[0..] == a + b;
    assert |a| - 2 <= 0 ==> !StartsEscape((a + b)[0..]);
  }

  lemma StillUncut(a: Bytes, b: Bytes, n: nat)
    requires n <= |a| && !CutsEscape(a, b)
    ensures (a + b)[n..] == a[n..] + b && !CutsEscape(a[n..], b)
  {
    forall k | 0 <= k < |a[n..]| && |a[n..]| - 2 <= k
      ensures !StartsEscape((a[n..] + b)[k..])
    {
      assert (a[n..] + b)[k..] == (a + b)[k + n..];
    }
  }

  lemma {:induction false} DecodeUncut(a: Bytes, b: Bytes)
    requires !CutsEscape(a, b)
    ensures Decode(a + b) == Decode(a) + Decode(b)
    decreases |a|
  {
    if a == [] {
      assert a + b == b;
    } else {
      FirstOfUncut(a, b);
      StillUncut(a, b, Width(a));
      DecodeUncut(a[Width(a)..], b);
    }
  }

  // Putting two parts together keeps their escapes, and makes one more at a cut escape.
  lemma {:induction false} EscapesOfBoth(a: Bytes, b: Bytes)
    ensures EscapeCount(a + b) >= EscapeCount(a) + EscapeCount(b)
    ensures CutsEscape(a, b) ==> EscapeCount(a + b) > EscapeCount(a) + EscapeCount(b)
  {
    if a == [] {
      assert a + b == b;
    } else {
      assert (a + b)[1..] == a[1..] + b && (a + b)[0..] == a + b;
      EscapesOfBoth(a[1..], b);
      if CutsEscape(a, b) {
        CutAtFirst(a, b);
      }
    }
  }

  lemma CutAtFirst(a: Bytes, b: Bytes)
    requires a != [] && CutsEscape(a, b)
    ensures CutsEscape(a[1..], b) || (|a| <= 2 && StartsEscape(a + b))
  {
    var k :| 0 <= k < |a| && |a| - 2 <= k && StartsEscape((a + b)[k..]);
    assert (a + b)[0..] == a + b;
    if k > 0 {
      assert (a[1..] + b)[k - 1..] == (a + b)[k..];
    }
  }

  // Decoding works piece by piece if and only if no cut falls inside an escape.
  lemma DecodeConcatenation(a: Bytes, b: Bytes)
    ensures Decode(a + b) == Decode(a) + Decode(b) <==> !CutsEscape(a, b)
  {
    if CutsEscape(a, b) {
      EscapesOfBoth(a, b);
      DecodedLength(a);
      DecodedLength(b);
      DecodedLength(a + b);
      assert |Decode(a + b)| < |Decode(a) + Decode(b)|;
    } else {
      DecodeUncut(a, b);
    }
  }

  // The C string `rest` and its terminator are still in the buffer at `f`.
  ghost predicate Ahead(now: Bytes, f: nat, rest: Bytes) {
    && NulFree(rest) && f + |rest| < |now|
    && now[f + |rest|] == NUL
    && forall k :: f <= k < f + |rest| ==> now[k] == rest[k - f]
  }

  // Between two turns: what is written, what is still to read, and that nothing else changed.
  ghost predicate Halfway(now: Bytes, was: Bytes, to: nat, t: nat, f: nat, s: Bytes, rest: Bytes) {
    && to <= t <= f && |now| == |was|
    && Ahead(now, f, rest)
    && now[..to] == was[..to] && now[t..] == was[t..]
    && Decode(s) == now[to..t] + Decode(rest)
  }

  // One turn of the loop, at the first byte of `rest`.
  method DecodeOne(a: array<Byte>, t: nat, f: nat, ghost rest: Bytes) returns (next: nat)
    requires t <= f && f + |rest| < a.Length && rest != []
    requires Ahead(a[..], f, rest)
    modifies a
    ensures next == f + Width(rest) && a[..] == old(a[..])[t := First(rest)]
  {
    ghost var now := a[..];
    assert now[f] == rest[0] && now[f + 1] == (rest + [NUL])[1];
    assert |rest| > 1 ==> now[f + 2] == (rest + [NUL])[2];
    if a[f] == PERCENT && IsHex(a[f + 1]) && IsHex(a[f + 2]) {
      a[t] := Hexit(a[f + 1]) * 16 + Hexit(a[f + 2]);
      next := f + 3;
    } else {
      a[t] := a[f];
      next := f + 1;
    }
  }

  lemma HalfwayStart(was: Bytes, to: nat, from: nat, s: Bytes)
    requires to <= from && Ahead(was, from, s)
    ensures Halfway(was, was, to, to, from, s, s)
  {
    assert was[to..to] + Decode(s) == Decode(s);
  }

  lemma AtTerminator(now: Bytes, f: nat, rest: Bytes)
    requires Ahead(now, f, rest)
    ensures now[f] == NUL <==> rest == []
  {
    assert rest != [] ==> now[f] == rest[0];
  }

  lemma HalfwayStep(now: Bytes, was: Bytes, to: nat, t: nat, f: nat, s: Bytes, rest: Bytes)
    requires Halfway(now, was, to, t, f, s, rest) && rest != []
    ensures var w := Width(rest);
      Halfway(now[t := First(rest)], was, to, t + 1, f + w, s, rest[w..])
  {
    var next := now[t := First(rest)];
    assert next[t + 1..] == now[t..][1..] == was[t..][1..];
    assert next[to..t + 1] == now[to..t] + [First(rest)];
    assert next[..to] == now[..to];
  }

  lemma HalfwayEnd(now: Bytes, was: Bytes, to: nat, t: nat, f: nat, s: Bytes)
    requires Halfway(now, was, to, t, f, s, [])
    ensures t == to + |Decode(s)|
    ensures now[t := NUL] == was[..to] + Decode(s) + [NUL] + was[t + 1..]
  {
    var end := now[t := NUL];
    assert now == now[..to] + now[to..t] + now[t..];
    assert end == now[..to] + now[to..t] + [NUL] + now[t..][1..];
    assert was[t..][1..] == was[t + 1..];
  }

  // The loop: all that is read is written, up to the terminator.
  method DecodeLoop(a: array<Byte>, to: nat, from: nat, ghost s: Bytes) returns (t: nat)
    requires to <= from && Ahead(a[..], from, s)
    modifies a
    ensures Halfway(a[..], old(a[..]), to, t, from + |s|, s, [])
  {
    ghost var was, rest := a[..], s;
    var f: nat := from;
    t := to;
    HalfwayStart(was, to, from, s);
    while a[f] != NUL
      invariant f + |rest| == from + |s|
      invariant Halfway(a[..], was, to, t, f, s, rest)
      decreases |rest|
    {
      AtTerminator(a[..], f, rest);
      ghost var more, next := rest[Width(rest)..], a[..][t := First(rest)];
      HalfwayStep(a[..], was, to, t, f, s, rest);
      f := DecodeOne(a, t, f, rest);
      assert a[..] == next;
      t, rest := t + 1, more;
    }
    AtTerminator(a[..], f, rest);
  }

  // strdecode, with `to` at or before `from` in one buffer.  Everything before the result and
  // behind its terminator is left as it was, and the buffer may end with the old terminator.
  method StrDecode(a: array<Byte>, to: nat, from: nat, ghost s: Bytes)
    requires to <= from && Ahead(a[..], from, s)
    modifies a
    ensures to + |Decode(s)| <= from + |s|
    ensures a[..] == old(a[..to]) + Decode(s) + [NUL] + old(a[to + |Decode(s)| + 1..])
  {
    ghost var was := a[..];
    var t := DecodeLoop(a, to, from, s);
    HalfwayEnd(a[..], was, to, t, from + |s|, s);
    ghost var last := a[..][t := NUL];
    a[t] := NUL;
    assert a[..] == last;
  }

  // The escape of the terminator.
  predicate StartsNulEscape(s: Bytes) {
    |s| >= 3 && s[0] == PERCENT && s[1] == '0' as int && s[2] == '0' as int
  }

  predicate HoldsNulEscape(s: Bytes) { exists k :: 0 <= k < |s| && StartsNulEscape(s[k..]) }

  lemma {:induction false} DecodedNul(s: Bytes)
    requires NulFree(s)
    ensures NulFree(Decode(s)) <==> !HoldsNulEscape(s)
  {
    if s != [] {
      var rest := s[Width(s)..];
      DecodedNul(rest);
      FirstIsNul(s);
      LaterNulEscapes(s);
      NulFreeCons(First(s), Decode(rest));
    }
  }

  lemma FirstIsNul(s: Bytes)
    requires NulFree(s) && s != []
    ensures First(s) == NUL <==> StartsNulEscape(s)
  {
  }

  // No escape starts inside another one.
  lemma LaterNulEscapes(s: Bytes)
    requires s != []
    ensures HoldsNulEscape(s) <==> StartsNulEscape(s) || HoldsNulEscape(s[Width(s)..])
  {
    var w := Width(s);
    var rest := s[w..];
    assert s[0..] == s;
    if HoldsNulEscape(s) {
      var k :| 0 <= k < |s| && StartsNulEscape(s[k..]);
      if k >= w {
        assert rest[k - w..] == s[k..];
      } else {
        assert s[k] == s[k..][0];
      }
    }
    if HoldsNulEscape(rest) {
      var k :| 0 <= k < |rest| && StartsNulEscape(rest[k..]);
      assert rest[k..] == s[w + k..];
    }
  }

  // ---- the decoding, byte by byte ----

  // The value of a hexadecimal digit in ASCII, or -1.
  function HexValue(c: Byte): int {
    if 48 <= c <= 57 then c - 48 else if 97 <= c <= 102 then c - 87 else if 65 <= c <= 70 then c - 55 else -1
  }

  lemma HexitIsHexValue(c: Byte)
    ensures IsHex(c) <==> HexValue(c) >= 0
    ensures IsHex(c) ==> Hexit(c) == HexValue(c)
  {
  }

  // A % before two hexadecimal digits stands with them for one byte...
  lemma DecodeEscape(h: Byte, l: Byte, rest: Bytes)
    requires HexValue(h) >= 0 && HexValue(l) >= 0
    ensures Decode([37, h, l] + rest) == [16 * HexValue(h) + HexValue(l)] + Decode(rest)
  {
    var s := [37, h, l] + rest;
    HexitIsHexValue(h);
    HexitIsHexValue(l);
    assert s[0] == 37 && s[1] == h && s[2] == l && s[3..] == rest;
  }

  // ... and every other byte for itself.
  lemma DecodeOther(c: Byte, rest: Bytes)
    requires !(c == 37 && |rest| >= 2 && HexValue(rest[0]) >= 0 && HexValue(rest[1]) >= 0)
    ensures Decode([c] + rest) == [c] + Decode(rest)
  {
    var s := [c] + rest;
    assert s[0] == c && s[1..] == rest;
    if |rest| >= 2 {
      HexitIsHexValue(rest[0]);
      HexitIsHexValue(rest[1]);
      assert s[1] == rest[0] && s[2] == rest[1];
    }
  }

  // As a C string the result of strdecode is the whole decoding if and only if the string
  // holds no %00.
  lemma DecodedCString(s: Bytes, rest: Bytes)
    requires NulFree(s)
    ensures CString(Decode(s) + [NUL] + rest) == Decode(s) <==> !HoldsNulEscape(s)
  {
    CStringOf(Decode(s), rest);
    DecodedNul(s);
  }

  // ---- encoding ----

  predicate IsAlnum(c: Byte) { InRange(c, '0', '9') || InRange(c, 'a', 'z') || InRange(c, 'A', 'Z') }

  // isalnum in the C locale, and "/_.-~".
  predicate IsPlain(c: Byte) {
    IsAlnum(c) || c == '/' as int || c == '_' as int || c == '.' as int || c == '-' as int || c == '~' as int
  }

  function EncodeByte(c: Byte): Bytes {
    if IsPlain(c) then [c] else [PERCENT, HexDigit(c / 16), HexDigit(c % 16)]
  }

  function Encode(s: Bytes): Bytes {
    if s == [] then [] else Encode(s[..|s| - 1]) + EncodeByte(s[|s| - 1])
  }

  lemma DecodeEncodedByte(c: Byte, rest: Bytes)
    ensures Decode(EncodeByte(c) + rest) == [c] + Decode(rest)
  {
    var e := EncodeByte(c) + rest;
    assert e[|EncodeByte(c)|..] == rest;
    if IsPlain(c) {
      assert !StartsEscape(e);
    } else {
      assert StartsEscape(e) && First(e) == c;
    }
  }

  lemma EncodeLast(s: Bytes, rest: Bytes)
    requires s != []
    ensures Encode(s) + rest == Encode(s[..|s| - 1]) + (EncodeByte(s[|s| - 1]) + rest)
  {
  }

  lemma Regroup(s: Bytes, rest: Bytes)
    requires s != []
    ensures s[..|s| - 1] + ([s[|s| - 1]] + rest) == s + rest
  {
  }

  // The decoder inverts the encoder on every string of bytes, whatever follows.
  lemma {:induction false} DecodeEncode(s: Bytes, rest: Bytes)
    ensures Decode(Encode(s) + rest) == s + Decode(rest)
  {
    if s == [] {
      assert Encode(s) + rest == rest;
    } else {
      var c, init := s[|s| - 1], s[..|s| - 1];
      var e := EncodeByte(c) + rest;
      EncodeLast(s, rest);
      DecodeEncodedByte(c, rest);
      DecodeEncode(init, e);
      Regroup(s, Decode(rest));
    }
  }

  lemma {:induction false} RoundTrip(s: Bytes)
    ensures Decode(Encode(s)) == s
  {
    DecodeEncode(s, []);
    assert Encode(s) + [] == Encode(s);
  }

  // 0-9, A-Z, a-z and the five of "-./_~" in ASCII.
  predicate PlainCode(c: int) {
    48 <= c <= 57 || 65 <= c <= 90 || 97 <= c <= 122 || c == 45 || c == 46 || c == 47 || c == 95 || c == 126
  }

  predicate LowerHexCode(c: int) { 48 <= c <= 57 || 97 <= c <= 102 }

  // A plain byte is written as itself; any other as % and two lower-case hexadecimal digits.
  lemma EncodedByteIs(c: Byte)
    ensures Encode([c]) == EncodeByte(c)
    ensures var e := Encode([c]);
      if PlainCode(c) then e == [c]
      else |e| == 3 && e[0] == 37 && LowerHexCode(e[1]) && LowerHexCode(e[2]) && 16 * HexValue(e[1]) + HexValue(e[2]) == c
  {
    HexDigitCode(c / 16);
    HexDigitCode(c % 16);
    assert [c][..0] == [];
  }

  lemma HexDigitCode(v: nat)
    requires v < 16
    ensures LowerHexCode(HexDigit(v)) && HexValue(HexDigit(v)) == v
  {
  }

  lemma {:induction false} EncodeConcatenation(s: Bytes, u: Bytes)
    ensures Encode(s + u) == Encode(s) + Encode(u)
  {
    if u == [] {
      assert s + u == s;
    } else {
      var n := |u| - 1;
      assert (s + u)[..|s + u| - 1] == s + u[..n];
      EncodeConcatenation(s, u[..n]);
    }
  }

  // The output has only plain bytes and the % and digits of escapes, in at most three times the
  // length.
  lemma {:induction false} EncodedBytes(s: Bytes)
    ensures |s| <= |Encode(s)| <= 3 * |s|
    ensures forall k :: 0 <= k < |Encode(s)| ==> PlainCode(Encode(s)[k]) || Encode(s)[k] == 37
  {
    if s != [] {
      EncodedBytes(s[..|s| - 1]);
      EncodedByteIs(s[|s| - 1]);
    }
  }

  // Bytes of `s` that strencode takes, `taken` of them already: while five more fit.
  function Fit(s: Bytes, size: nat, taken: nat): nat
    requires taken <= |s|
    decreases |s| - taken
  {
    if taken < |s| && Fits(s, size, taken) then Fit(s, size, taken + 1) else taken
  }

  predicate Fits(s: Bytes, size: nat, k: nat)
    requires k <= |s|
  {
    |Encode(s[..k])| + 4 < size
  }

  lemma {:induction false} FitIsFirst(s: Bytes, size: nat, taken: nat)
    requires taken <= |s|
    ensures taken <= Fit(s, size, taken) <= |s|
    ensures Fit(s, size, taken) == |s| || !Fits(s, size, Fit(s, size, taken))
    ensures forall k :: taken <= k < Fit(s, size, taken) ==> Fits(s, size, k)
    decreases |s| - taken
  {
    if taken < |s| && Fits(s, size, taken) {
      FitIsFirst(s, size, taken + 1);
    }
  }

  lemma EncodeNext(s: Bytes, i: nat)
    requires i < |s|
    ensures Encode(s[..i + 1]) == Encode(s[..i]) + EncodeByte(s[i])
  {
    assert s[..i + 1][..i] == s[..i];
  }

  // One turn of the loop.  sprintf writes a terminator behind the three characters.
  method EncodeOne(to: array<Byte>, tolen: nat, c: Byte) returns (next: nat)
    requires tolen + 4 <= to.Length
    modifies to
    ensures next == tolen + |EncodeByte(c)|
    ensures to[..next] == old(to[..tolen]) + EncodeByte(c) && to[tolen + 4..] == old(to[tolen + 4..])
  {
    if IsPlain(c) {
      to[tolen] := c;
      next := tolen + 1;
    } else {
      to[tolen], to[tolen + 1], to[tolen + 2] := PERCENT, HexDigit(c / 16), HexDigit(c % 16);
      to[tolen + 3] := NUL;
      next := tolen + 3;
    }
  }

  // strencode.  `s` is the C string at `from`.
  method StrEncode(to: array<Byte>, tosize: nat, s: Bytes)
    requires 1 <= tosize <= to.Length && NulFree(s)
    modifies to
    ensures Fit(s, tosize, 0) <= |s|
    ensures var e := Encode(s[..Fit(s, tosize, 0)]);
      |e| < tosize && to[..|e|] == e && to[|e|] == NUL && to[tosize..] == old(to[tosize..])
  {
    var tolen: nat, i: nat := 0, 0;
    while i < |s| && tolen + 4 < tosize
      invariant i <= |s| && tolen < tosize
      invariant to[..tolen] == Encode(s[..i]) && Fit(s, tosize, 0) == Fit(s, tosize, i)
      invariant to[tosize..] == old(to[tosize..])
    {
      EncodeNext(s, i);
      ghost var before, k: nat := to[tolen + 4..], tosize - tolen - 4;
      assert before[k..] == to[tosize..];
      tolen := EncodeOne(to, tolen, s[i]);
      assert before[k..] == to[tosize..];
      i := i + 1;
    }
    to[tolen] := NUL;
  }

  lemma {:induction false} EncodeGrows(s: Bytes, k: nat)
    requires k <= |s|
    ensures |Encode(s[..k])| + |s| - k <= |Encode(s)|
  {
    if k < |s| {
      var init := s[..|s| - 1];
      assert init[..k] == s[..k];
      EncodeGrows(init, k);
    } else {
      assert s[..k] == s;
    }
  }

  // What strencode wrote decodes to what it took: a prefix, never a cut escape, and all of
  // the string exactly when its last byte still found five bytes of room.
  lemma {:induction false} TruncationIsClean(s: Bytes, tosize: nat)
    requires tosize >= 1
    ensures Fit(s, tosize, 0) <= |s|
    ensures var m := Fit(s, tosize, 0);
      && Decode(Encode(s[..m])) == s[..m]
      && (m == |s| <==> s == [] || |Encode(s[..|s| - 1])| + 4 < tosize)
      && (tosize >= 3 * |s| + 2 ==> Decode(Encode(s[..m])) == s)
  {
    FitIsFirst(s, tosize, 0);
    var m := Fit(s, tosize, 0);
    assert s != [] && m == |s| ==> Fits(s, tosize, |s| - 1);
    RoundTrip(s[..m]);
    if s != [] {
      EncodedBytes(s[..|s| - 1]);
      if m < |s| {
        var init := s[..|s| - 1];
        assert init[..m] == s[..m];
        EncodeGrows(init, m);
      }
    }
    assert s[..|s|] == s;
  }
}
