// Bytes, as every buffer, file and socket of the program carries them.

module Octets {
  type Byte = x: int | 0 <= x < 256
  type Bytes = seq<Byte>

  const NUL: Byte := 0
  const LF: Byte := 10
  const CR: Byte := 13

  lemma Associate(a: Bytes, b: Bytes, c: Bytes)
    ensures a + b + c == a + (b + c)
  {
  }

  // What a C string holds before its terminator.
  predicate NulFree(s: Bytes) { forall k :: 0 <= k < |s| ==> s[k] != NUL }

  lemma NulFreeCons(c: Byte, rest: Bytes)
    ensures NulFree([c] + rest) <==> c != NUL && NulFree(rest)
  {
    var s := [c] + rest;
    assert s[0] == c;
    assert forall k :: 1 <= k < |s| ==> s[k] == rest[k - 1];
    assert forall k :: 0 <= k < |rest| ==> rest[k] == s[k + 1];
  }

  // The string a C function sees.
  function CString(b: Bytes): Bytes { if b == [] || b[0] == NUL then [] else [b[0]] + CString(b[1..]) }

  // Terminated bytes are the C string exactly if there is no earlier terminator.
  lemma {:induction false} CStringOf(s: Bytes, rest: Bytes)
    ensures CString(s + [NUL] + rest) == s <==> NulFree(s)
  {
    var b := s + [NUL] + rest;
    if s == [] {
      assert b[0] == NUL;
    } else {
      assert b[0] == s[0] && b[1..] == s[1..] + [NUL] + rest;
      CStringOf(s[1..], rest);
      NulFreeCons(s[0], s[1..]);
      assert s[0] != NUL ==> CString(b) == [s[0]] + CString(b[1..]);
      assert s == [s[0]] + s[1..];
    }
  }
}
