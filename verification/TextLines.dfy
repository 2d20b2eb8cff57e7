// What get_line makes of text: the stream as lines and their endings.

module TextLines {
  import opened Octets
  import opened Lines
  import opened LineReading

  datatype Ending = CrLf | CrAlone | LfAlone

  function EndingBytes(e: Ending): Bytes {
    match e
    case CrLf => [13, 10]
    case CrAlone => [13]
    case LfAlone => [10]
  }

  // A line and the ending after it.
  datatype Line = Line(text: Bytes, ending: Ending)

  function Stream(lines: seq<Line>, tail: Bytes): Bytes {
    if lines == [] then tail else lines[0].text + EndingBytes(lines[0].ending) + Stream(lines[1..], tail)
  }

  function LfStream(lines: seq<Line>, tail: Bytes): Bytes {
    if lines == [] then tail else lines[0].text + [10] + LfStream(lines[1..], tail)
  }

  predicate Plain(b: Bytes) { forall k :: 0 <= k < |b| ==> b[k] != 13 && b[k] != 10 }

  // A way to read the stream as lines: no line holds an ending, and no CR stands alone before
  // an LF.
  predicate Splits(lines: seq<Line>, tail: Bytes) {
    && Plain(tail)
    && (forall k :: 0 <= k < |lines| ==> Plain(lines[k].text))
    && forall k :: 1 <= k < |lines| && lines[k].text == [] && lines[k].ending == LfAlone ==> lines[k - 1].ending != CrAlone
  }

  lemma SplitsRest(lines: seq<Line>, tail: Bytes)
    requires Splits(lines, tail) && lines != []
    ensures Splits(lines[1..], tail) && Plain(lines[0].text)
    ensures lines[0].ending == CrAlone ==> Stream(lines[1..], tail) == [] || Stream(lines[1..], tail)[0] != 10
  {
    var rest := lines[1..];
    assert forall k :: 0 <= k < |rest| ==> rest[k] == lines[k + 1];
    if rest != [] {
      assert rest[0] == lines[1] && Plain(rest[0].text);
    }
  }

  lemma {:induction false} NormalizePlain(b: Bytes, rest: Bytes)
    requires Plain(b)
    ensures Normalize(b + rest) == b + Normalize(rest)
  {
    if b == [] {
      assert b + rest == rest;
    } else {
      assert (b + rest)[1..] == b[1..] + rest;
      assert forall k :: 0 <= k < |b[1..]| ==> b[1..][k] == b[k + 1];
      NormalizePlain(b[1..], rest);
    }
  }

  lemma NormalizeEnding(e: Ending, rest: Bytes)
    requires e == CrAlone ==> rest == [] || rest[0] != 10
    ensures Normalize(EndingBytes(e) + rest) == [10] + Normalize(rest)
  {
    var t := EndingBytes(e) + rest;
    match e
    case CrLf => assert t[0] == 13 && t[1] == 10 && t[2..] == rest;
    case CrAlone => assert t[0] == 13 && t[1..] == rest;
    case LfAlone => assert t[0] == 10 && t[1..] == rest;
  }

  // Normalising replaces each ending by LF and nothing else.
  lemma {:induction false} NormalizedLines(lines: seq<Line>, tail: Bytes)
    requires Splits(lines, tail)
    ensures Normalize(Stream(lines, tail)) == LfStream(lines, tail)
  {
    if lines == [] {
      assert tail + [] == tail;
      NormalizePlain(tail, []);
    } else {
      var text, e, rest := lines[0].text, lines[0].ending, Stream(lines[1..], tail);
      SplitsRest(lines, tail);
      NormalizedLines(lines[1..], tail);
      NormalizeEnding(e, rest);
      NormalizePlain(text, EndingBytes(e) + rest);
      assert text + EndingBytes(e) + rest == text + (EndingBytes(e) + rest);
      assert text + [10] + Normalize(rest) == text + ([10] + Normalize(rest));
    }
  }

  // Every stream can be read as lines in this way.
  lemma {:induction false} EveryStreamSplits(t: Bytes) returns (lines: seq<Line>, tail: Bytes)
    ensures Splits(lines, tail) && Stream(lines, tail) == t
  {
    if t == [] {
      lines, tail := [], [];
    } else if t[0] == 13 || t[0] == 10 {
      var e := if t[0] == 10 then LfAlone else if |t| > 1 && t[1] == 10 then CrLf else CrAlone;
      var rest := t[|EndingBytes(e)|..];
      assert t == EndingBytes(e) + rest;
      var more;
      more, tail := EveryStreamSplits(rest);
      lines := [Line([], e)] + more;
      assert lines[1..] == more && [] + EndingBytes(e) + Stream(more, tail) == t;
      FirstNotLf(more, tail, e);
    } else {
      var more;
      more, tail := EveryStreamSplits(t[1..]);
      if more == [] {
        lines, tail := [], [t[0]] + tail;
      } else {
        lines := [Line([t[0]] + more[0].text, more[0].ending)] + more[1..];
        assert lines[1..] == more[1..];
        assert [t[0]] + more[0].text + EndingBytes(more[0].ending) + Stream(more[1..], tail)
            == [t[0]] + (more[0].text + EndingBytes(more[0].ending) + Stream(more[1..], tail));
      }
    }
  }

  lemma FirstNotLf(more: seq<Line>, tail: Bytes, e: Ending)
    requires Splits(more, tail) && (e == CrAlone ==> Stream(more, tail) == [] || Stream(more, tail)[0] != 10)
    ensures Splits([Line([], e)] + more, tail)
  {
    var lines := [Line([], e)] + more;
    LfFirst(more, tail);
    assert forall k :: 1 <= k < |lines| ==> lines[k] == more[k - 1];
  }

  lemma LfFirst(lines: seq<Line>, tail: Bytes)
    ensures lines != [] && lines[0].text == [] && lines[0].ending == LfAlone ==>
              Stream(lines, tail) != [] && Stream(lines, tail)[0] == 10
  {
  }

  // ---- what the calls return ----

  lemma {:induction false} PieceOfLine(text: Bytes, rest: Bytes, k: nat)
    requires Plain(text)
    ensures Piece(text + [10] + rest, k) == if |text| < k then text + [10] else text[..k]
  {
    var t := text + [10] + rest;
    if text == [] {
      assert t[0] == 10;
    } else if k > 0 {
      assert t[0] == text[0] && t[1..] == text[1..] + [10] + rest;
      assert forall i :: 0 <= i < |text[1..]| ==> text[1..][i] == text[i + 1];
      PieceOfLine(text[1..], rest, k - 1);
      assert text == [text[0]] + text[1..];
      if |text| < k {
        assert [text[0]] + (text[1..] + [10]) == text + [10];
      } else {
        assert [text[0]] + text[1..][..k - 1] == text[..k];
      }
    }
  }

  // With room for the longest line, its LF and the terminator, each call of get_line returns one
  // line of the text, whatever its ending was, followed by LF.
  lemma {:induction false} EachCallReturnsALine(lines: seq<Line>, tail: Bytes, sizes: seq<int>, i: nat)
    requires Splits(lines, tail) && i < |lines| && i < |sizes|
    requires forall j :: 0 <= j <= i ==> sizes[j] >= |lines[j].text| + 2
    ensures |Pieces(Normalize(Stream(lines, tail)), Rooms(sizes))| > i
    ensures Pieces(Normalize(Stream(lines, tail)), Rooms(sizes))[i] == lines[i].text + [10]
  {
    SplitsRest(lines, tail);
    FirstCallReturnsALine(lines, tail, sizes);
    if i > 0 {
      var more := Pieces(Normalize(Stream(lines[1..], tail)), Rooms(sizes[1..]));
      assert forall j :: 0 <= j <= i - 1 ==> lines[1..][j] == lines[j + 1] && sizes[1..][j] == sizes[j + 1];
      EachCallReturnsALine(lines[1..], tail, sizes[1..], i - 1);
      assert ([lines[0].text + [10]] + more)[i] == more[i - 1];
    }
  }

  lemma FirstCallReturnsALine(lines: seq<Line>, tail: Bytes, sizes: seq<int>)
    requires Splits(lines, tail) && lines != [] && sizes != [] && sizes[0] >= |lines[0].text| + 2
    ensures Pieces(Normalize(Stream(lines, tail)), Rooms(sizes))
            == [lines[0].text + [10]] + Pieces(Normalize(Stream(lines[1..], tail)), Rooms(sizes[1..]))
  {
    var rest := LfStream(lines[1..], tail);
    NormalizedLines(lines, tail);
    SplitsRest(lines, tail);
    NormalizedLines(lines[1..], tail);
    PieceOfLine(lines[0].text, rest, Room(sizes[0]));
    FirstPiece(LfStream(lines, tail), sizes, rest);
  }
}
