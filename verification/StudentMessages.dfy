// protobuf_test/Student.pb.cc as the source keeps it: message objects whose fields the
// parser, Clear and the merges assign, and streams the serializers append to or write
// through.  The stream classes stand for the library's and do what the wire format says.

module StudentMessages {
  import opened Octets
  import opened Options
  import opened Wire
  import opened StudentCodec

  // The input that is left, and whether the last tag was looked for at its very end.
  class CodedInput {
    var left: Bytes
    var consumedEntireMessage: bool

    constructor (input: Bytes)
      ensures left == input && !consumedEntireMessage
    {
      left, consumedEntireMessage := input, false;
    }

    // The next tag, or 0 where no field starts.
    method ReadTag() returns (tag: nat)
      modifies this
      ensures consumedEntireMessage == (old(left) == [])
      ensures tag == 0 <==> Wire.ReadTag(old(left)).Fail?
      ensures tag != 0 ==> Wire.ReadTag(old(left)) == Got(tag, left)
    {
      consumedEntireMessage := left == [];
      match Wire.ReadTag(left)
      case Fail => tag := 0;
      case Got(t, rest) => tag, left := t, rest;
    }

    method ReadVarint() returns (ok: bool, v: nat)
      modifies this`left
      ensures ok == Wire.ReadVarint(old(left)).Got?
      ensures ok ==> Wire.ReadVarint(old(left)) == Got(v, left)
    {
      match Wire.ReadVarint(left)
      case Fail => ok, v := false, 0;
      case Got(n, rest) => ok, v, left := true, n, rest;
    }

    method ReadFixed64() returns (ok: bool, v: nat)
      modifies this`left
      ensures ok == ReadFixed(old(left), 8).Got?
      ensures ok ==> ReadFixed(old(left), 8) == Got(v, left)
    {
      match ReadFixed(left, 8)
      case Fail => ok, v := false, 0;
      case Got(n, rest) => ok, v, left := true, n, rest;
    }

    method ReadBytes() returns (ok: bool, d: Bytes)
      modifies this`left
      ensures ok == Wire.ReadBytes(old(left)).Got?
      ensures ok ==> Wire.ReadBytes(old(left)) == Got(d, left)
    {
      match Wire.ReadBytes(left)
      case Fail => ok, d := false, [];
      case Got(b, rest) => ok, d, left := true, b, rest;
    }

    // A field the message does not know, to be kept.
    method SkipField(tag: nat) returns (ok: bool, unknown: seq<Field>)
      modifies this`left
      ensures ok == ReadBody(tag, old(left)).Got?
      ensures ok ==> |unknown| == 1 && unknown == [unknown[0]] && ReadBody(tag, old(left)) == Got(unknown[0], left)
    {
      match ReadBody(tag, left)
      case Fail => ok, unknown := false, [];
      case Got(f, rest) => ok, unknown, left := true, [f], rest;
    }
  }

  class CodedOutput {
    var written: Bytes

    constructor ()
      ensures written == []
    {
      written := [];
    }

    method Write(b: Bytes)
      modifies this
      ensures written == old(written) + b
    {
      written := written + b;
    }
  }

  // Copies b to target[at..] and returns the place after it; so what has been written since
  // `start` grows by b.
  method WriteToArray(b: Bytes, target: array<Byte>, at: nat, ghost start: nat) returns (end: nat)
    requires start <= at && at + |b| <= target.Length
    modifies target
    ensures end == at + |b| && target[start..end] == old(target[start..at]) + b
    ensures forall k :: 0 <= k < target.Length && !(at <= k < end) ==> target[k] == old(target[k])
  {
    end := at;
    while end < at + |b|
      invariant at <= end <= at + |b|
      invariant target[start..end] == old(target[start..at]) + b[..end - at]
      invariant forall k :: 0 <= k < target.Length && !(at <= k < end) ==> target[k] == old(target[k])
    {
      target[end] := b[end - at];
      end := end + 1;
    }
  }

  class StudentMessage {
    var id: Int32
    var name: Bytes
    var score: Bits64
    var unknown: seq<Field>
    var cachedSize: Int32

    function View(): Student
      reads this
    {
      Student(id, name, score, unknown)
    }

    constructor ()
      ensures View() == EmptyStudent && cachedSize == 0
    {
      id, name, score, unknown, cachedSize := 0, [], 0, [], 0;
    }

    method Clear()
      modifies this
      ensures View() == EmptyStudent && cachedSize == old(cachedSize)
    {
      name := [];
      score, id := 0, 0;
      unknown := [];
    }

    // Reads fields until no further one starts.
    method MergePartialFromCodedStream(input: CodedInput) returns (ok: bool)
      modifies this, input
      ensures ok == StudentLoop(old(View()), old(input.left)).Stopped?
      ensures ok ==> StudentLoop(old(View()), old(input.left)) == Stopped(View(), input.consumedEntireMessage)
      ensures ok && input.consumedEntireMessage <==> ParseStudentInto(old(View()), old(input.left)).Some?
      ensures ok && input.consumedEntireMessage ==> ParseStudentInto(old(View()), old(input.left)) == Some(View())
      ensures cachedSize == old(cachedSize)
    {
      ghost var result := StudentLoop(View(), input.left);
      StudentLoopParses(View(), input.left);
      while true
        invariant StudentLoop(View(), input.left) == result
        invariant cachedSize == old(cachedSize)
        decreases |input.left|
      {
        ghost var m, b := View(), input.left;
        var tag := input.ReadTag();
        if tag == 0 { return true; }
        StudentLoopStep(m, b, tag, input.left);
        ok := MergeField(input, tag);
        if !ok { return; }
      }
    }

    // The switch on the tag.
    method MergeField(input: CodedInput, tag: nat) returns (ok: bool)
      requires tag != 0
      modifies this, input`left
      ensures ok == ReadBody(tag, old(input.left)).Got?
      ensures ok ==> View() == ApplyToStudent(old(View()), ReadBody(tag, old(input.left)).value)
      ensures ok ==> input.left == ReadBody(tag, old(input.left)).rest
      ensures cachedSize == old(cachedSize)
    {
      if tag <= 127 && tag / 8 == 1 && tag % 256 == 8 {
        var v;
        ok, v := input.ReadVarint();
        if ok { id := ToInt32(v); }
      } else if tag <= 127 && tag / 8 == 2 && tag % 256 == 18 {
        var d;
        ok, d := input.ReadBytes();
        if ok { name := d; }
      } else if tag <= 127 && tag / 8 == 3 && tag % 256 == 25 {
        var v;
        ok, v := input.ReadFixed64();
        if ok { score := v % TWO_64; }
      } else {
        var more;
        ok, more := input.SkipField(tag);
        if ok { unknown := unknown + more; }
      }
    }

    method SerializeWithCachedSizes(output: CodedOutput)
      modifies output
      ensures output.written == old(output.written) + SerializeStudent(View())
    {
      ghost var m, w0 := View(), output.written;
      if id != 0 {
        output.Write(WriteInt32(1, id));
      }
      ghost var w1 := output.written;
      assert w1 == w0 + IdPart(m);
      if |name| > 0 {
        output.Write(WriteBytes(2, name));
      }
      ghost var w2 := output.written;
      assert w2 == w1 + NamePart(m);
      if ScoreSet(score) {
        output.Write(WriteDouble(3, score));
      }
      ghost var w3 := output.written;
      assert w3 == w2 + ScorePart(m);
      if |unknown| > 0 {
        output.Write(EncodeFields(unknown));
      }
      assert output.written == w3 + UnknownPart(m);
      Join(w0, IdPart(m), NamePart(m), ScorePart(m), UnknownPart(m));
    }

    // The same bytes, written through a pointer into a buffer.
    method InternalSerializeWithCachedSizesToArray(target: array<Byte>, at: nat) returns (end: nat)
      requires at + |SerializeStudent(View())| <= target.Length
      modifies target
      ensures end == at + |SerializeStudent(View())| && target[at..end] == SerializeStudent(View())
      ensures forall k :: 0 <= k < target.Length && !(at <= k < end) ==> target[k] == old(target[k])
    {
      ghost var m := View();
      end := at;
      if id != 0 {
        end := WriteToArray(WriteInt32(1, id), target, end, at);
      }
      ghost var w1 := target[at..end];
      assert w1 == IdPart(m);
      if |name| > 0 {
        end := WriteToArray(WriteBytes(2, name), target, end, at);
      }
      ghost var w2 := target[at..end];
      assert w2 == w1 + NamePart(m);
      if ScoreSet(score) {
        end := WriteToArray(WriteDouble(3, score), target, end, at);
      }
      ghost var w3 := target[at..end];
      assert w3 == w2 + ScorePart(m);
      if |unknown| > 0 {
        end := WriteToArray(EncodeFields(unknown), target, end, at);
      }
      assert target[at..end] == w3 + UnknownPart(m);
    }

    method ByteSizeLong() returns (totalSize: nat)
      modifies this`cachedSize
      ensures totalSize == |SerializeStudent(View())|
      ensures cachedSize == ToInt32(totalSize)
    {
      StudentSizeIsLength(View());
      totalSize := 0;
      if |unknown| > 0 {
        totalSize := totalSize + FieldsSize(unknown);
      }
      if |name| > 0 {
        totalSize := totalSize + 1 + VarintSize(|name|) + |name|;
      }
      if ScoreSet(score) {
        totalSize := totalSize + 1 + 8;
      }
      if id != 0 {
        totalSize := totalSize + 1 + VarintSize(SignExtend(id));
      }
      cachedSize := ToInt32(totalSize);
    }

    method MergeFrom(from: StudentMessage)
      requires from != this
      modifies this
      ensures View() == StudentCodec.MergeStudent(old(View()), from.View())
    {
      unknown := unknown + from.unknown;
      if |from.name| > 0 {
        name := from.name;
      }
      if ScoreSet(from.score) {
        score := from.score;
      }
      if from.id != 0 {
        id := from.id;
      }
    }

    // A copy, except that a score of -0.0 arrives as +0.0.
    method CopyFrom(from: StudentMessage)
      modifies this
      ensures from == this ==> View() == old(View())
      ensures from != this ==> View() == Normal(from.View()) && from.View() == old(from.View())
    {
      if from == this { return; }
      Clear();
      MergeFrom(from);
      MergeIsMonoid(from.View(), EmptyStudent, EmptyStudent);
    }
  }

  // The loop over the records, in either form.
  method WriteRecordsTo(data: seq<Bytes>, sizes: seq<Int32>, output: CodedOutput)
    requires |data| == |sizes|
    modifies output
    ensures output.written == old(output.written) + WriteRecords(data, sizes, |data|)
  {
    ghost var before, sofar := output.written, [];
    var i := 0;
    while i < |data|
      invariant 0 <= i <= |data|
      invariant sofar == WriteRecords(data, sizes, i) && output.written == before + sofar
    {
      var b := WriteRecord(data[i], sizes[i]);
      Associate(before, sofar, b);
      NextRecord(data, sizes, i, b);
      output.Write(b);
      sofar := sofar + b;
      i := i + 1;
    }
  }

  method WriteRecordsToArray(data: seq<Bytes>, sizes: seq<Int32>, target: array<Byte>, at: nat) returns (end: nat)
    requires |data| == |sizes| && at + |WriteRecords(data, sizes, |data|)| <= target.Length
    modifies target
    ensures end == at + |WriteRecords(data, sizes, |data|)| && target[at..end] == WriteRecords(data, sizes, |data|)
    ensures forall k :: 0 <= k < target.Length && !(at <= k < end) ==> target[k] == old(target[k])
  {
    end := at;
    var i := 0;
    while i < |data|
      invariant 0 <= i <= |data|
      invariant at <= end <= target.Length && target[at..end] == WriteRecords(data, sizes, i)
      invariant forall k :: 0 <= k < target.Length && !(at <= k < end) ==> target[k] == old(target[k])
    {
      var b := WriteRecord(data[i], sizes[i]);
      RecordsWrittenSoFar(data, sizes, i + 1, |data|);
      NextRecord(data, sizes, i, b);
      end := WriteToArray(b, target, end, at);
      i := i + 1;
    }
  }

  class StusMessage {
    var stus: seq<Student>
    var cachedSizes: seq<Int32>  // the sizes last cached in the students
    var cachedSize: Int32
    var unknown: seq<Field>

    predicate Valid()
      reads this
    {
      |cachedSizes| == |stus|
    }

    function View(): Stus
      reads this
    {
      Stus(stus, unknown)
    }

    constructor ()
      ensures Valid() && View() == EmptyStus
    {
      stus, cachedSizes, cachedSize, unknown := [], [], 0, [];
    }

    method Clear()
      modifies this
      ensures Valid() && View() == EmptyStus && cachedSize == old(cachedSize)
    {
      stus, cachedSizes := [], [];
      unknown := [];
    }

    // The students added since have no sizes cached.
    predicate NewSizes(before: seq<Int32>)
      reads this
    {
      |before| <= |cachedSizes| && cachedSizes == before + seq(|cachedSizes| - |before|, _ => 0)
    }

    // Reads fields until no further one starts; field 4 is a student of its own.
    method MergePartialFromCodedStream(input: CodedInput) returns (ok: bool)
      requires Valid()
      modifies this, input
      ensures Valid()
      ensures ok == StusLoop(old(View()), old(input.left), ParseStudent).Stopped?
      ensures ok ==> StusLoop(old(View()), old(input.left), ParseStudent) == Stopped(View(), input.consumedEntireMessage)
      ensures ok && input.consumedEntireMessage <==> ParseStusInto(old(View()), old(input.left)).Some?
      ensures ok && input.consumedEntireMessage ==> ParseStusInto(old(View()), old(input.left)) == Some(View())
      ensures cachedSize == old(cachedSize) && NewSizes(old(cachedSizes))
    {
      ghost var parse := ParseStudent;
      ghost var result := StusLoop(View(), input.left, parse);
      StusLoopParses(View(), input.left, parse);
      while true
        invariant Valid() && StusLoop(View(), input.left, parse) == result
        invariant cachedSize == old(cachedSize) && NewSizes(old(cachedSizes))
        decreases |input.left|
      {
        ghost var m, b := View(), input.left;
        var tag := input.ReadTag();
        if tag == 0 { return true; }
        StusLoopStep(m, b, tag, input.left, parse);
        ok := MergeField(input, tag);
        if !ok { return; }
      }
    }

    // The switch on the tag.
    method MergeField(input: CodedInput, tag: nat) returns (ok: bool)
      requires Valid() && tag != 0
      modifies this, input`left
      ensures Valid()
      ensures ok <==> ReadBody(tag, old(input.left)).Got?
                      && ApplyToStus(old(View()), ReadBody(tag, old(input.left)).value, ParseStudent).Some?
      ensures ok ==> ApplyToStus(old(View()), ReadBody(tag, old(input.left)).value, ParseStudent) == Some(View())
      ensures ok ==> input.left == ReadBody(tag, old(input.left)).rest
      ensures cachedSize == old(cachedSize)
      ensures cachedSizes == old(cachedSizes) || cachedSizes == old(cachedSizes) + [0]
    {
      if tag <= 127 && tag / 8 == 4 && tag % 256 == 34 {
        var d;
        ok, d := input.ReadBytes();
        if ok { ok := AddStudent(d); }
      } else {
        var more;
        ok, more := input.SkipField(tag);
        if ok { unknown := unknown + more; }
      }
    }

    // Appends a fresh student and merges the record into it.
    method AddStudent(d: Bytes) returns (ok: bool)
      requires Valid()
      modifies this
      ensures Valid() && unknown == old(unknown)
      ensures cachedSize == old(cachedSize) && cachedSizes == old(cachedSizes) + [0]
      ensures ok == ParseStudent(d).Some?
      ensures ok ==> stus == old(stus) + [ParseStudent(d).value]
    {
      var student := new StudentMessage();
      var record := new CodedInput(d);
      ok := student.MergePartialFromCodedStream(record);
      ok := ok && record.consumedEntireMessage;
      stus := stus + [student.View()];
      cachedSizes := cachedSizes + [student.cachedSize];
    }

    // The serialization exactly if the cached sizes are current (CurrentSizesSerialize).  If
    // not, the library's stream may keep other bytes than these, which the array writer makes.
    method SerializeWithCachedSizes(output: CodedOutput)
      requires Valid()
      modifies output
      ensures output.written == old(output.written) + WriteStus(View(), cachedSizes)
    {
      ghost var before, sizes := output.written, cachedSizes;
      var data := Encodings(stus);
      WriteRecordsTo(data, cachedSizes, output);
      if |unknown| > 0 {
        Associate(before, WriteRecords(data, sizes, |data|), EncodeFields(unknown));
        output.Write(EncodeFields(unknown));
      }
    }

    // The same bytes, written through a pointer into a buffer.
    method InternalSerializeWithCachedSizesToArray(target: array<Byte>, at: nat) returns (end: nat)
      requires Valid() && at + |WriteStus(View(), cachedSizes)| <= target.Length
      modifies target
      ensures end == at + |WriteStus(View(), cachedSizes)| && target[at..end] == WriteStus(View(), cachedSizes)
      ensures forall k :: 0 <= k < target.Length && !(at <= k < end) ==> target[k] == old(target[k])
    {
      var data := Encodings(stus);
      end := WriteRecordsToArray(data, cachedSizes, target, at);
      if |unknown| > 0 {
        end := WriteToArray(EncodeFields(unknown), target, end, at);
      }
    }

    method MessageSize(i: nat) returns (size: nat)
      requires Valid() && i < |stus|
      modifies this`cachedSizes
      ensures Valid() && size == StudentSizes(stus)[i] && cachedSizes == old(cachedSizes)[i := ToInt32(size)]
    {
      size := StudentSize(stus[i]);
      cachedSizes := cachedSizes[i := ToInt32(size)];
    }

    // Caches every student's size, so that what is serialized next is the serialization.
    method ByteSizeLong() returns (totalSize: nat)
      requires Valid()
      modifies this`cachedSizes, this`cachedSize
      ensures Valid() && totalSize == |SerializeStus(View())| && cachedSize == ToInt32(totalSize)
      ensures SizesCurrent(Encodings(stus), cachedSizes) <==> forall e :: e in Encodings(stus) ==> |e| < TWO_32
    {
      totalSize := 0;
      if |unknown| > 0 {
        totalSize := totalSize + FieldsSize(unknown);
      }
      var sum := MessageSizes();
      totalSize := totalSize + |stus| + sum;
      StusSizeIsLength(View());
      CachedSizesAreCurrent(stus, cachedSizes);
      cachedSize := ToInt32(totalSize);
    }

    // The loop over the students.
    method MessageSizes() returns (sum: nat)
      requires Valid()
      modifies this`cachedSizes
      ensures Valid() && |stus| + sum == RecordsSize(StudentSizes(stus), |stus|)
      ensures forall j :: 0 <= j < |stus| ==> cachedSizes[j] == ToInt32(StudentSizes(stus)[j])
    {
      ghost var sizes := StudentSizes(stus);
      sum := 0;
      var i := 0;
      while i < |stus|
        invariant 0 <= i <= |stus| && |sizes| == |stus| && Valid()
        invariant i + sum == RecordsSize(sizes, i)
        invariant forall j :: 0 <= j < i ==> cachedSizes[j] == ToInt32(sizes[j])
      {
        var size := MessageSize(i);
        sum := sum + VarintSize(size) + size;
        i := i + 1;
      }
    }

    method MergeFrom(from: StusMessage)
      requires from != this && Valid() && from.Valid()
      modifies this
      ensures Valid() && View() == MergeStus(old(View()), from.View())
      ensures cachedSize == old(cachedSize) && cachedSizes == old(cachedSizes) + seq(|from.stus|, _ => 0)
    {
      unknown := unknown + from.unknown;
      var more := from.stus;
      var copies := seq(|more|, i requires 0 <= i < |more| => StudentCodec.MergeStudent(EmptyStudent, more[i]));
      CopiesAreNormal(more, copies);
      stus := stus + copies;
      cachedSizes := cachedSizes + seq(|more|, _ => 0);
    }

    method CopyFrom(from: StusMessage)
      requires Valid() && from.Valid()
      modifies this
      ensures Valid()
      ensures from == this ==> View() == old(View())
      ensures from != this ==> View() == NormalStus(from.View()) && from.View() == old(from.View())
    {
      if from == this { return; }
      Clear();
      MergeFrom(from);
      StusMergeIsMonoid(from.View(), EmptyStus, EmptyStus);
    }
  }

  lemma CopiesAreNormal(stus: seq<Student>, copies: seq<Student>)
    requires |copies| == |stus|
    requires forall i :: 0 <= i < |stus| ==> copies[i] == StudentCodec.MergeStudent(EmptyStudent, stus[i])
    ensures copies == NormalAll(stus)
  {
    forall i | 0 <= i < |stus| ensures copies[i] == NormalAll(stus)[i] {
      MergeIsMonoid(stus[i], EmptyStudent, EmptyStudent);
    }
  }

  lemma Join(w: Bytes, a: Bytes, b: Bytes, c: Bytes, d: Bytes)
    ensures w + a + b + c + d == w + (a + b + c + d)
  {
  }
}
