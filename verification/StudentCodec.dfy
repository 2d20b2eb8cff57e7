// protobuf_test/Student.pb.cc on values: what parsing, serializing, sizing and merging a
// Student and a Stus mean.  A double is its 64-bit pattern.

module StudentCodec {
  import opened Octets
  import opened Options
  import opened Wire

  type Int32 = x: int | -TWO_31 <= x < TWO_31
  type Bits64 = x: int | 0 <= x < TWO_64

  datatype Student = Student(id: Int32, name: Bytes, score: Bits64, unknown: seq<Field>)

  datatype Stus = Stus(stus: seq<Student>, unknown: seq<Field>)

  const EmptyStudent := Student(0, [], 0, [])
  const EmptyStus := Stus([], [])

  const NEGATIVE_ZERO: Bits64 := TWO_63

  // !(score <= 0 && score >= 0): everything but the two zeros, NaNs included.
  predicate ScoreSet(score: Bits64) { score != 0 && score != NEGATIVE_ZERO }

  function ToInt32(n: nat): Int32 {
    var w := n % TWO_32;
    if w < TWO_31 then w else w - TWO_32
  }

  // A negative int32 is written as the 64-bit integer with the same value.
  function SignExtend(id: Int32): nat { if id >= 0 then id else id + TWO_64 }

  // ---- parsing: what one field does to a message ----

  function ApplyToStudent(m: Student, f: Field): Student {
    if f.VarintField? && f.number == 1 then m.(id := ToInt32(f.value))
    else if f.BytesField? && f.number == 2 then m.(name := f.data)
    else if f.Fixed64Field? && f.number == 3 then m.(score := f.value % TWO_64)
    else m.(unknown := m.unknown + [f])
  }

  predicate StudentClaims(f: Field) {
    (f.VarintField? && f.number == 1) || (f.BytesField? && f.number == 2) || (f.Fixed64Field? && f.number == 3)
  }

  function MergeStudentFields(m: Student, fs: seq<Field>): Student
    decreases |fs|
  {
    if fs == [] then m else MergeStudentFields(ApplyToStudent(m, fs[0]), fs[1..])
  }

  // The whole input as one message, merged into m.
  function ParseStudentInto(m: Student, b: Bytes): Option<Student> {
    match ParseFields(b)
    case None => None
    case Some(fs) => Some(MergeStudentFields(m, fs))
  }

  function ParseStudent(d: Bytes): Option<Student> { ParseStudentInto(EmptyStudent, d) }

  // The parser of the nested messages is a parameter here; it is ParseStudent.
  function ApplyToStus(m: Stus, f: Field, parse: Bytes -> Option<Student>): Option<Stus> {
    if StusClaims(f) then
      match parse(f.data)
      case None => None
      case Some(s) => Some(m.(stus := m.stus + [s]))
    else Some(m.(unknown := m.unknown + [f]))
  }

  predicate StusClaims(f: Field) { f.BytesField? && f.number == 4 }

  function MergeStusFields(m: Stus, fs: seq<Field>, parse: Bytes -> Option<Student>): Option<Stus>
    decreases |fs|
  {
    if fs == [] then Some(m)
    else
      match ApplyToStus(m, fs[0], parse)
      case None => None
      case Some(m') => MergeStusFields(m', fs[1..], parse)
  }

  function ParseStusWith(m: Stus, b: Bytes, parse: Bytes -> Option<Student>): Option<Stus> {
    match ParseFields(b)
    case None => None
    case Some(fs) => MergeStusFields(m, fs, parse)
  }

  function ParseStusInto(m: Stus, b: Bytes): Option<Stus> { ParseStusWith(m, b, ParseStudent) }

  // ---- the parser's loop ----

  // Failed, or stopped at a point where no field starts; `all` says that was the end.
  datatype Parsed<M> = Failed | Stopped(message: M, all: bool)

  function StudentLoop(m: Student, b: Bytes): Parsed<Student>
    decreases |b|
  {
    match ReadTag(b)
    case Fail => Stopped(m, b == [])
    case Got(tag, rest) =>
      match ReadBody(tag, rest)
      case Fail => Failed
      case Got(f, rest') => StudentLoop(ApplyToStudent(m, f), rest')
  }

  function StusLoop(m: Stus, b: Bytes, parse: Bytes -> Option<Student>): Parsed<Stus>
    decreases |b|
  {
    match ReadTag(b)
    case Fail => Stopped(m, b == [])
    case Got(tag, rest) =>
      match ReadBody(tag, rest)
      case Fail => Failed
      case Got(f, rest') =>
        match ApplyToStus(m, f, parse)
        case None => Failed
        case Some(m') => StusLoop(m', rest', parse)
  }

  // The loop over tags accepts exactly the inputs that are a sequence of fields, and merges
  // exactly those.
  lemma {:induction false} StudentLoopParses(m: Student, b: Bytes)
    ensures StudentLoop(m, b).Stopped? && StudentLoop(m, b).all <==> ParseFields(b).Some?
    ensures ParseFields(b).Some? ==> StudentLoop(m, b) == Stopped(ParseStudentInto(m, b).value, true)
    decreases |b|
  {
    if ReadField(b).Got? {
      var f, rest := ReadField(b).value, ReadField(b).rest;
      StudentLoopParses(ApplyToStudent(m, f), rest);
      ParseStep(b, f, rest);
      if ParseFields(rest).Some? {
        assert ([f] + ParseFields(rest).value)[1..] == ParseFields(rest).value;
      }
    }
  }

  lemma StudentLoopStep(m: Student, b: Bytes, tag: nat, rest: Bytes)
    requires ReadTag(b) == Got(tag, rest)
    ensures ReadBody(tag, rest).Fail? ==> StudentLoop(m, b) == Failed
    ensures ReadBody(tag, rest).Got? ==>
              StudentLoop(m, b) == StudentLoop(ApplyToStudent(m, ReadBody(tag, rest).value), ReadBody(tag, rest).rest)
  {
  }

  lemma {:induction false} StusLoopParses(m: Stus, b: Bytes, parse: Bytes -> Option<Student>)
    ensures StusLoop(m, b, parse).Stopped? && StusLoop(m, b, parse).all <==> ParseStusWith(m, b, parse).Some?
    ensures ParseStusWith(m, b, parse).Some? ==>
              StusLoop(m, b, parse) == Stopped(ParseStusWith(m, b, parse).value, true)
    decreases |b|
  {
    if ReadField(b).Got? {
      var f, rest := ReadField(b).value, ReadField(b).rest;
      ParseStep(b, f, rest);
      if ParseFields(rest).Some? {
        assert ([f] + ParseFields(rest).value)[1..] == ParseFields(rest).value;
      }
      if ApplyToStus(m, f, parse).Some? {
        StusLoopParses(ApplyToStus(m, f, parse).value, rest, parse);
      }
    }
  }

  lemma StusLoopStep(m: Stus, b: Bytes, tag: nat, rest: Bytes, parse: Bytes -> Option<Student>)
    requires ReadTag(b) == Got(tag, rest)
    ensures ReadBody(tag, rest).Fail? ==> StusLoop(m, b, parse) == Failed
    ensures ReadBody(tag, rest).Got? ==> var f := ReadBody(tag, rest).value;
              (ApplyToStus(m, f, parse).None? ==> StusLoop(m, b, parse) == Failed) &&
              (ApplyToStus(m, f, parse).Some? ==>
                StusLoop(m, b, parse) == StusLoop(ApplyToStus(m, f, parse).value, ReadBody(tag, rest).rest, parse))
  {
  }

  // ---- serializing ----

  function WriteInt32(number: nat, v: Int32): Bytes { Tag(number, 0) + EncodeVarint(SignExtend(v)) }

  function WriteBytes(number: nat, d: Bytes): Bytes { Tag(number, 2) + (EncodeVarint(|d|) + d) }

  function WriteDouble(number: nat, v: Bits64): Bytes { Tag(number, 1) + EncodeFixed(v, 8) }

  // A student is written in four parts, of which those with a default value are left out.
  function IdPart(m: Student): Bytes { if m.id != 0 then WriteInt32(1, m.id) else [] }

  function NamePart(m: Student): Bytes { if m.name != [] then WriteBytes(2, m.name) else [] }

  function ScorePart(m: Student): Bytes { if ScoreSet(m.score) then WriteDouble(3, m.score) else [] }

  function UnknownPart(m: Student): Bytes { if m.unknown != [] then EncodeFields(m.unknown) else [] }

  function SerializeStudent(m: Student): Bytes { IdPart(m) + NamePart(m) + ScorePart(m) + UnknownPart(m) }

  // The fields of what is written.
  function KnownFields(m: Student): (seq<Field>, seq<Field>, seq<Field>) {
    (if m.id != 0 then [VarintField(1, SignExtend(m.id))] else [],
     if m.name != [] then [BytesField(2, m.name)] else [],
     if ScoreSet(m.score) then [Fixed64Field(3, m.score)] else [])
  }

  function StudentFields(m: Student): seq<Field> {
    var (ids, names, scores) := KnownFields(m);
    ids + names + scores + m.unknown
  }

  lemma EncodeOne(f: Field)
    ensures EncodeFields([f]) == EncodeField(f)
  {
    assert EncodeField(f) + EncodeFields([]) == EncodeField(f);
  }

  lemma SerializedFields(m: Student)
    ensures SerializeStudent(m) == EncodeFields(StudentFields(m))
  {
    var (ids, names, scores) := KnownFields(m);
    EncodeOne(VarintField(1, SignExtend(m.id)));
    EncodeOne(BytesField(2, m.name));
    EncodeOne(Fixed64Field(3, m.score));
    EncodeConcatenation(ids + names + scores, m.unknown);
    EncodeConcatenation(ids + names, scores);
    EncodeConcatenation(ids, names);
  }

  function StudentSize(m: Student): nat {
    (if m.id != 0 then 1 + VarintSize(SignExtend(m.id)) else 0)
    + (if m.name != [] then 1 + VarintSize(|m.name|) + |m.name| else 0)
    + (if ScoreSet(m.score) then 9 else 0)
    + (if m.unknown != [] then FieldsSize(m.unknown) else 0)
  }

  // The size pre-pass agrees with the writer.
  lemma StudentSizeIsLength(m: Student)
    ensures StudentSize(m) == |SerializeStudent(m)|
  {
    VarintLength(SignExtend(m.id));
    VarintLength(|m.name|);
    FixedLength(m.score, 8);
    FieldsSizeIsLength(m.unknown);
  }

  function Encodings(stus: seq<Student>): seq<Bytes> {
    seq(|stus|, i requires 0 <= i < |stus| => SerializeStudent(stus[i]))
  }

  function Records(encodings: seq<Bytes>): seq<Field> {
    if encodings == [] then [] else [BytesField(4, encodings[0])] + Records(encodings[1..])
  }

  function StusFields(m: Stus): seq<Field> { Records(Encodings(m.stus)) + m.unknown }

  function SerializeStus(m: Stus): Bytes { EncodeFields(StusFields(m)) }

  // What the limits of the format allow: lengths below 2^31, and unknown fields that are
  // well formed and not one of the message's own.
  ghost predicate ValidStudent(m: Student) {
    && |m.name| < TWO_31
    && forall f :: f in m.unknown ==> ValidField(f) && !StudentClaims(f)
  }

  ghost predicate ValidStus(m: Stus) {
    && (forall s :: s in m.stus ==> ValidStudent(s) && |SerializeStudent(s)| < TWO_31)
    && forall f :: f in m.unknown ==> ValidField(f) && !StusClaims(f)
  }

  // ---- merging ----

  function MergeStudent(m: Student, from: Student): Student {
    Student(if from.id != 0 then from.id else m.id,
            if from.name != [] then from.name else m.name,
            if ScoreSet(from.score) then from.score else m.score,
            m.unknown + from.unknown)
  }

  // A student with -0.0 replaced by +0.0.
  function Normal(m: Student): Student { if m.score == NEGATIVE_ZERO then m.(score := 0) else m }

  function NormalAll(stus: seq<Student>): seq<Student> {
    seq(|stus|, i requires 0 <= i < |stus| => Normal(stus[i]))
  }

  function NormalStus(m: Stus): Stus { m.(stus := NormalAll(m.stus)) }

  // The appended students are copies, each merged into a new one, and so lose -0.0.
  function MergeStus(m: Stus, from: Stus): Stus {
    Stus(m.stus + NormalAll(from.stus), m.unknown + from.unknown)
  }

  // ---- the theorems ----

  lemma {:induction false} MergeFieldsSplit(m: Student, fs: seq<Field>, gs: seq<Field>)
    ensures MergeStudentFields(m, fs + gs) == MergeStudentFields(MergeStudentFields(m, fs), gs)
    decreases |fs|
  {
    if fs == [] {
      assert fs + gs == gs;
    } else {
      assert (fs + gs)[1..] == fs[1..] + gs;
      MergeFieldsSplit(ApplyToStudent(m, fs[0]), fs[1..], gs);
    }
  }

  lemma {:induction false} UnknownFieldsAppend(m: Student, fs: seq<Field>)
    requires forall f :: f in fs ==> !StudentClaims(f)
    ensures MergeStudentFields(m, fs) == m.(unknown := m.unknown + fs)
    decreases |fs|
  {
    if fs == [] {
      assert m.unknown + fs == m.unknown;
    } else {
      assert fs[0] in fs;
      UnknownFieldsAppend(ApplyToStudent(m, fs[0]), fs[1..]);
      assert m.unknown + [fs[0]] + fs[1..] == m.unknown + fs;
    }
  }

  lemma SignExtendRoundTrip(id: Int32)
    ensures SignExtend(id) < TWO_64 && ToInt32(SignExtend(id)) == id
    ensures id < 0 ==> VarintSize(SignExtend(id)) == 10
  {
    if id < 0 {
      assert Pow128(2) == 0x4000;
      assert Pow128(4) == 0x4000 * Pow128(2);
      assert Pow128(6) == 0x4000 * Pow128(4);
      assert Pow128(8) == 0x4000 * Pow128(6);
      assert Pow128(9) == 128 * Pow128(8);
      assert Pow128(10) == 128 * Pow128(9);
      VarintSizeIs(SignExtend(id), 9);
    }
  }

  lemma IdFieldsMerge(m: Student, from: Student)
    ensures MergeStudentFields(m, KnownFields(from).0) == if from.id != 0 then m.(id := from.id) else m
  {
    SignExtendRoundTrip(from.id);
  }

  lemma NameFieldsMerge(m: Student, from: Student)
    ensures MergeStudentFields(m, KnownFields(from).1) == if from.name != [] then m.(name := from.name) else m
  {
  }

  lemma ScoreFieldsMerge(m: Student, from: Student)
    ensures MergeStudentFields(m, KnownFields(from).2) == if ScoreSet(from.score) then m.(score := from.score) else m
  {
  }

  // Applying the written fields of `from` to m is merging `from` into m.
  lemma WrittenFieldsMerge(m: Student, from: Student)
    requires ValidStudent(from)
    ensures MergeStudentFields(m, StudentFields(from)) == MergeStudent(m, from)
  {
    var (ids, names, scores) := KnownFields(from);
    MergeFieldsSplit(m, ids + names + scores, from.unknown);
    KnownFieldsMerge(m, from);
    UnknownFieldsAppend(MergeStudentFields(m, ids + names + scores), from.unknown);
  }

  lemma KnownFieldsMerge(m: Student, from: Student)
    ensures var (ids, names, scores) := KnownFields(from);
            MergeStudentFields(m, ids + names + scores) == MergeStudent(m, from).(unknown := m.unknown)
  {
    var (ids, names, scores) := KnownFields(from);
    MergeFieldsSplit(m, ids + names, scores);
    MergeFieldsSplit(m, ids, names);
    IdFieldsMerge(m, from);
    NameFieldsMerge(MergeStudentFields(m, ids), from);
    ScoreFieldsMerge(MergeStudentFields(m, ids + names), from);
  }

  lemma WrittenFieldsAreValid(m: Student)
    requires ValidStudent(m)
    ensures forall f :: f in StudentFields(m) ==> ValidField(f)
  {
    SignExtendRoundTrip(m.id);
  }

  // Parsing what was written merges it: for every message m and every student.
  lemma ParseSerialized(m: Student, from: Student)
    requires ValidStudent(from)
    ensures ParseStudentInto(m, SerializeStudent(from)) == Some(MergeStudent(m, from))
  {
    SerializedFields(from);
    WrittenFieldsAreValid(from);
    FieldsRoundTrip(StudentFields(from));
    WrittenFieldsMerge(m, from);
  }

  // The round trip, up to the sign of a zero score - and exactly unless the score is -0.0.
  lemma StudentRoundTrip(m: Student)
    requires ValidStudent(m)
    ensures ParseStudentInto(EmptyStudent, SerializeStudent(m)) == Some(Normal(m))
    ensures ParseStudentInto(EmptyStudent, SerializeStudent(m)) == Some(m) <==> m.score != NEGATIVE_ZERO
  {
    ParseSerialized(EmptyStudent, m);
    MergeIsMonoid(m, EmptyStudent, EmptyStudent);
  }

  // Parsing a concatenation is parsing the second part into the result of the first, for
  // any inputs whatever.
  lemma ParseConcatenated(m: Student, a: Bytes, b: Bytes)
    requires ParseStudentInto(m, a).Some?
    ensures ParseStudentInto(m, a + b) == ParseStudentInto(ParseStudentInto(m, a).value, b)
  {
    ParseConcatenation(a, b);
    if ParseFields(b).Some? {
      MergeFieldsSplit(m, ParseFields(a).value, ParseFields(b).value);
    }
  }

  // Concatenating serializations is merging.
  lemma ConcatenationIsMerge(a: Student, b: Student)
    requires ValidStudent(a) && ValidStudent(b)
    ensures ParseStudentInto(EmptyStudent, SerializeStudent(a) + SerializeStudent(b)) == Some(Normal(MergeStudent(a, b)))
  {
    ParseSerialized(EmptyStudent, a);
    ParseConcatenated(EmptyStudent, SerializeStudent(a), SerializeStudent(b));
    ParseSerialized(MergeStudent(EmptyStudent, a), b);
    assert [] + a.unknown == a.unknown;
  }

  // Merging is associative, the cleared message is a right identity, and a left identity -
  // so that CopyFrom, which clears and merges, copies - exactly for scores other than -0.0.
  lemma MergeIsMonoid(a: Student, b: Student, c: Student)
    ensures MergeStudent(MergeStudent(a, b), c) == MergeStudent(a, MergeStudent(b, c))
    ensures MergeStudent(a, EmptyStudent) == a
    ensures MergeStudent(EmptyStudent, a) == Normal(a)
    ensures MergeStudent(EmptyStudent, a) == a <==> a.score != NEGATIVE_ZERO
  {
    assert a.unknown + b.unknown + c.unknown == a.unknown + (b.unknown + c.unknown);
    assert a.unknown + [] == a.unknown && [] + a.unknown == a.unknown;
  }

  // -- Stus --

  lemma {:induction false} MergeStusSplit(m: Stus, fs: seq<Field>, gs: seq<Field>, parse: Bytes -> Option<Student>)
    requires MergeStusFields(m, fs, parse).Some?
    ensures MergeStusFields(m, fs + gs, parse) == MergeStusFields(MergeStusFields(m, fs, parse).value, gs, parse)
    decreases |fs|
  {
    if fs == [] {
      assert fs + gs == gs;
    } else {
      assert (fs + gs)[1..] == fs[1..] + gs;
      MergeStusSplit(ApplyToStus(m, fs[0], parse).value, fs[1..], gs, parse);
    }
  }

  lemma {:induction false} UnknownStusFieldsAppend(m: Stus, fs: seq<Field>, parse: Bytes -> Option<Student>)
    requires forall f :: f in fs ==> !StusClaims(f)
    ensures MergeStusFields(m, fs, parse) == Some(m.(unknown := m.unknown + fs))
    decreases |fs|
  {
    if fs == [] {
      assert m.unknown + fs == m.unknown;
    } else {
      assert fs[0] in fs;
      UnknownStusFieldsAppend(ApplyToStus(m, fs[0], parse).value, fs[1..], parse);
      assert m.unknown + [fs[0]] + fs[1..] == m.unknown + fs;
    }
  }

  // Records that parse, one by one, to the given students append those students.
  lemma {:induction false} RecordsAppend(m: Stus, encodings: seq<Bytes>, stus: seq<Student>, parse: Bytes -> Option<Student>)
    requires |encodings| == |stus| && forall i :: 0 <= i < |stus| ==> parse(encodings[i]) == Some(stus[i])
    ensures MergeStusFields(m, Records(encodings), parse) == Some(m.(stus := m.stus + stus))
    decreases |stus|
  {
    if stus == [] {
      assert m.stus + stus == m.stus;
    } else {
      var m1 := m.(stus := m.stus + [stus[0]]);
      assert Records(encodings)[1..] == Records(encodings[1..]);
      RecordsAppend(m1, encodings[1..], stus[1..], parse);
      assert m1.stus + stus[1..] == m.stus + stus;
    }
  }

  lemma EncodingsParse(stus: seq<Student>)
    requires forall s :: s in stus ==> ValidStudent(s)
    ensures forall i :: 0 <= i < |stus| ==> ParseStudent(Encodings(stus)[i]) == Some(NormalAll(stus)[i])
  {
    forall i | 0 <= i < |stus| ensures ParseStudent(Encodings(stus)[i]) == Some(NormalAll(stus)[i]) {
      StudentRoundTrip(stus[i]);
    }
  }

  lemma {:induction false} RecordsAreValid(encodings: seq<Bytes>)
    requires forall e :: e in encodings ==> |e| < TWO_31
    ensures forall f :: f in Records(encodings) ==> ValidField(f)
  {
    if encodings != [] {
      assert encodings[0] in encodings;
      RecordsAreValid(encodings[1..]);
    }
  }

  lemma WrittenStusFieldsAreValid(m: Stus)
    requires ValidStus(m)
    ensures forall f :: f in StusFields(m) ==> ValidField(f)
  {
    forall e | e in Encodings(m.stus) ensures |e| < TWO_31 {
      var i :| 0 <= i < |m.stus| && Encodings(m.stus)[i] == e;
      assert m.stus[i] in m.stus;
    }
    RecordsAreValid(Encodings(m.stus));
  }

  lemma WrittenStusFieldsMerge(m: Stus, from: Stus)
    requires ValidStus(from)
    ensures MergeStusFields(m, StusFields(from), ParseStudent) == Some(MergeStus(m, from))
  {
    EncodingsParse(from.stus);
    StusFieldsMerge(m, Encodings(from.stus), NormalAll(from.stus), from.unknown, ParseStudent);
  }

  lemma StusFieldsMerge(m: Stus, encodings: seq<Bytes>, stus: seq<Student>, unknown: seq<Field>, parse: Bytes -> Option<Student>)
    requires |encodings| == |stus| && forall i :: 0 <= i < |stus| ==> parse(encodings[i]) == Some(stus[i])
    requires forall f :: f in unknown ==> !StusClaims(f)
    ensures MergeStusFields(m, Records(encodings) + unknown, parse) == Some(Stus(m.stus + stus, m.unknown + unknown))
  {
    RecordsAppend(m, encodings, stus, parse);
    MergeStusSplit(m, Records(encodings), unknown, parse);
    UnknownStusFieldsAppend(m.(stus := m.stus + stus), unknown, parse);
  }

  lemma ParseSerializedStus(m: Stus, from: Stus)
    requires ValidStus(from)
    ensures ParseStusInto(m, SerializeStus(from)) == Some(MergeStus(m, from))
  {
    WrittenStusFieldsAreValid(from);
    FieldsRoundTrip(StusFields(from));
    WrittenStusFieldsMerge(m, from);
  }

  // Parsing a concatenation of messages is parsing the second part into the result of the first.
  lemma ParseConcatenatedStus(m: Stus, a: Bytes, b: Bytes, parse: Bytes -> Option<Student>)
    requires ParseStusWith(m, a, parse).Some?
    ensures ParseStusWith(m, a + b, parse) == ParseStusWith(ParseStusWith(m, a, parse).value, b, parse)
  {
    ParseConcatenation(a, b);
    if ParseFields(b).Some? {
      MergeStusSplit(m, ParseFields(a).value, ParseFields(b).value, parse);
    }
  }

  lemma NormalIsIdempotent(stus: seq<Student>, more: seq<Student>)
    ensures NormalAll(NormalAll(stus)) == NormalAll(stus)
    ensures NormalAll(stus + more) == NormalAll(stus) + NormalAll(more)
    ensures NormalAll(stus) == stus <==> forall s :: s in stus ==> s.score != NEGATIVE_ZERO
  {
    if forall s :: s in stus ==> s.score != NEGATIVE_ZERO {
      assert forall i :: 0 <= i < |stus| ==> NormalAll(stus)[i] == stus[i];
    } else {
      var s :| s in stus && s.score == NEGATIVE_ZERO;
      var i :| 0 <= i < |stus| && stus[i] == s;
      assert NormalAll(stus)[i] != stus[i];
    }
  }

  // Every Stus comes back from its serialization: all students, in order, with all their
  // fields, known and unknown, -0.0 becoming +0.0.
  lemma StusRoundTrip(m: Stus)
    requires ValidStus(m)
    ensures ParseStusInto(EmptyStus, SerializeStus(m)) == Some(NormalStus(m))
    ensures NormalStus(m) == m <==> forall s :: s in m.stus ==> s.score != NEGATIVE_ZERO
  {
    ParseSerializedStus(EmptyStus, m);
    assert [] + m.unknown == m.unknown && [] + NormalStus(m).stus == NormalStus(m).stus;
    NormalIsIdempotent(m.stus, []);
  }

  lemma StusConcatenationIsMerge(a: Stus, b: Stus)
    requires ValidStus(a) && ValidStus(b)
    ensures ParseStusInto(EmptyStus, SerializeStus(a) + SerializeStus(b)) == Some(NormalStus(MergeStus(a, b)))
  {
    StusRoundTrip(a);
    ParseSerializedStus(NormalStus(a), b);
    ParsedInTurn(SerializeStus(a), SerializeStus(b), a, b, ParseStudent);
  }

  lemma ParsedInTurn(x: Bytes, y: Bytes, a: Stus, b: Stus, parse: Bytes -> Option<Student>)
    requires ParseStusWith(EmptyStus, x, parse) == Some(NormalStus(a))
    requires ParseStusWith(NormalStus(a), y, parse) == Some(MergeStus(NormalStus(a), b))
    ensures ParseStusWith(EmptyStus, x + y, parse) == Some(NormalStus(MergeStus(a, b)))
  {
    ParseConcatenatedStus(EmptyStus, x, y, parse);
    NormalIsIdempotent(a.stus, NormalAll(b.stus));
    NormalIsIdempotent(b.stus, []);
  }

  lemma StusMergeIsMonoid(a: Stus, b: Stus, c: Stus)
    ensures MergeStus(MergeStus(a, b), c) == MergeStus(a, MergeStus(b, c))
    ensures MergeStus(a, EmptyStus) == a && MergeStus(EmptyStus, a) == NormalStus(a)
  {
    var x, y := NormalAll(b.stus), NormalAll(c.stus);
    assert a.unknown + b.unknown + c.unknown == a.unknown + (b.unknown + c.unknown);
    NormalIsIdempotent(b.stus, y);
    NormalIsIdempotent(c.stus, []);
    assert a.stus + x + y == a.stus + (x + y);
    assert a.unknown + [] == a.unknown && [] + a.unknown == a.unknown;
    assert a.stus + [] == a.stus && [] + NormalAll(a.stus) == NormalAll(a.stus);
  }

  // ---- sizes of nested messages ----

  // The writer of a Stus takes the length of each record from the size that was last cached
  // for that student, as an unsigned 32-bit number.
  function Unsigned(size: Int32): nat { if size >= 0 then size else size + TWO_32 }

  function WriteRecord(data: Bytes, size: Int32): Bytes { Tag(4, 2) + EncodeVarint(Unsigned(size)) + data }

  // The first n records.
  function WriteRecords(data: seq<Bytes>, sizes: seq<Int32>, n: nat): Bytes
    requires n <= |data| == |sizes|
  {
    if n == 0 then [] else WriteRecords(data, sizes, n - 1) + WriteRecord(data[n - 1], sizes[n - 1])
  }

  function WriteStus(m: Stus, sizes: seq<Int32>): Bytes
    requires |sizes| == |m.stus|
  {
    WriteRecords(Encodings(m.stus), sizes, |m.stus|) + if m.unknown != [] then EncodeFields(m.unknown) else []
  }

  lemma NextRecord(data: seq<Bytes>, sizes: seq<Int32>, i: nat, b: Bytes)
    requires i < |data| == |sizes| && b == WriteRecord(data[i], sizes[i])
    ensures WriteRecords(data, sizes, i + 1) == WriteRecords(data, sizes, i) + b
  {
  }

  lemma {:induction false} RecordsWrittenSoFar(data: seq<Bytes>, sizes: seq<Int32>, i: nat, n: nat)
    requires i <= n <= |data| == |sizes|
    ensures |WriteRecords(data, sizes, i)| <= |WriteRecords(data, sizes, n)|
  {
    if i < n {
      RecordsWrittenSoFar(data, sizes, i, n - 1);
    }
  }

  ghost predicate SizesCurrent(data: seq<Bytes>, sizes: seq<Int32>) {
    |data| == |sizes| && forall i :: 0 <= i < |data| ==> Unsigned(sizes[i]) == |data[i]|
  }

  lemma {:induction false} RecordsSnoc(data: seq<Bytes>, last: Bytes)
    ensures Records(data + [last]) == Records(data) + [BytesField(4, last)]
  {
    if data != [] {
      assert (data + [last])[1..] == data[1..] + [last];
      RecordsSnoc(data[1..], last);
    }
  }

  lemma {:induction false} CurrentSizesWriteRecords(data: seq<Bytes>, sizes: seq<Int32>, n: nat)
    requires SizesCurrent(data, sizes) && n <= |data|
    ensures WriteRecords(data, sizes, n) == EncodeFields(Records(data[..n]))
  {
    if n > 0 {
      CurrentSizesWriteRecords(data, sizes, n - 1);
      assert data[..n] == data[..n - 1] + [data[n - 1]];
      RecordsSnoc(data[..n - 1], data[n - 1]);
      EncodeConcatenation(Records(data[..n - 1]), [BytesField(4, data[n - 1])]);
      EncodeOne(BytesField(4, data[n - 1]));
      assert EncodeField(BytesField(4, data[n - 1])) == WriteRecord(data[n - 1], sizes[n - 1]);
    }
  }

  lemma {:induction false} FirstRecord(data: seq<Bytes>, sizes: seq<Int32>, n: nat)
    requires 1 <= n <= |data| == |sizes|
    ensures WriteRecords(data, sizes, n) == WriteRecord(data[0], sizes[0]) + WriteRecords(data[1..], sizes[1..], n - 1)
  {
    if n > 1 {
      FirstRecord(data, sizes, n - 1);
    }
  }

  // Two records of the same bytes before anything: the prefixes tell the sizes apart.
  lemma RecordsDiffer(d: Bytes, size: Int32, a: Bytes, b: Bytes)
    requires WriteRecord(d, size) + a == EncodeField(BytesField(4, d)) + b
    ensures Unsigned(size) == |d| && a == b
  {
    var tag := Tag(4, 2);
    var x, y := EncodeVarint(Unsigned(size)) + (d + a), EncodeVarint(|d|) + (d + b);
    assert WriteRecord(d, size) + a == tag + x;
    assert EncodeField(BytesField(4, d)) + b == tag + y;
    assert x == (tag + x)[|tag|..] == (tag + y)[|tag|..] == y;
    VarintIsPrefixFree(Unsigned(size), |d|, d + a, d + b);
    assert a == (d + a)[|d|..] == (d + b)[|d|..] == b;
  }

  lemma {:induction false} RightBytesRightSizes(data: seq<Bytes>, sizes: seq<Int32>, a: Bytes, b: Bytes)
    requires |data| == |sizes|
    requires WriteRecords(data, sizes, |data|) + a == EncodeFields(Records(data)) + b
    ensures SizesCurrent(data, sizes)
  {
    if data != [] {
      var w := WriteRecords(data[1..], sizes[1..], |data| - 1) + a;
      var e := EncodeFields(Records(data[1..])) + b;
      FirstRecord(data, sizes, |data|);
      assert WriteRecords(data, sizes, |data|) + a == WriteRecord(data[0], sizes[0]) + w;
      assert EncodeFields(Records(data)) + b == EncodeField(BytesField(4, data[0])) + e;
      RecordsDiffer(data[0], sizes[0], w, e);
      RightBytesRightSizes(data[1..], sizes[1..], a, b);
      assert forall i :: 1 <= i < |data| ==> data[i] == data[1..][i - 1] && sizes[i] == sizes[1..][i - 1];
    }
  }

  // The writer's bytes are the serialization if and only if every cached size is current.
  lemma CurrentSizesSerialize(m: Stus, sizes: seq<Int32>)
    requires |sizes| == |m.stus|
    ensures WriteStus(m, sizes) == SerializeStus(m) <==> SizesCurrent(Encodings(m.stus), sizes)
  {
    var data := Encodings(m.stus);
    EncodeConcatenation(Records(data), m.unknown);
    if SizesCurrent(data, sizes) {
      CurrentSizesWriteRecords(data, sizes, |data|);
      assert data[..|data|] == data;
    }
    if WriteStus(m, sizes) == SerializeStus(m) {
      RightBytesRightSizes(data, sizes, EncodeFields(m.unknown), EncodeFields(m.unknown));
    }
  }

  // A Stus that was only parsed has no sizes cached.  Written as it is, it is serialized if
  // and only if none of its students has anything to write.
  lemma WithoutSizePass(m: Stus)
    ensures WriteStus(m, seq(|m.stus|, _ => 0)) == SerializeStus(m) <==> forall e :: e in Encodings(m.stus) ==> e == []
  {
    CurrentSizesSerialize(m, seq(|m.stus|, _ => 0));
    ZeroSizes(Encodings(m.stus));
  }

  lemma ZeroSizes(data: seq<Bytes>)
    ensures SizesCurrent(data, seq(|data|, _ => 0)) <==> forall e :: e in data ==> e == []
  {
    var sizes: seq<Int32> := seq(|data|, _ => 0);
    assert forall i :: 0 <= i < |data| ==> data[i] in data && Unsigned(sizes[i]) == 0;
  }

  // What then comes back can be another message: the student is empty and its field belongs
  // to the Stus.
  lemma StaleSizeLosesStudent()
    ensures var m, other := Stus([Student(1, [], 0, [])], []), Stus([EmptyStudent], [VarintField(1, 1)]);
            ParseStusInto(EmptyStus, SerializeStus(m)) == Some(m) && ParseStusInto(EmptyStus, WriteStus(m, [0])) == Some(other)
  {
    var s := Student(1, [], 0, []);
    var m := Stus([s], []);
    OneFieldStudent();
    assert m.stus == [s] && Encodings(m.stus) == [[8, 1]];
    OneUnsizedRecord();
    assert WriteStus(m, [0]) == [34, 0, 8, 1];
    StusRoundTrip(m);
    UnclaimedAfterEmpty();
  }

  lemma OneFieldStudent()
    ensures SerializeStudent(Student(1, [], 0, [])) == [8, 1]
  {
    assert EncodeVarint(8) == [8] && EncodeVarint(1) == [1];
  }

  lemma OneUnsizedRecord()
    ensures WriteRecords([[8, 1]], [0], 1) == [34, 0, 8, 1]
  {
    assert EncodeVarint(34) == [34] && EncodeVarint(0) == [0];
    assert WriteRecords([[8, 1]], [0], 0) == [];
  }

  lemma UnclaimedAfterEmpty()
    ensures ParseStusInto(EmptyStus, [34, 0, 8, 1]) == Some(Stus([EmptyStudent], [VarintField(1, 1)]))
  {
    var fs := [BytesField(4, []), VarintField(1, 1)];
    assert EncodeVarint(34) == [34] && EncodeVarint(8) == [8];
    assert EncodeFields(fs[1..]) == [8, 1] + EncodeFields(fs[1..][1..]);
    assert EncodeFields(fs) == [34, 0, 8, 1];
    FieldsRoundTrip(fs);
    StudentRoundTrip(EmptyStudent);
    assert ParseStudent([]) == Some(EmptyStudent);
    FirstThenUnknown(fs, ParseStudent);
  }

  lemma FirstThenUnknown(fs: seq<Field>, parse: Bytes -> Option<Student>)
    requires fs == [BytesField(4, []), VarintField(1, 1)] && parse([]) == Some(EmptyStudent)
    ensures MergeStusFields(EmptyStus, fs, parse) == Some(Stus([EmptyStudent], [VarintField(1, 1)]))
  {
    var one := Stus([EmptyStudent], []);
    var two := Stus([EmptyStudent], [VarintField(1, 1)]);
    assert EmptyStus.stus + [EmptyStudent] == one.stus && one.unknown + [fs[1]] == two.unknown;
    assert ApplyToStus(EmptyStus, fs[0], parse) == Some(one);
    assert ApplyToStus(one, fs[1], parse) == Some(two);
    assert fs[1..][0] == fs[1] && fs[1..][1..] == [];
    assert MergeStusFields(one, fs[1..], parse) == MergeStusFields(two, [], parse);
  }

  // What ByteSizeLong adds up for the first n students of these sizes.
  function RecordsSize(sizes: seq<nat>, n: nat): nat
    requires n <= |sizes|
  {
    if n == 0 then 0 else RecordsSize(sizes, n - 1) + 1 + VarintSize(sizes[n - 1]) + sizes[n - 1]
  }

  function StudentSizes(stus: seq<Student>): seq<nat> {
    seq(|stus|, i requires 0 <= i < |stus| => StudentSize(stus[i]))
  }

  function StusSize(m: Stus): nat {
    (if m.unknown != [] then FieldsSize(m.unknown) else 0) + RecordsSize(StudentSizes(m.stus), |m.stus|)
  }

  lemma {:induction false} RecordsSizeIsLength(data: seq<Bytes>, sizes: seq<nat>, n: nat)
    requires n <= |data| == |sizes| && forall i :: 0 <= i < |data| ==> sizes[i] == |data[i]|
    ensures RecordsSize(sizes, n) == |EncodeFields(Records(data[..n]))|
  {
    if n > 0 {
      RecordsSizeIsLength(data, sizes, n - 1);
      assert data[..n] == data[..n - 1] + [data[n - 1]];
      RecordsSnoc(data[..n - 1], data[n - 1]);
      EncodeConcatenation(Records(data[..n - 1]), [BytesField(4, data[n - 1])]);
      EncodeOne(BytesField(4, data[n - 1]));
      FieldSizeIsLength(BytesField(4, data[n - 1]));
    }
  }

  // The size pre-pass agrees with the writer, nested length prefixes included.
  lemma StusSizeIsLength(m: Stus)
    ensures StusSize(m) == |SerializeStus(m)|
  {
    var data, sizes := Encodings(m.stus), StudentSizes(m.stus);
    forall i | 0 <= i < |data| ensures sizes[i] == |data[i]| {
      StudentSizeIsLength(m.stus[i]);
    }
    RecordsSizeIsLength(data, sizes, |data|);
    assert data[..|data|] == data;
    EncodeConcatenation(Records(data), m.unknown);
    FieldsSizeIsLength(m.unknown);
  }

  lemma CachedSizeIsCurrent(s: Student)
    ensures Unsigned(ToInt32(StudentSize(s))) == |SerializeStudent(s)| <==> |SerializeStudent(s)| < TWO_32
  {
    StudentSizeIsLength(s);
  }

  lemma CachedSizesAreCurrent(stus: seq<Student>, sizes: seq<Int32>)
    requires |sizes| == |stus| && forall j :: 0 <= j < |stus| ==> sizes[j] == ToInt32(StudentSizes(stus)[j])
    ensures SizesCurrent(Encodings(stus), sizes) <==> forall e :: e in Encodings(stus) ==> |e| < TWO_32
  {
    var data := Encodings(stus);
    forall j | 0 <= j < |stus|
      ensures data[j] in data && (Unsigned(sizes[j]) == |data[j]| <==> |data[j]| < TWO_32)
    {
      CachedSizeIsCurrent(stus[j]);
    }
  }
}
