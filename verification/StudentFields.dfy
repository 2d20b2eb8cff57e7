// What a parse gives, read off the fields of the input: "Last One Wins" for a Student, every
// record in order for a Stus, and where the loops stop.

module StudentFields {
  import opened Octets
  import opened Options
  import opened Wire
  import opened StudentCodec

  // ---- a Student ----

  // The values that an input gives for field 1, a varint, in order...
  function Ids(fs: seq<Field>): seq<nat> {
    if fs == [] then [] else (if fs[0].VarintField? && fs[0].number == 1 then [fs[0].value] else []) + Ids(fs[1..])
  }

  // ... for field 2, a record...
  function Names(fs: seq<Field>): seq<Bytes> {
    if fs == [] then [] else (if fs[0].BytesField? && fs[0].number == 2 then [fs[0].data] else []) + Names(fs[1..])
  }

  // ... for field 3, a 64-bit number...
  function Scores(fs: seq<Field>): seq<nat> {
    if fs == [] then [] else (if fs[0].Fixed64Field? && fs[0].number == 3 then [fs[0].value] else []) + Scores(fs[1..])
  }

  predicate IsOther(f: Field) {
    !(f.VarintField? && f.number == 1) && !(f.BytesField? && f.number == 2) && !(f.Fixed64Field? && f.number == 3)
  }

  // ... and all other fields.
  function Others(fs: seq<Field>): seq<Field> {
    if fs == [] then [] else (if IsOther(fs[0]) then [fs[0]] else []) + Others(fs[1..])
  }

  function LastOr<T>(xs: seq<T>, x: T): T { if xs == [] then x else xs[|xs| - 1] }

  lemma LastOfMore<T>(x: T, xs: seq<T>, y: T, z: T)
    ensures LastOr([x] + xs, y) == LastOr(xs, x) && (xs != [] ==> LastOr([x] + xs, y) == LastOr(xs, z))
    ensures [] + xs == xs
  {
  }

  lemma {:induction false} IdIsLast(m: Student, fs: seq<Field>)
    ensures Ids(fs) == [] ==> MergeStudentFields(m, fs).id == m.id
    ensures Ids(fs) != [] ==> (LastOr(Ids(fs), 0) - MergeStudentFields(m, fs).id) % 0x1_0000_0000 == 0
    decreases |fs|
  {
    if fs != [] {
      IdIsLast(ApplyToStudent(m, fs[0]), fs[1..]);
      if fs[0].VarintField? {
        LastOfMore(fs[0].value, Ids(fs[1..]), 0, 0);
        LowBits(fs[0].value);
      }
    }
  }

  lemma LowBits(n: nat)
    ensures (n - ToInt32(n)) % 0x1_0000_0000 == 0
  {
  }

  lemma {:induction false} NameIsLast(m: Student, fs: seq<Field>)
    ensures MergeStudentFields(m, fs).name == LastOr(Names(fs), m.name)
    decreases |fs|
  {
    if fs != [] {
      NameIsLast(ApplyToStudent(m, fs[0]), fs[1..]);
      if fs[0].BytesField? {
        LastOfMore(fs[0].data, Names(fs[1..]), m.name, m.name);
      }
    }
  }

  lemma {:induction false} ScoreIsLast(m: Student, fs: seq<Field>)
    ensures MergeStudentFields(m, fs).score == LastOr(Scores(fs), m.score) % 0x1_0000_0000_0000_0000
    decreases |fs|
  {
    if fs != [] {
      var m1 := ApplyToStudent(m, fs[0]);
      ScoreIsLast(m1, fs[1..]);
      if fs[0].Fixed64Field? {
        LastOfMore(fs[0].value, Scores(fs[1..]), m.score, m1.score);
      }
    }
  }

  lemma {:induction false} OthersAreKept(m: Student, fs: seq<Field>)
    ensures MergeStudentFields(m, fs).unknown == m.unknown + Others(fs)
    decreases |fs|
  {
    if fs != [] {
      var f, rest := fs[0], fs[1..];
      OthersAreKept(ApplyToStudent(m, f), rest);
      assert m.unknown + [f] + Others(rest) == m.unknown + ([f] + Others(rest));
      assert [] + Others(rest) == Others(rest);
    }
  }

  // Parsing a Student into m: it succeeds exactly on a sequence of fields; id, name and score
  // are those of their last field, the default value on the wire included, or stay if there
  // is none; all other fields are kept, in order.
  lemma ParsedStudent(m: Student, b: Bytes)
    ensures ParseStudentInto(m, b).Some? <==> ParseFields(b).Some?
    ensures ParseFields(b).Some? ==>
      var fs, r := ParseFields(b).value, ParseStudentInto(m, b).value;
      && (if Ids(fs) == [] then r.id == m.id else (LastOr(Ids(fs), 0) - r.id) % 0x1_0000_0000 == 0)
      && r.name == LastOr(Names(fs), m.name)
      && r.score == LastOr(Scores(fs), m.score) % 0x1_0000_0000_0000_0000
      && r.unknown == m.unknown + Others(fs)
  {
    if ParseFields(b).Some? {
      var fs := ParseFields(b).value;
      IdIsLast(m, fs);
      NameIsLast(m, fs);
      ScoreIsLast(m, fs);
      OthersAreKept(m, fs);
    }
  }

  // ---- a Stus ----

  // The contents of the records of field 4, in order, and all other fields.
  function RecordData(fs: seq<Field>): seq<Bytes> {
    if fs == [] then [] else (if fs[0].BytesField? && fs[0].number == 4 then [fs[0].data] else []) + RecordData(fs[1..])
  }

  function NoRecords(fs: seq<Field>): seq<Field> {
    if fs == [] then [] else (if fs[0].BytesField? && fs[0].number == 4 then [] else [fs[0]]) + NoRecords(fs[1..])
  }

  predicate AllParse(data: seq<Bytes>, parse: Bytes -> Option<Student>) {
    forall k :: 0 <= k < |data| ==> parse(data[k]).Some?
  }

  function Parses(data: seq<Bytes>, parse: Bytes -> Option<Student>): seq<Student>
    requires AllParse(data, parse)
  {
    seq(|data|, k requires 0 <= k < |data| => parse(data[k]).value)
  }

  lemma AllParseFirst(d: Bytes, data: seq<Bytes>, parse: Bytes -> Option<Student>)
    ensures AllParse([d] + data, parse) <==> parse(d).Some? && AllParse(data, parse)
  {
    var all := [d] + data;
    if AllParse(all, parse) {
      assert parse(all[0]).Some?;
      forall k | 0 <= k < |data| ensures parse(data[k]).Some? {
        assert all[k + 1] == data[k];
      }
    }
    if parse(d).Some? && AllParse(data, parse) {
      forall k | 0 <= k < |all| ensures parse(all[k]).Some? {
        assert k > 0 ==> all[k] == data[k - 1];
      }
    }
  }

  lemma FirstRecordParses(d: Bytes, data: seq<Bytes>, parse: Bytes -> Option<Student>)
    ensures AllParse([d] + data, parse) <==> parse(d).Some? && AllParse(data, parse)
    ensures AllParse([d] + data, parse) ==> Parses([d] + data, parse) == [parse(d).value] + Parses(data, parse)
  {
    AllParseFirst(d, data, parse);
    var all := [d] + data;
    if AllParse(all, parse) {
      var x, y := Parses(all, parse), [parse(d).value] + Parses(data, parse);
      forall k | 0 <= k < |all| ensures x[k] == y[k] {
        assert k > 0 ==> all[k] == data[k - 1];
      }
      assert x == y;
    }
  }

  ghost predicate StusOf(m: Stus, fs: seq<Field>, parse: Bytes -> Option<Student>, r: Option<Stus>) {
    && (r.Some? <==> AllParse(RecordData(fs), parse))
    && (r.Some? ==> r.value.stus == m.stus + Parses(RecordData(fs), parse) && r.value.unknown == m.unknown + NoRecords(fs))
  }

  lemma StusOfRecord(m: Stus, f: Field, rest: seq<Field>, parse: Bytes -> Option<Student>, s: Student, r: Option<Stus>)
    requires f.BytesField? && f.number == 4 && parse(f.data) == Some(s)
    requires StusOf(m.(stus := m.stus + [s]), rest, parse, r)
    ensures StusOf(m, [f] + rest, parse, r)
  {
    var data := RecordData(rest);
    assert ([f] + rest)[1..] == rest;
    FirstRecordParses(f.data, data, parse);
    if AllParse(data, parse) {
      assert m.stus + [s] + Parses(data, parse) == m.stus + ([s] + Parses(data, parse));
    }
    assert [] + NoRecords(rest) == NoRecords(rest);
  }

  lemma StusOfOther(m: Stus, f: Field, rest: seq<Field>, parse: Bytes -> Option<Student>, r: Option<Stus>)
    requires !(f.BytesField? && f.number == 4)
    requires StusOf(m.(unknown := m.unknown + [f]), rest, parse, r)
    ensures StusOf(m, [f] + rest, parse, r)
  {
    assert ([f] + rest)[1..] == rest;
    assert m.unknown + [f] + NoRecords(rest) == m.unknown + ([f] + NoRecords(rest));
    assert [] + RecordData(rest) == RecordData(rest);
  }

  lemma {:induction false} StusFieldsParse(m: Stus, fs: seq<Field>, parse: Bytes -> Option<Student>)
    ensures StusOf(m, fs, parse, MergeStusFields(m, fs, parse))
    decreases |fs|
  {
    if fs == [] {
      assert m.stus + [] == m.stus && m.unknown + [] == m.unknown;
    } else {
      var f, rest := fs[0], fs[1..];
      assert fs == [f] + rest;
      if !(f.BytesField? && f.number == 4) {
        StusFieldsParse(m.(unknown := m.unknown + [f]), rest, parse);
        StusOfOther(m, f, rest, parse, MergeStusFields(m, fs, parse));
      } else if parse(f.data).Some? {
        var s := parse(f.data).value;
        StusFieldsParse(m.(stus := m.stus + [s]), rest, parse);
        StusOfRecord(m, f, rest, parse, s, MergeStusFields(m, fs, parse));
      } else {
        FirstRecordParses(f.data, RecordData(rest), parse);
      }
    }
  }

  // Parsing a Stus into m: it succeeds exactly if the input is a sequence of fields and every
  // record of field 4 is a Student; then the students are those of m and one for each record,
  // in order, and all other fields are kept, in order.
  lemma ParsedStus(m: Stus, b: Bytes)
    ensures ParseStusInto(m, b).Some? <==>
      ParseFields(b).Some? && AllParse(RecordData(ParseFields(b).value), ParseStudent)
    ensures ParseStusInto(m, b).Some? ==>
      var fs, r := ParseFields(b).value, ParseStusInto(m, b).value;
      && r.stus == m.stus + Parses(RecordData(fs), ParseStudent)
      && r.unknown == m.unknown + NoRecords(fs)
  {
    if ParseFields(b).Some? {
      StusFieldsParse(m, ParseFields(b).value, ParseStudent);
    }
  }

  // A record that ends inside its first field makes the message fail.
  lemma CutRecordFails()
    ensures ParseStusInto(EmptyStus, [34, 1, 8]).None?
  {
    var fs := [BytesField(4, [8])];
    OneRecord();
    CutField();
    ParsedStus(EmptyStus, [34, 1, 8]);
    assert fs[1..] == [] && RecordData(fs) == [[8]];
    assert RecordData(fs)[0] == [8];
  }

  lemma OneRecord()
    ensures ParseFields([34, 1, 8]) == Some([BytesField(4, [8])])
  {
    var fs := [BytesField(4, [8])];
    assert EncodeVarint(34) == [34] && EncodeVarint(1) == [1];
    assert fs[1..] == [] && EncodeFields(fs) == [34, 1, 8];
    FieldsRoundTrip(fs);
  }

  lemma CutField()
    ensures ParseStudent([8]).None?
  {
    assert ReadVarint([8]) == Got(8, []);
    assert ReadVarint([]).Fail?;
    assert ReadField([8]).Fail?;
  }

  // ---- where the loop stops ----

  lemma {:induction false} StudentLoopGoesOn(m: Student, a: Bytes, b: Bytes)
    requires ParseFields(a).Some?
    ensures StudentLoop(m, a + b) == StudentLoop(MergeStudentFields(m, ParseFields(a).value), b)
    decreases |a|
  {
    if a == [] {
      assert a + b == b;
    } else {
      var f, rest := ReadField(a).value, ReadField(a).rest;
      FieldExtends(a, b);
      ParseStep(a, f, rest);
      var fs := ParseFields(rest).value;
      assert ([f] + fs)[1..] == fs;
      StudentLoopGoesOn(ApplyToStudent(m, f), rest, b);
    }
  }

  // After any fields: the loop succeeds where no further tag can be read, at the end of the
  // input or not, and fails at a tag whose field cannot be read.
  lemma StudentLoopStops(m: Student, a: Bytes, b: Bytes)
    requires ParseFields(a).Some? && ReadField(b).Fail?
    ensures StudentLoop(m, a + b) ==
      if ReadTag(b).Fail? then Stopped(MergeStudentFields(m, ParseFields(a).value), b == []) else Failed
  {
    StudentLoopGoesOn(m, a, b);
  }

  lemma {:induction false} StusLoopGoesOn(m: Stus, a: Bytes, b: Bytes, parse: Bytes -> Option<Student>)
    requires ParseStusWith(m, a, parse).Some?
    ensures StusLoop(m, a + b, parse) == StusLoop(ParseStusWith(m, a, parse).value, b, parse)
    decreases |a|
  {
    if a == [] {
      assert a + b == b;
    } else {
      var f, rest := ReadField(a).value, ReadField(a).rest;
      FieldExtends(a, b);
      ParseStep(a, f, rest);
      var fs := ParseFields(rest).value;
      assert ([f] + fs)[1..] == fs;
      StusLoopGoesOn(ApplyToStus(m, f, parse).value, rest, b, parse);
    }
  }

  lemma StusLoopStops(m: Stus, a: Bytes, b: Bytes, parse: Bytes -> Option<Student>)
    requires ParseStusWith(m, a, parse).Some? && ReadField(b).Fail?
    ensures StusLoop(m, a + b, parse) ==
      if ReadTag(b).Fail? then Stopped(ParseStusWith(m, a, parse).value, b == []) else Failed
  {
    StusLoopGoesOn(m, a, b, parse);
  }
}
