// The shared table of secret keys of SecKeyShm.cpp: a fixed number of slots, searched from the
// front by client and server id, refines a map of bounded size.

module KeyTable {
  import opened Octets
  import opened Options

  const ID_SIZE: nat := 12
  const SECKEY_SIZE: nat := 128

  // NodeSHMInfo, 160 bytes without padding.
  datatype Node = Node(status: int, seckeyID: int, clientID: Bytes, serverID: Bytes, seckey: Bytes)

  function Zeros(n: nat): Bytes { seq(n, _ => NUL) }

  const BLANK := Node(0, 0, Zeros(ID_SIZE), Zeros(ID_SIZE), Zeros(SECKEY_SIZE))

  datatype Key = Key(client: Bytes, server: Bytes)

  function KeyOf(n: Node): Key { Key(CString(n.clientID), CString(n.serverID)) }

  const NO_KEY := Key([], [])

  lemma BlankHasNoKey()
    ensures KeyOf(BLANK) == NO_KEY
  {
    assert Zeros(ID_SIZE)[0] == NUL;
  }

  // ---- the table as the code searches it ----

  function Find(s: seq<Node>, k: Key): (i: nat)
    ensures i <= |s|
    ensures i < |s| ==> KeyOf(s[i]) == k
    ensures forall j :: 0 <= j < i ==> KeyOf(s[j]) != k
  {
    if s == [] || KeyOf(s[0]) == k then 0 else
      var i := Find(s[1..], k) + 1;
      assert forall j :: 1 <= j < i ==> s[j] == s[1..][j - 1];
      i
  }

  function FindBlank(s: seq<Node>): (i: nat)
    ensures i <= |s|
    ensures i < |s| ==> s[i] == BLANK
    ensures BLANK !in s[..i]
  {
    if s == [] || s[0] == BLANK then 0 else
      var i := FindBlank(s[1..]) + 1;
      assert s[..i] == [s[0]] + s[1..][..i - 1];
      i
  }

  function Lookup(s: seq<Node>, k: Key): Node {
    if Find(s, k) < |s| then s[Find(s, k)] else BLANK
  }

  function Put(s: seq<Node>, n: Node): Option<seq<Node>> {
    if Find(s, KeyOf(n)) < |s| then Some(s[Find(s, KeyOf(n)) := n])
    else if FindBlank(s) < |s| then Some(s[FindBlank(s) := n])
    else None
  }

  // ---- the map ----

  function Keys(s: seq<Node>): set<Key> { set i | 0 <= i < |s| && s[i] != BLANK :: KeyOf(s[i]) }

  function AsMap(s: seq<Node>): map<Key, Node> { map k | k in Keys(s) :: Lookup(s, k) }

  // No key in two slots; a node with two empty ids, which looks like a blank slot to the
  // search, lies before every blank slot.
  predicate Inv(s: seq<Node>) {
    && (forall i, j :: 0 <= i < j < |s| && s[i] != BLANK && s[j] != BLANK ==> KeyOf(s[i]) != KeyOf(s[j]))
    && (forall i, j :: 0 <= i < j < |s| && s[i] == BLANK && s[j] != BLANK ==> KeyOf(s[j]) != NO_KEY)
  }

  lemma Found(s: seq<Node>, i: nat)
    requires Inv(s) && i < |s| && s[i] != BLANK
    ensures Find(s, KeyOf(s[i])) == i
  {
    BlankHasNoKey();
    var f := Find(s, KeyOf(s[i]));
    assert f <= i;
    if f < i {
      assert false;
    }
  }

  lemma ReadRefines(s: seq<Node>, k: Key)
    requires Inv(s)
    ensures Lookup(s, k) == if k in AsMap(s) then AsMap(s)[k] else BLANK
    ensures k in AsMap(s) <==> Lookup(s, k) != BLANK
  {
    if k in Keys(s) {
      var i :| 0 <= i < |s| && s[i] != BLANK && KeyOf(s[i]) == k;
      Found(s, i);
    }
  }

  function Blanks(s: seq<Node>): nat { if s == [] then 0 else (if s[0] == BLANK then 1 else 0) + Blanks(s[1..]) }

  lemma KeysOfCons(s: seq<Node>)
    requires s != [] && Inv(s)
    ensures Keys(s) == Keys(s[1..]) + (if s[0] == BLANK then {} else {KeyOf(s[0])})
    ensures s[0] != BLANK ==> KeyOf(s[0]) !in Keys(s[1..])
  {
    var rest := s[1..];
    forall k | k in Keys(s)
      ensures k in Keys(rest) || (s[0] != BLANK && k == KeyOf(s[0]))
    {
      var i :| 0 <= i < |s| && s[i] != BLANK && KeyOf(s[i]) == k;
      if i > 0 {
        assert rest[i - 1] == s[i];
      }
    }
    forall k | k in Keys(rest)
      ensures k in Keys(s) && (s[0] != BLANK ==> k != KeyOf(s[0]))
    {
      var i :| 0 <= i < |rest| && rest[i] != BLANK && KeyOf(rest[i]) == k;
      assert s[i + 1] == rest[i];
    }
  }

  lemma {:induction false} KeysAreCounted(s: seq<Node>)
    requires Inv(s)
    ensures |Keys(s)| + Blanks(s) == |s|
  {
    if s == [] {
      assert Keys(s) == {};
    } else {
      KeysAreCounted(s[1..]);
      KeysOfCons(s);
    }
  }

  lemma {:induction false} BlanksCounted(s: seq<Node>)
    ensures Blanks(s) > 0 <==> BLANK in s
  {
    if s != [] {
      assert s == [s[0]] + s[1..];
      BlanksCounted(s[1..]);
    }
  }

  // Every slot is blank or holds one key of its own.
  lemma SlotsAreCounted(s: seq<Node>)
    requires Inv(s)
    ensures |AsMap(s)| + Blanks(s) == |s|
    ensures |AsMap(s)| == |s| <==> BLANK !in s
  {
    assert AsMap(s).Keys == Keys(s);
    KeysAreCounted(s);
    BlanksCounted(s);
  }

  // A write to a map of at most `room` keys; writing the blank node removes its key.
  function PutInMap(m: map<Key, Node>, room: nat, n: Node): Option<map<Key, Node>> {
    if KeyOf(n) !in m && |m| >= room then None
    else if n == BLANK then Some(m - {KeyOf(n)})
    else Some(m[KeyOf(n) := n])
  }

  lemma WriteKeepsInv(s: seq<Node>, n: Node)
    requires Inv(s) && Put(s, n).Some?
    ensures Inv(Put(s, n).value) && |Put(s, n).value| == |s|
  {
    BlankHasNoKey();
    var t := Put(s, n).value;
    var f, b := Find(s, KeyOf(n)), FindBlank(s);
    assert forall j :: 0 <= j < b ==> s[j] == s[..b][j];
  }

  lemma WriteChangesOneKey(s: seq<Node>, n: Node, k: Key)
    requires Inv(s) && Put(s, n).Some?
    ensures Lookup(Put(s, n).value, k) == if k == KeyOf(n) then n else Lookup(s, k)
  {
    BlankHasNoKey();
    WriteKeepsInv(s, n);
    var t := Put(s, n).value;
    var p := if Find(s, KeyOf(n)) < |s| then Find(s, KeyOf(n)) else FindBlank(s);
    assert t == s[p := n];
    if k == KeyOf(n) {
      if n != BLANK {
        Found(t, p);
      }
    } else if k in Keys(s) {
      var i :| 0 <= i < |s| && s[i] != BLANK && KeyOf(s[i]) == k;
      Found(s, i);
      assert t[i] == s[i];
      Found(t, i);
    } else {
      ReadRefines(s, k);
    }
  }

  lemma WriteFits(s: seq<Node>, n: Node)
    requires Inv(s)
    ensures Put(s, n).Some? <==> KeyOf(n) in AsMap(s) || |AsMap(s)| < |s|
  {
    BlankHasNoKey();
    SlotsAreCounted(s);
    ReadRefines(s, KeyOf(n));
    var b := FindBlank(s);
    assert b == |s| ==> s[..b] == s;
    assert b < |s| ==> s[b] in s;
  }

  lemma WriteUpdatesKey(s: seq<Node>, n: Node, k: Key)
    requires Inv(s) && Put(s, n).Some?
    ensures var m, u := AsMap(s), AsMap(Put(s, n).value);
      if k == KeyOf(n) then (k in u <==> n != BLANK) && (k in u ==> u[k] == n)
      else (k in u <==> k in m) && (k in u ==> u[k] == m[k])
  {
    WriteKeepsInv(s, n);
    WriteChangesOneKey(s, n, k);
    ReadRefines(s, k);
    ReadRefines(Put(s, n).value, k);
  }

  lemma UpdatedMap<K, V>(m: map<K, V>, u: map<K, V>, key: K, v: V, keep: bool)
    requires forall k :: k in u <==> if k == key then keep else k in m
    requires forall k :: k in u ==> u[k] == if k == key then v else m[k]
    ensures u == if keep then m[key := v] else m - {key}
  {
  }

  lemma WriteUpdatesMap(s: seq<Node>, n: Node)
    requires Inv(s) && Put(s, n).Some?
    ensures var m := AsMap(s);
      AsMap(Put(s, n).value) == if n != BLANK then m[KeyOf(n) := n] else m - {KeyOf(n)}
  {
    forall k
      ensures var m, u := AsMap(s), AsMap(Put(s, n).value);
        && (k in u <==> if k == KeyOf(n) then n != BLANK else k in m)
        && (k in u ==> u[k] == if k == KeyOf(n) then n else m[k])
    {
      WriteUpdatesKey(s, n, k);
    }
    UpdatedMap(AsMap(s), AsMap(Put(s, n).value), KeyOf(n), n, n != BLANK);
  }

  // ShmWrite is the write to the map, for every key and every node.
  lemma WriteRefines(s: seq<Node>, n: Node)
    requires Inv(s)
    ensures Put(s, n).Some? <==> PutInMap(AsMap(s), |s|, n).Some?
    ensures Put(s, n).Some? ==> AsMap(Put(s, n).value) == PutInMap(AsMap(s), |s|, n).value
  {
    WriteFits(s, n);
    if Put(s, n).Some? {
      WriteUpdatesMap(s, n);
    }
  }

  // ---- any number of writes, failed ones included ----

  function Write(s: seq<Node>, n: Node): seq<Node> { if Put(s, n).Some? then Put(s, n).value else s }

  function After(s: seq<Node>, ns: seq<Node>): seq<Node>
    decreases |ns|
  {
    if ns == [] then s else Write(After(s, ns[..|ns| - 1]), ns[|ns| - 1])
  }

  function MapAfter(m: map<Key, Node>, room: nat, ns: seq<Node>): map<Key, Node>
    decreases |ns|
  {
    if ns == [] then m else
      var before := MapAfter(m, room, ns[..|ns| - 1]);
      var w := PutInMap(before, room, ns[|ns| - 1]);
      if w.Some? then w.value else before
  }

  // Do the ids of a node match, as C strings?
  predicate HasIds(n: Node, client: Bytes, server: Bytes) {
    CString(n.clientID) == CString(client) && CString(n.serverID) == CString(server)
  }

  // What a read of two ids returns.
  function Read(s: seq<Node>, client: Bytes, server: Bytes): Node { Lookup(s, Key(CString(client), CString(server))) }

  // It is the first node that has these ids, or the blank node.
  lemma ReadIsFirstMatch(s: seq<Node>, client: Bytes, server: Bytes)
    ensures (forall i :: 0 <= i < |s| ==> !HasIds(s[i], client, server)) ==> Read(s, client, server) == BLANK
    ensures forall i :: 0 <= i < |s| && HasIds(s[i], client, server) && (forall j :: 0 <= j < i ==> !HasIds(s[j], client, server))
              ==> Read(s, client, server) == s[i]
  {
    var k := Key(CString(client), CString(server));
    assert forall n :: KeyOf(n) == k <==> HasIds(n, client, server);
    var f := Find(s, k);
    forall i | 0 <= i < |s| && HasIds(s[i], client, server) && (forall j :: 0 <= j < i ==> !HasIds(s[j], client, server))
      ensures f == i
    {
      assert KeyOf(s[i]) == k && f <= i;
      assert HasIds(s[f], client, server);
    }
  }

  // A write fails exactly if no slot has its ids and none is blank.
  lemma WriteFails(s: seq<Node>, n: Node)
    ensures Put(s, n).None? <==> BLANK !in s && forall i :: 0 <= i < |s| ==> !HasIds(s[i], n.clientID, n.serverID)
  {
    assert forall m :: KeyOf(m) == KeyOf(n) <==> HasIds(m, n.clientID, n.serverID);
    var f, b := Find(s, KeyOf(n)), FindBlank(s);
    assert f < |s| ==> HasIds(s[f], n.clientID, n.serverID);
    assert b == |s| ==> s[..b] == s;
    assert b < |s| ==> s[b] in s;
  }

  // After a write that succeeded, its two ids read as the node written and all other pairs of
  // ids as before.
  lemma WriteThenRead(s: seq<Node>, n: Node, client: Bytes, server: Bytes)
    requires Inv(s) && Put(s, n).Some?
    ensures Read(Put(s, n).value, client, server) == if HasIds(n, client, server) then n else Read(s, client, server)
  {
    WriteChangesOneKey(s, n, Key(CString(client), CString(server)));
  }

  // The node of the last write that succeeded among those with the two ids.
  function LastWritten(s: seq<Node>, ns: seq<Node>, client: Bytes, server: Bytes): Node
    decreases |ns|
  {
    if ns == [] then Read(s, client, server) else
      var before, n := ns[..|ns| - 1], ns[|ns| - 1];
      if HasIds(n, client, server) && Put(After(s, before), n).Some? then n else LastWritten(s, before, client, server)
  }

  lemma {:induction false} RunRefines(s: seq<Node>, ns: seq<Node>)
    requires Inv(s)
    ensures Inv(After(s, ns)) && |After(s, ns)| == |s|
    ensures AsMap(After(s, ns)) == MapAfter(AsMap(s), |s|, ns)
    decreases |ns|
  {
    if ns != [] {
      var before, n := ns[..|ns| - 1], ns[|ns| - 1];
      RunRefines(s, before);
      WriteRefines(After(s, before), n);
      if Put(After(s, before), n).Some? {
        WriteKeepsInv(After(s, before), n);
      }
    }
  }

  lemma {:induction false} ReadsLastWrite(s: seq<Node>, ns: seq<Node>, client: Bytes, server: Bytes)
    requires Inv(s)
    ensures Read(After(s, ns), client, server) == LastWritten(s, ns, client, server)
    decreases |ns|
  {
    if ns != [] {
      var before, n := ns[..|ns| - 1], ns[|ns| - 1];
      RunRefines(s, before);
      ReadsLastWrite(s, before, client, server);
      if Put(After(s, before), n).Some? {
        WriteThenRead(After(s, before), n, client, server);
      }
    }
  }

  lemma ZeroedTable(n: nat, k: Key)
    ensures var s := seq(n, _ => BLANK); Inv(s) && AsMap(s) == map[] && Lookup(s, k) == BLANK
  {
    ReadRefines(seq(n, _ => BLANK), k);
  }

  // ---- the class ----

  predicate Terminated(n: Node) { NUL in n.clientID && NUL in n.serverID }

  // SecKeyShm, attached to its segment.
  class SecKeyShm {
    const slots: array<Node>

    // strcmp must meet a terminator in every id.
    ghost predicate Valid()
      reads slots
    {
      Inv(slots[..]) && forall i :: 0 <= i < slots.Length ==> Terminated(slots[i])
    }

    constructor (maxNode: nat)
      ensures slots.Length == maxNode && fresh(slots)
    {
      slots := new Node[maxNode](_ => BLANK);
    }

    method InitShm()
      modifies slots
      ensures Valid() && AsMap(slots[..]) == map[]
      ensures forall i :: 0 <= i < slots.Length ==>
                slots[i] == Node(0, 0, seq(12, _ => 0), seq(12, _ => 0), seq(128, _ => 0))
    {
      for i := 0 to slots.Length
        invariant forall j :: 0 <= j < i ==> slots[j] == BLANK
      {
        slots[i] := BLANK;
      }
      ZeroedTable(slots.Length, NO_KEY);
      assert slots[..] == seq(slots.Length, _ => BLANK);
      assert Zeros(ID_SIZE)[0] == NUL;
    }

    // 0, or -1 when the table is full of other keys.
    method ShmWrite(info: Node) returns (ret: int)
      requires Valid() && Terminated(info)
      modifies slots
      ensures Valid()
      ensures ret == (if Put(old(slots[..]), info).Some? then 0 else -1) && slots[..] == Write(old(slots[..]), info)
    {
      ghost var s := slots[..];
      var i := 0;
      while i < slots.Length
        invariant 0 <= i <= slots.Length && slots[..] == s
        invariant forall j :: 0 <= j < i ==> KeyOf(s[j]) != KeyOf(info)
      {
        if CString(slots[i].clientID) == CString(info.clientID) && CString(slots[i].serverID) == CString(info.serverID) {
          assert Find(s, KeyOf(info)) == i;
          WriteKeepsInv(s, info);
          slots[i] := info;
          return 0;
        }
        i := i + 1;
      }
      i := 0;
      ret := -1;
      while i < slots.Length
        invariant 0 <= i <= slots.Length && slots[..] == s
        invariant BLANK !in s[..i]
      {
        if slots[i] == BLANK {
          FirstBlank(s, i);
          WriteKeepsInv(s, info);
          slots[i] := info;
          return 0;
        }
        i := i + 1;
      }
    }

    method ShmRead(clientId: Bytes, serverId: Bytes) returns (info: Node)
      requires Valid()
      ensures info == Read(slots[..], clientId, serverId)
    {
      info := BLANK;
      ghost var k := Key(CString(clientId), CString(serverId));
      var i := 0;
      while i < slots.Length
        invariant 0 <= i <= slots.Length && info == BLANK
        invariant forall j :: 0 <= j < i ==> KeyOf(slots[j]) != k
      {
        if CString(slots[i].clientID) == CString(clientId) && CString(slots[i].serverID) == CString(serverId) {
          assert Find(slots[..], k) == i;
          info := slots[i];
          break;
        }
        i := i + 1;
      }
    }
  }

  lemma FirstBlank(s: seq<Node>, i: nat)
    requires i < |s| && s[i] == BLANK && BLANK !in s[..i]
    ensures FindBlank(s) == i
  {
    var b := FindBlank(s);
    assert forall j :: 0 <= j < i ==> s[j] in s[..i];
    assert forall j :: 0 <= j < b ==> s[j] in s[..b];
  }
}
