/** The AMF0 and AMF3 readers (`amf0.cpp`, `amf3.cpp`) over a heap: every value read
    gets an address when it is created and is logged when it is complete. Reference
    tables carry a completion flag per entry, and one depth, node and string budget
    is shared by both formats. */
module AmfReader {
  import opened Bytes
  import opened OrderedKeys
  import opened U29
  import opened AmfValue

  const MAX_DEPTH: nat := 32
  const MAX_NODES: nat := 0x1_0000
  const MAX_STRING_BYTES: nat := 0x200_0000

  datatype Node = LeafNode(leaf: Leaf) | CompositeNode(kind: Kind, keys: seq<Key>, children: seq<nat>)

  /** An entry of a reference table. */
  datatype Ref = Ref(addr: nat, complete: bool)

  datatype Traits = Traits(dynamic: bool, names: seq<Text>)

  /** An AMF3 instance's three tables. */
  datatype Tables = Tables(strings: seq<Text>, objects: seq<Ref>, traits: seq<Traits>)

  const NO_TABLES := Tables([], [], [])

  /** `next` counts allocations; `built` holds the complete values and `order` lists
      them as they were completed; `deepest` is the greatest depth a value was
      created at. */
  datatype State = State(
    next: nat,
    built: map<nat, Node>,
    order: seq<nat>,
    refs: seq<Ref>,
    tables: Tables,
    depth: nat,
    nodes: nat,
    stringBytes: nat,
    deepest: nat)

  const FRESH := State(0, map[], [], [], NO_TABLES, 0, 0, 0, 0)

  /** A read throws either for want of bytes or on a value it refuses. */
  datatype Error = Eof | Corrupt

  datatype Out<+T> = Ok(value: T, rest: seq<byte>, s: State) | Fail(s: State, error: Error)

  // ---- allocation and tables ---------------------------------------------------------------

  function Allocated(s: State): State {
    s.(next := s.next + 1, deepest := if s.depth > s.deepest then s.depth else s.deepest)
  }

  function Finished(s: State, addr: nat, node: Node): State {
    s.(built := s.built[addr := node], order := s.order + [addr])
  }

  /** A value complete at once. */
  function Leafed(l: Leaf, rest: seq<byte>, s: State): Out<nat> {
    Ok(s.next, rest, Finished(Allocated(s), s.next, LeafNode(l)))
  }

  /** `register_ref` and `register_object` of an unfinished value. */
  function Registered0(s: State): State {
    Allocated(s).(refs := s.refs + [Ref(s.next, false)])
  }

  function Registered3(s: State): State {
    Allocated(s).(tables := s.tables.(objects := s.tables.objects + [Ref(s.next, false)]))
  }

  function Completed0(s: State, index: nat, node: Node): State
    requires index < |s.refs|
  {
    Finished(s, s.refs[index].addr, node).(refs := s.refs[index := Ref(s.refs[index].addr, true)])
  }

  function Completed3(s: State, index: nat, node: Node): State
    requires index < |s.tables.objects|
  {
    var o := s.tables.objects;
    Finished(s, o[index].addr, node).(tables := s.tables.(objects := o[index := Ref(o[index].addr, true)]))
  }

  /** A registered value that is complete at once: XML, dates, byte arrays, numbers. */
  function LeafedAndRegistered(l: Leaf, rest: seq<byte>, s: State): Out<nat> {
    var index := |s.tables.objects|;
    Ok(s.next, rest, Completed3(Registered3(s), index, LeafNode(l)))
  }

  // ---- AMF0 pieces --------------------------------------------------------------------------

  function ReadShort(b: seq<byte>): (r: Read<Text>)
    ensures r.Got? ==> |r.rest| + 2 <= |b|
  {
    if |b| < 2 then Short
    else
      var n := Value2(b[0], b[1]);
      if |b| - 2 < n then Short else Got(b[2..2 + n], b[2 + n..])
  }

  function ReadLong(b: seq<byte>): (r: Read<Text>)
    ensures r.Got? ==> |r.rest| + 4 <= |b|
  {
    if |b| < 4 then Short
    else
      var n := ReadU32Be(b).value;
      if |b| - 4 < n then Short else Got(b[4..4 + n], b[4 + n..])
  }

  predicate AtEnd(b: seq<byte>) {
    |b| >= 3 && b[0] == 0 && b[1] == 0 && b[2] == 9
  }

  datatype Members = Members(keys: seq<Key>, addrs: seq<nat>)

  const NO_MEMBERS := Members([], [])

  /** Appends, unless names are unique and this one is there. */
  function AddEntry(m: Members, key: Key, addr: nat, unique: bool): Members {
    if unique && key in m.keys then m else Members(m.keys + [key], m.addrs + [addr])
  }

  // ---- AMF3 pieces ---------------------------------------------------------------------------

  /** `charge_string_bytes` */
  predicate Affordable(s: State, n: nat) {
    n <= MAX_STRING_BYTES - s.stringBytes
  }

  /** `read_string` of AMF3. */
  function ReadText3(b: seq<byte>, s: State): (r: Out<Text>)
    ensures r.s.depth == s.depth && (r.Ok? ==> |r.rest| < |b|)
  {
    var h := ReadU29(b);
    if h.Short? then Fail(s, Eof)
    else
      ReadU29Bounded(b);
      var n := h.value / 2;
      if h.value % 2 == 0 then
        if n >= |s.tables.strings| || !Affordable(s, |s.tables.strings[n]|) then Fail(s, Corrupt)
        else Ok(s.tables.strings[n], h.rest, s.(stringBytes := s.stringBytes + |s.tables.strings[n]|))
      else if |h.rest| < n then Fail(s, Eof)
      else if !Affordable(s, n) then Fail(s, Corrupt)
      else
        var text := h.rest[..n];
        var s' := s.(stringBytes := s.stringBytes + n,
                     tables := if text == [] then s.tables else s.tables.(strings := s.tables.strings + [text]));
        Ok(text, h.rest[n..], s')
  }

  /** `object_ref` */
  function ObjectRef(index: nat, rest: seq<byte>, s: State): Out<nat> {
    if index >= |s.tables.objects| || !s.tables.objects[index].complete then Fail(s, Corrupt)
    else Ok(s.tables.objects[index].addr, rest, s)
  }

  /** `m[key] = addr` of an ordered map. */
  function Assign(m: Members, key: Key, addr: nat): (r: Members)
    requires |m.addrs| == |m.keys|
    ensures |r.addrs| == |r.keys|
  {
    var i := Place(m.keys, key);
    if i < |m.keys| && m.keys[i] == key then Members(m.keys, m.addrs[i := addr])
    else Members(m.keys[..i] + [key] + m.keys[i..], m.addrs[..i] + [addr] + m.addrs[i..])
  }

  /** Where a key stands or belongs: the first position not before it. */
  function Place(keys: seq<Key>, key: Key): (i: nat)
    ensures i <= |keys|
  {
    if keys == [] || !Before(keys[0], key) then 0 else 1 + Place(keys[1..], key)
  }

  /** Big-endian words of `size` bytes. */
  function Words(b: seq<byte>, count: nat, size: nat): seq<Text>
    requires count * size <= |b|
    decreases count
  {
    if count == 0 then [] else [b[..size]] + Words(b[size..], count - 1, size)
  }

  /** The sealed member names of a traits declaration; an empty one is refused. */
  function ReadNames(count: nat, b: seq<byte>, s: State, names: seq<Text>): (r: Out<seq<Text>>)
    ensures r.s.depth == s.depth && (r.Ok? ==> |r.rest| <= |b|)
    decreases count
  {
    if count == 0 then Ok(names, b, s)
    else
      var r := ReadText3(b, s);
      if r.Fail? then Fail(r.s, r.error)
      else if r.value == [] then Fail(r.s, Corrupt)
      else ReadNames(count - 1, r.rest, r.s, names + [r.value])
  }

  /** The traits an object header names or declares; `info` is the header without
      its low bit. */
  function ReadTraits(info: nat, b: seq<byte>, s: State): (r: Out<Traits>)
    ensures r.s.depth == s.depth && (r.Ok? ==> |r.rest| <= |b|)
  {
    if info % 2 == 0 then
      if info / 2 >= |s.tables.traits| then Fail(s, Corrupt) else Ok(s.tables.traits[info / 2], b, s)
    else if info / 2 % 2 == 1 then Fail(s, Corrupt)
    else if info / 8 > |b| then Fail(s, Corrupt)
    else
      var name := ReadText3(b, s);
      if name.Fail? then Fail(name.s, name.error)
      else
        var names := ReadNames(info / 8, name.rest, name.s, []);
        if names.Fail? then Fail(names.s, names.error)
        else
          var t := Traits(info / 4 % 2 == 1, names.value);
          Ok(t, names.rest, names.s.(tables := names.s.tables.(traits := names.s.tables.traits + [t])))
  }

  // ---- AMF0 -------------------------------------------------------------------------------------

  /** One level deeper, and back again whether or not the read succeeds. */
  function Deeper(s: State): State {
    s.(depth := s.depth + 1)
  }

  function Back<T>(r: Out<T>): Out<T>
    requires r.s.depth > 0
  {
    if r.Fail? then Fail(r.s.(depth := r.s.depth - 1), r.error) else Ok(r.value, r.rest, r.s.(depth := r.s.depth - 1))
  }

  function Charged(s: State): State {
    s.(nodes := s.nodes + 1)
  }

  /** `amf0::read` of a nested value; `ReadTop` starts a fresh one. */
  function Read0(b: seq<byte>, s: State): (r: Out<nat>)
    ensures r.s.depth == s.depth && (r.Ok? ==> |r.rest| < |b|)
    decreases |b|, 0
  {
    var d := Deeper(s);
    if d.depth > MAX_DEPTH then Back<nat>(Fail(d, Corrupt))
    else if d.nodes + 1 > MAX_NODES then Back<nat>(Fail(Charged(d), Corrupt))
    else if |b| < 1 then Back<nat>(Fail(Charged(d), Eof))
    else Back(Typed0(b[0], b[1..], Charged(d)))
  }

  function Typed0(marker: byte, b: seq<byte>, s: State): (r: Out<nat>)
    ensures r.s.depth == s.depth && (r.Ok? ==> |r.rest| <= |b|)
    decreases |b|, 4
  {
    match marker
    case 3 => ReadObject0(b, s)
    case 7 => ReadReference0(b, s)
    case 8 => ReadEcmaArray0(b, s)
    case 10 => ReadStrictArray0(b, s)
    case 16 => ReadTypedObject0(b, s)
    case 17 => ReadContainer0(b, s)
    case _ => ReadLeaf0(marker, b, s)
  }

  /** The readers that report an underrun by returning false leave an empty value
      and what they have consumed; the others throw. */
  function ReadLeaf0(marker: byte, b: seq<byte>, s: State): (r: Out<nat>)
    ensures r.s.depth == s.depth && (r.Ok? ==> |r.rest| <= |b|)
  {
    match marker
    case 0 => if |b| < 8 then Fail(s, Eof) else Leafed(Number(b[..8]), b[8..], s)
    case 1 => if |b| < 1 then Fail(s, Eof) else Leafed(Boolean(b[0] == 1), b[1..], s)
    case 2 =>
      var t := ReadShort(b);
      if t.Short? then Fail(s, Eof) else Leafed(String(t.value), t.rest, s)
    case 5 => Leafed(Null, b, s)
    case 6 => Leafed(Undefined, b, s)
    case 11 => if |b| < 10 then Fail(s, Eof) else Leafed(Date(b[..8]), b[10..], s)
    case 12 =>
      if |b| < 4 then Leafed(LongString([]), b, s)
      else
        var t := ReadLong(b);
        if t.Short? then Leafed(LongString([]), b[4..], s) else Leafed(LongString(t.value), t.rest, s)
    case 13 => Leafed(Unsupported, b, s)
    case 15 =>
      var t := ReadLong(b);
      if t.Short? then Fail(s, Eof) else Leafed(XmlDocument(t.value), t.rest, s)
    case _ => Fail(s, Corrupt)
  }

  function ReadReference0(b: seq<byte>, s: State): (r: Out<nat>)
    ensures r.s.depth == s.depth && (r.Ok? ==> |r.rest| <= |b|)
  {
    if |b| < 2 then Fail(s, Eof)
    else
      var index := Value2(b[0], b[1]);
      if index >= |s.refs| || !s.refs[index].complete then Fail(s, Corrupt) else Ok(s.refs[index].addr, b[2..], s)
  }

  /** Marks the value registered at `index` complete with what was read. */
  function Complete0(index: nat, kind: Kind, r: Out<Members>): (q: Out<nat>)
    ensures q.s.depth == r.s.depth && (q.Ok? ==> r.Ok? && q.rest == r.rest)
  {
    if r.Fail? then Fail(r.s, r.error)
    else if index >= |r.s.refs| then Fail(r.s, Corrupt)
    else
      Ok(r.s.refs[index].addr, r.rest,
         Completed0(r.s, index, CompositeNode(kind, r.value.keys, r.value.addrs)))
  }

  function ReadObject0(b: seq<byte>, s: State): (r: Out<nat>)
    ensures r.s.depth == s.depth && (r.Ok? ==> |r.rest| <= |b|)
    decreases |b|, 3
  {
    var s' := Registered0(s);
    Complete0(|s.refs|, Object0, if |b| < 3 then Ok(NO_MEMBERS, b, s') else Entries0(b, s', NO_MEMBERS, true))
  }

  function ReadEcmaArray0(b: seq<byte>, s: State): (r: Out<nat>)
    ensures r.s.depth == s.depth && (r.Ok? ==> |r.rest| <= |b|)
    decreases |b|, 3
  {
    var s' := Registered0(s);
    Complete0(|s.refs|, EcmaArray0, if |b| < 7 then Ok(NO_MEMBERS, b, s') else Entries0(b[4..], s', NO_MEMBERS, false))
  }

  function ReadStrictArray0(b: seq<byte>, s: State): (r: Out<nat>)
    ensures r.s.depth == s.depth && (r.Ok? ==> |r.rest| <= |b|)
    decreases |b|, 3
  {
    var s' := Registered0(s);
    Complete0(|s.refs|, StrictArray0,
              if |b| < 7 then Ok(NO_MEMBERS, b, s') else Items0(ReadU32Be(b).value, b[4..], s', []))
  }

  function ReadTypedObject0(b: seq<byte>, s: State): (r: Out<nat>)
    ensures r.s.depth == s.depth && (r.Ok? ==> |r.rest| <= |b|)
    decreases |b|, 3
  {
    var s' := Registered0(s);
    var name := ReadShort(b);
    if name.Short? then Fail(s', Eof)
    else Complete0(|s.refs|, TypedObject0(name.value), Entries0(name.rest, s', NO_MEMBERS, true))
  }

  /** A nested AMF3 value, by an instance with tables of its own. */
  function ReadContainer0(b: seq<byte>, s: State): (r: Out<nat>)
    ensures r.s.depth == s.depth && (r.Ok? ==> |r.rest| <= |b|)
    decreases |b|, 3
  {
    var addr, s' := s.next, Allocated(s).(tables := NO_TABLES);
    var r := Read3(b, s');
    if r.Fail? then Fail(r.s, r.error)
    else Ok(addr, r.rest, Finished(r.s, addr, CompositeNode(Container0, [], [r.value])))
  }

  /** The member loop of objects, mixed arrays and typed objects. */
  function Entries0(b: seq<byte>, s: State, m: Members, unique: bool): (r: Out<Members>)
    ensures r.s.depth == s.depth && (r.Ok? ==> |r.rest| <= |b|)
    decreases |b|, 1
  {
    if |b| < 3 then Fail(s, Eof)
    else if AtEnd(b) then Ok(m, b[3..], s)
    else
      var key := ReadShort(b);
      if key.Short? then Fail(s, Eof)
      else
        var r := Read0(key.rest, s);
        if r.Fail? then Fail(r.s, r.error) else Entries0(r.rest, r.s, AddEntry(m, key.value, r.value, unique), unique)
  }

  function Items0(count: nat, b: seq<byte>, s: State, addrs: seq<nat>): (r: Out<Members>)
    ensures r.s.depth == s.depth && (r.Ok? ==> |r.rest| <= |b|)
    decreases |b|, 1
  {
    if count == 0 then Ok(Members([], addrs), b, s)
    else
      var r := Read0(b, s);
      if r.Fail? then Fail(r.s, r.error) else Items0(count - 1, r.rest, r.s, addrs + [r.value])
  }

  // ---- AMF3 -------------------------------------------------------------------------------------

  function Read3(b: seq<byte>, s: State): (r: Out<nat>)
    ensures r.s.depth == s.depth && (r.Ok? ==> |r.rest| < |b|)
    decreases |b|, 0
  {
    var d := Deeper(s);
    if d.depth > MAX_DEPTH then Back<nat>(Fail(d, Corrupt))
    else if d.nodes + 1 > MAX_NODES then Back<nat>(Fail(Charged(d), Corrupt))
    else if |b| < 1 then Back<nat>(Fail(Charged(d), Eof))
    else Back(Typed3(b[0], b[1..], Charged(d)))
  }

  function Typed3(marker: byte, b: seq<byte>, s: State): (r: Out<nat>)
    ensures r.s.depth == s.depth && (r.Ok? ==> |r.rest| <= |b|)
    decreases |b|, 4
  {
    if marker <= 3 then Leafed(Simple3(marker), b, s)
    else if marker == 4 then
      var n := ReadU29(b);
      if n.Short? then Fail(s, Eof)
      else
        ReadU29Bounded(b);
        Leafed(Integer3(Signed(n.value)), n.rest, s)
    else if marker == 5 then
      if |b| < 8 then Fail(s, Eof) else Leafed(Double3(b[..8]), b[8..], s)
    else if marker == 6 then
      var t := ReadText3(b, s);
      if t.Fail? then Fail(t.s, t.error) else Leafed(String3(t.value), t.rest, t.s)
    else if marker <= 0x11 then
      var h := ReadU29(b);
      if h.Short? then Fail(s, Eof)
      else
        ReadU29Bounded(b);
        if h.value % 2 == 0 then ObjectRef(h.value / 2, h.rest, s)
        else Inline3(marker, h.value / 2, h.rest, s)
    else Fail(s, Corrupt)
  }

  /** A referenceable value sent inline; `n` is its header without the low bit. */
  function Inline3(marker: byte, n: nat, b: seq<byte>, s: State): (r: Out<nat>)
    ensures r.s.depth == s.depth && (r.Ok? ==> |r.rest| <= |b|)
    decreases |b|, 3
  {
    match marker
    case 0x09 => ReadArray3(n, b, s)
    case 0x0A => ReadObject3(n, b, s)
    case 0x10 => ReadVector3(n, b, s)
    case 0x11 => ReadDictionary3(n, b, s)
    case _ => ReadInlineLeaf3(marker, n, b, s)
  }

  function ReadInlineLeaf3(marker: byte, n: nat, b: seq<byte>, s: State): (r: Out<nat>)
    ensures r.s.depth == s.depth && (r.Ok? ==> |r.rest| <= |b|)
  {
    if marker == 0x07 || marker == 0x0B then
      if |b| < n then Fail(s, Eof) else LeafedAndRegistered(Xml3(marker, b[..n]), b[n..], s)
    else if marker == 0x08 then
      if |b| < 8 then Fail(s, Eof) else LeafedAndRegistered(Date3(b[..8]), b[8..], s)
    else if marker == 0x0C then
      if |b| < n then Fail(s, Eof) else LeafedAndRegistered(ByteArray3(b[..n]), b[n..], s)
    else if IsVectorOfNumbers(marker) then
      if |b| < 1 || n * WordSize(marker) > |b| - 1 then Fail(s, Eof)
      else
        LeafedAndRegistered(Numbers3(marker, b[0] != 0, Words(b[1..], n, WordSize(marker))),
                            b[1 + n * WordSize(marker)..], s)
    else Fail(s, Corrupt)
  }

  function Complete3(index: nat, kind: Kind, keys: seq<Key>, addrs: seq<nat>, r: Out<Members>): (q: Out<nat>)
    ensures q.s.depth == r.s.depth && (q.Ok? ==> r.Ok? && q.rest == r.rest)
  {
    if r.Fail? then Fail(r.s, r.error)
    else if index >= |r.s.tables.objects| then Fail(r.s, Corrupt)
    else
      Ok(r.s.tables.objects[index].addr, r.rest,
         Completed3(r.s, index, CompositeNode(kind, keys + r.value.keys, addrs + r.value.addrs)))
  }

  function ReadArray3(count: nat, b: seq<byte>, s: State): (r: Out<nat>)
    ensures r.s.depth == s.depth && (r.Ok? ==> |r.rest| <= |b|)
    decreases |b|, 2
  {
    var m := Entries3(b, Registered3(s), NO_MEMBERS);
    if m.Fail? then Fail(m.s, m.error)
    else Complete3(|s.tables.objects|, Array3, m.value.keys, m.value.addrs, Items3(count, m.rest, m.s, []))
  }

  function ReadObject3(info: nat, b: seq<byte>, s: State): (r: Out<nat>)
    ensures r.s.depth == s.depth && (r.Ok? ==> |r.rest| <= |b|)
    decreases |b|, 2
  {
    var t := ReadTraits(info, b, s);
    if t.Fail? then Fail(t.s, t.error)
    else
      var m := Sealed3(t.value.names, t.rest, Registered3(t.s), NO_MEMBERS);
      if m.Fail? then Fail(m.s, m.error)
      else
        Complete3(|t.s.tables.objects|, Object3, [], [],
                  if t.value.dynamic then Entries3(m.rest, m.s, m.value) else m)
  }

  function ReadVector3(count: nat, b: seq<byte>, s: State): (r: Out<nat>)
    ensures r.s.depth == s.depth && (r.Ok? ==> |r.rest| <= |b|)
    decreases |b|, 2
  {
    if |b| < 1 then Fail(s, Eof)
    else
      var name := ReadText3(b[1..], s);
      if name.Fail? then Fail(name.s, name.error)
      else
        var s' := Registered3(name.s);
        if count > |name.rest| then Fail(s', Eof)
        else
          Complete3(|name.s.tables.objects|, Vector3(b[0] != 0, name.value), [], [], Items3(count, name.rest, s', []))
  }

  function ReadDictionary3(count: nat, b: seq<byte>, s: State): (r: Out<nat>)
    ensures r.s.depth == s.depth && (r.Ok? ==> |r.rest| <= |b|)
    decreases |b|, 2
  {
    if |b| < 1 then Fail(s, Eof)
    else
      var s' := Registered3(s);
      if count > (|b| - 1) / 2 then Fail(s', Eof)
      else Complete3(|s.tables.objects|, Dictionary3(b[0] != 0), [], [], Items3(count * 2, b[1..], s', []))
  }

  /** Dynamic members and the associative part of an array, ended by an empty name. */
  function Entries3(b: seq<byte>, s: State, m: Members): (r: Out<Members>)
    requires |m.addrs| == |m.keys|
    ensures r.s.depth == s.depth && (r.Ok? ==> |r.rest| <= |b| && |r.value.addrs| == |r.value.keys|)
    decreases |b|, 1
  {
    var key := ReadText3(b, s);
    if key.Fail? then Fail(key.s, key.error)
    else if key.value == [] then Ok(m, key.rest, key.s)
    else
      var r := Read3(key.rest, key.s);
      if r.Fail? then Fail(r.s, r.error) else Entries3(r.rest, r.s, Assign(m, key.value, r.value))
  }

  /** Sealed members: each object is charged for its own copy of the name. */
  function Sealed3(names: seq<Text>, b: seq<byte>, s: State, m: Members): (r: Out<Members>)
    requires |m.addrs| == |m.keys|
    ensures r.s.depth == s.depth && (r.Ok? ==> |r.rest| <= |b| && |r.value.addrs| == |r.value.keys|)
    decreases |b|, 1
  {
    if names == [] then Ok(m, b, s)
    else if !Affordable(s, |names[0]|) then Fail(s, Corrupt)
    else
      var r := Read3(b, s.(stringBytes := s.stringBytes + |names[0]|));
      if r.Fail? then Fail(r.s, r.error) else Sealed3(names[1..], r.rest, r.s, Assign(m, names[0], r.value))
  }

  function Items3(count: nat, b: seq<byte>, s: State, addrs: seq<nat>): (r: Out<Members>)
    ensures r.s.depth == s.depth && (r.Ok? ==> |r.rest| <= |b|)
    decreases |b|, 1
  {
    if count == 0 then Ok(Members([], addrs), b, s)
    else
      var r := Read3(b, s);
      if r.Fail? then Fail(r.s, r.error) else Items3(count - 1, r.rest, r.s, addrs + [r.value])
  }
}
