/** The AMF readers and writers as they run: a cursor, a heap, tables and counters
    updated in place, loops for members and items, and an exception for a refusal.
    Each reader method is proved equal to its function of `AmfReader`, each writer
    method to append exactly `AmfValue.Write`. */
module AmfCodec {
  import opened Bytes
  import opened OrderedKeys
  import opened U29
  import opened AmfValue
  import opened AmfReader
  import opened AmfGraph
  import opened AmfRoundTrip

  /** A method returns a value or throws. */
  datatype Return<+T> = Returned(value: T) | Threw(error: Error)

  /** The method did what the function says. */
  ghost predicate Agrees<T>(r: Return<T>, left: seq<byte>, s: State, q: Out<T>) {
    && s == q.s
    && (q.Ok? ==> r == Returned(q.value) && left == q.rest)
    && (q.Fail? ==> r == Threw(q.error))
  }

  class Decoder {
    var left: seq<byte>
    var s: State

    constructor (bytes: seq<byte>)
      ensures left == bytes && s == FRESH
    {
      left, s := bytes, FRESH;
    }

    // ---- pieces ---------------------------------------------------------------------------

    /** `read_u29`, byte by byte. */
    method TakeU29() returns (r: Return<int>)
      modifies `left
      ensures var q := ReadU29(old(left));
              && (q.Got? ==> r == Returned(q.value) && left == q.rest)
              && (q.Short? ==> r == Threw(Eof))
    {
      hide ReadFrom;
      var acc: nat := 0;
      var count := 1;
      U29Step(left, 0, 1);
      if |left| < 1 {
        return Threw(Eof);
      }
      var b := left[0];
      ghost var here := left;
      left := left[1..];
      while b >= 0x80 && count < 4
        invariant 1 <= count <= 4 && |here| >= 1 && b == here[0] && left == here[1..]
        invariant ReadFrom(here, acc, count) == ReadFrom(old(left), 0, 1)
        decreases 4 - count
      {
        U29Step(here, acc, count);
        acc := acc * 0x80 + (b - 0x80);
        here := left;
        count := count + 1;
        U29Step(here, acc, count);
        if |left| < 1 {
          return Threw(Eof);
        }
        b := left[0];
        left := left[1..];
      }
      U29Step(here, acc, count);
      return Returned(acc * (if count < 4 then 0x80 else 0x100) + b);
    }

    method TakeShort() returns (r: Return<Text>)
      modifies `left
      ensures var q := ReadShort(old(left));
              && (q.Got? ==> r == Returned(q.value) && left == q.rest)
              && (q.Short? ==> r == Threw(Eof))
    {
      if |left| < 2 {
        return Threw(Eof);
      }
      var n := Value2(left[0], left[1]);
      left := left[2..];
      if |left| < n {
        return Threw(Eof);
      }
      var text := left[..n];
      left := left[n..];
      assert text == old(left)[2..2 + n] && left == old(left)[2 + n..];
      return Returned(text);
    }

    /** `read_string` of AMF3, with its table and its charge. */
    method TakeText3() returns (r: Return<Text>)
      modifies this
      ensures Agrees(r, left, s, ReadText3(old(left), old(s)))
    {
      hide ReadU29;
      ReadU29Bounds(left);
      var h := TakeU29();
      if h.Threw? {
        return Threw(Eof);
      }
      var n := h.value / 2;
      if h.value % 2 == 0 {
        if n >= |s.tables.strings| {
          return Threw(Corrupt);
        }
        var text := s.tables.strings[n];
        if |text| > MAX_STRING_BYTES - s.stringBytes {
          return Threw(Corrupt);
        }
        s := s.(stringBytes := s.stringBytes + |text|);
        return Returned(text);
      }
      if |left| < n {
        return Threw(Eof);
      }
      if n > MAX_STRING_BYTES - s.stringBytes {
        return Threw(Corrupt);
      }
      var text := left[..n];
      left := left[n..];
      s := s.(stringBytes := s.stringBytes + n);
      if text != [] {
        s := s.(tables := s.tables.(strings := s.tables.strings + [text]));
      }
      return Returned(text);
    }

    // ---- AMF0 -------------------------------------------------------------------------------

    /** `amf0::read` below the top level: the depth is given back on every way out. */
    method ReadValue0() returns (r: Return<nat>)
      modifies this
      ensures Agrees(r, left, s, Read0(old(left), old(s))) && s.depth == old(s.depth)
      decreases |left|, 0
    {
      hide Typed0;
      s := s.(depth := s.depth + 1);
      r := ReadGuarded0();
      s := s.(depth := s.depth - 1);
    }

    method ReadGuarded0() returns (r: Return<nat>)
      requires s.depth > 0
      modifies this
      ensures s.depth == old(s.depth)
      ensures var d := old(s);
              Agrees(r, left, s,
                if d.depth > MAX_DEPTH then Fail(d, Corrupt)
                else if d.nodes + 1 > MAX_NODES then Fail(Charged(d), Corrupt)
                else if |old(left)| < 1 then Fail(Charged(d), Eof)
                else Typed0(old(left)[0], old(left)[1..], Charged(d)))
      decreases |left|, 0, 0
    {
      hide Typed0;
      if s.depth > MAX_DEPTH {
        return Threw(Corrupt);
      }
      s := s.(nodes := s.nodes + 1);
      if s.nodes > MAX_NODES {
        return Threw(Corrupt);
      }
      if |left| < 1 {
        return Threw(Eof);
      }
      var marker := left[0];
      left := left[1..];
      r := ReadTyped0(marker);
    }

    method ReadTyped0(marker: byte) returns (r: Return<nat>)
      modifies this
      ensures Agrees(r, left, s, Typed0(marker, old(left), old(s))) && s.depth == old(s.depth)
      decreases |left|, 4
    {
      hide ReadObject0, ReadEcmaArray0, ReadStrictArray0, ReadTypedObject0, ReadContainer0, ReadReference0, ReadLeaf0;
      match marker {
        case 3 => r := ReadObject();
        case 7 => r := ReadReference();
        case 8 => r := ReadMixedArray();
        case 10 => r := ReadStrictArray();
        case 16 => r := ReadTypedObject();
        case 17 => r := ReadContainer();
        case _ => r := ReadSimple0(marker);
      }
    }

    /** Makes a leaf and moves the cursor past it. */
    method MakeLeaf(l: Leaf, rest: seq<byte>) returns (r: Return<nat>)
      modifies this
      ensures Agrees(r, left, s, Leafed(l, rest, old(s)))
    {
      left := rest;
      r := Make(l);
    }

    /** The same for a leaf that AMF3 enters in its object table. */
    method MakeRegistered(l: Leaf, rest: seq<byte>) returns (r: Return<nat>)
      modifies this
      ensures Agrees(r, left, s, LeafedAndRegistered(l, rest, old(s)))
    {
      var addr, index := s.next, |s.tables.objects|;
      s := Registered3(s);
      s := Completed3(s, index, LeafNode(l));
      left := rest;
      return Returned(addr);
    }

    /** The loop over a vector's numbers. */
    method TakeWords(b: seq<byte>, count: nat, size: nat) returns (words: seq<Text>)
      requires count * size <= |b|
      ensures words == Words(b, count, size)
    {
      words := [];
      var rest, togo := b, count;
      while togo > 0
        invariant 0 <= togo && togo * size <= |rest|
        invariant Words(b, count, size) == words + Words(rest, togo, size)
      {
        assert togo * size == (togo - 1) * size + size && (togo - 1) * size >= 0;
        var rest' := rest[size..];
        assert words + ([rest[..size]] + Words(rest', togo - 1, size))
            == words + [rest[..size]] + Words(rest', togo - 1, size);
        words := words + [rest[..size]];
        rest, togo := rest', togo - 1;
      }
    }

    method ReadSimple0(marker: byte) returns (r: Return<nat>)
      modifies this
      ensures Agrees(r, left, s, ReadLeaf0(marker, old(left), old(s)))
    {
      match marker {
        case 0 =>
          if |left| < 8 {
            return Threw(Eof);
          }
          r := MakeLeaf(Number(left[..8]), left[8..]);
        case 1 =>
          if |left| < 1 {
            return Threw(Eof);
          }
          r := MakeLeaf(Boolean(left[0] == 1), left[1..]);
        case 2 =>
          var t := ReadShort(left);
          if t.Short? {
            return Threw(Eof);
          }
          r := MakeLeaf(String(t.value), t.rest);
        case 5 => r := MakeLeaf(Null, left);
        case 6 => r := MakeLeaf(Undefined, left);
        case 11 =>
          if |left| < 10 {
            return Threw(Eof);
          }
          r := MakeLeaf(Date(left[..8]), left[10..]);
        case 12 =>
          // a length or body that runs short leaves the string empty
          if |left| < 4 {
            r := MakeLeaf(LongString([]), left);
            return;
          }
          var t := ReadLong(left);
          if t.Short? {
            r := MakeLeaf(LongString([]), left[4..]);
          } else {
            r := MakeLeaf(LongString(t.value), t.rest);
          }
        case 13 => r := MakeLeaf(Unsupported, left);
        case 15 =>
          var t := ReadLong(left);
          if t.Short? {
            return Threw(Eof);
          }
          r := MakeLeaf(XmlDocument(t.value), t.rest);
        case _ => return Threw(Corrupt);
      }
    }

    method ReadReference() returns (r: Return<nat>)
      modifies this
      ensures Agrees(r, left, s, ReadReference0(old(left), old(s)))
    {
      if |left| < 2 {
        return Threw(Eof);
      }
      var index := Value2(left[0], left[1]);
      left := left[2..];
      if index >= |s.refs| || !s.refs[index].complete {
        return Threw(Corrupt);
      }
      return Returned(s.refs[index].addr);
    }

    /** Marks the entry complete and gives the address out. */
    method Finish0(index: nat, kind: Kind, m: Members) returns (r: Return<nat>)
      modifies `s
      ensures Agrees(r, left, s, Complete0(index, kind, Ok(m, left, old(s))))
    {
      if index >= |s.refs| {
        return Threw(Corrupt);
      }
      var addr := s.refs[index].addr;
      s := Completed0(s, index, CompositeNode(kind, m.keys, m.addrs));
      return Returned(addr);
    }

    method ReadObject() returns (r: Return<nat>)
      modifies this
      ensures Agrees(r, left, s, ReadObject0(old(left), old(s))) && s.depth == old(s.depth)
      decreases |left|, 3
    {
      hide Entries0, Complete0;
      var index := |s.refs|;
      s := Registered0(s);
      if |left| < 3 {
        r := Finish0(index, Object0, NO_MEMBERS);
        return;
      }
      var m := ReadEntries0(true);
      CompleteFails0(index, Object0, s, EofOr(m));
      if m.Threw? {
        return Threw(m.error);
      }
      r := Finish0(index, Object0, m.value);
    }

    method ReadMixedArray() returns (r: Return<nat>)
      modifies this
      ensures Agrees(r, left, s, ReadEcmaArray0(old(left), old(s))) && s.depth == old(s.depth)
      decreases |left|, 3
    {
      hide Entries0, Complete0;
      var index := |s.refs|;
      s := Registered0(s);
      if |left| < 7 {
        r := Finish0(index, EcmaArray0, NO_MEMBERS);
        return;
      }
      left := left[4..];
      var m := ReadEntries0(false);
      CompleteFails0(index, EcmaArray0, s, EofOr(m));
      if m.Threw? {
        return Threw(m.error);
      }
      r := Finish0(index, EcmaArray0, m.value);
    }

    method ReadStrictArray() returns (r: Return<nat>)
      modifies this
      ensures Agrees(r, left, s, ReadStrictArray0(old(left), old(s))) && s.depth == old(s.depth)
      decreases |left|, 3
    {
      hide Items0, Complete0;
      var index := |s.refs|;
      s := Registered0(s);
      if |left| < 7 {
        r := Finish0(index, StrictArray0, NO_MEMBERS);
        return;
      }
      var count := ReadU32Be(left).value;
      left := left[4..];
      var m := ReadItems0(count);
      CompleteFails0(index, StrictArray0, s, EofOr(m));
      if m.Threw? {
        return Threw(m.error);
      }
      r := Finish0(index, StrictArray0, m.value);
    }

    method ReadTypedObject() returns (r: Return<nat>)
      modifies this
      ensures Agrees(r, left, s, ReadTypedObject0(old(left), old(s))) && s.depth == old(s.depth)
      decreases |left|, 3
    {
      hide Entries0, Complete0, ReadShort;
      var index := |s.refs|;
      s := Registered0(s);
      var name := TakeShort();
      if name.Threw? {
        return Threw(Eof);
      }
      var m := ReadEntries0(true);
      CompleteFails0(index, TypedObject0(name.value), s, EofOr(m));
      if m.Threw? {
        return Threw(m.error);
      }
      r := Finish0(index, TypedObject0(name.value), m.value);
    }

    method ReadContainer() returns (r: Return<nat>)
      modifies this
      ensures Agrees(r, left, s, ReadContainer0(old(left), old(s))) && s.depth == old(s.depth)
      decreases |left|, 3
    {
      hide Read3;
      var addr := s.next;
      s := Allocated(s).(tables := NO_TABLES);
      var v := ReadValue3();
      if v.Threw? {
        return Threw(v.error);
      }
      s := Finished(s, addr, CompositeNode(Container0, [], [v.value]));
      return Returned(addr);
    }

    /** Members until the end marker. */
    method ReadEntries0(unique: bool) returns (r: Return<Members>)
      modifies this
      ensures Agrees(r, left, s, Entries0(old(left), old(s), NO_MEMBERS, unique)) && s.depth == old(s.depth)
      decreases |left|, 1
    {
      hide Entries0, Read0, ReadShort;
      var m := NO_MEMBERS;
      while |left| >= 3 && !AtEnd(left)
        invariant Entries0(left, s, m, unique) == Entries0(old(left), old(s), NO_MEMBERS, unique)
        invariant |left| <= |old(left)| && s.depth == old(s.depth)
        decreases |left|
      {
        Entries0Unfolds(left, s, m, unique);
        var key := TakeShort();
        if key.Threw? {
          return Threw(Eof);
        }
        var v := ReadValue0();
        if v.Threw? {
          return Threw(v.error);
        }
        m := AddEntry(m, key.value, v.value, unique);
      }
      Entries0Unfolds(left, s, m, unique);
      if |left| < 3 {
        return Threw(Eof);
      }
      left := left[3..];
      return Returned(m);
    }

    method ReadItems0(count: nat) returns (r: Return<Members>)
      modifies this
      ensures Agrees(r, left, s, Items0(count, old(left), old(s), [])) && s.depth == old(s.depth)
      decreases |left|, 1
    {
      hide Items0, Read0;
      var addrs: seq<nat> := [];
      var i := 0;
      while i < count
        invariant i <= count && Items0(count - i, left, s, addrs) == Items0(count, old(left), old(s), [])
        invariant |left| <= |old(left)| && s.depth == old(s.depth)
      {
        Items0Unfolds(count - i, left, s, addrs);
        var v := ReadValue0();
        if v.Threw? {
          return Threw(v.error);
        }
        addrs := addrs + [v.value];
        i := i + 1;
      }
      Items0Unfolds(0, left, s, addrs);
      return Returned(Members([], addrs));
    }

    // ---- AMF3 --------------------------------------------------------------------------------

    method ReadValue3() returns (r: Return<nat>)
      modifies this
      ensures Agrees(r, left, s, Read3(old(left), old(s))) && s.depth == old(s.depth)
      decreases |left|, 0
    {
      hide Typed3;
      s := s.(depth := s.depth + 1);
      r := ReadGuarded3();
      s := s.(depth := s.depth - 1);
    }

    method ReadGuarded3() returns (r: Return<nat>)
      requires s.depth > 0
      modifies this
      ensures s.depth == old(s.depth)
      ensures var d := old(s);
              Agrees(r, left, s,
                if d.depth > MAX_DEPTH then Fail(d, Corrupt)
                else if d.nodes + 1 > MAX_NODES then Fail(Charged(d), Corrupt)
                else if |old(left)| < 1 then Fail(Charged(d), Eof)
                else Typed3(old(left)[0], old(left)[1..], Charged(d)))
      decreases |left|, 0, 0
    {
      hide Typed3;
      if s.depth > MAX_DEPTH {
        return Threw(Corrupt);
      }
      s := s.(nodes := s.nodes + 1);
      if s.nodes > MAX_NODES {
        return Threw(Corrupt);
      }
      if |left| < 1 {
        return Threw(Eof);
      }
      var marker := left[0];
      left := left[1..];
      r := ReadTyped3(marker);
    }

    method ReadTyped3(marker: byte) returns (r: Return<nat>)
      modifies this
      ensures Agrees(r, left, s, Typed3(marker, old(left), old(s))) && s.depth == old(s.depth)
      decreases |left|, 4
    {
      hide ReadU29, ReadText3, Inline3;
      ReadU29Bounds(left);
      if marker <= 3 {
        r := Make(Simple3(marker));
      } else if marker == 4 {
        var n := TakeU29();
        if n.Threw? {
          return Threw(Eof);
        }
        r := Make(Integer3(Signed(n.value)));
      } else if marker == 5 {
        if |left| < 8 {
          return Threw(Eof);
        }
        var bits := left[..8];
        left := left[8..];
        r := Make(Double3(bits));
      } else if marker == 6 {
        var t := TakeText3();
        if t.Threw? {
          return Threw(t.error);
        }
        r := Make(String3(t.value));
      } else if marker <= 0x11 {
        var h := TakeU29();
        if h.Threw? {
          return Threw(Eof);
        }
        if h.value % 2 == 0 {
          var index := h.value / 2;
          if index >= |s.tables.objects| || !s.tables.objects[index].complete {
            return Threw(Corrupt);
          }
          return Returned(s.tables.objects[index].addr);
        }
        r := ReadInline3(marker, h.value / 2);
      } else {
        return Threw(Corrupt);
      }
    }

    /** A value complete as soon as it is made. */
    method Make(l: Leaf) returns (r: Return<nat>)
      modifies `s
      ensures Agrees(r, left, s, Leafed(l, left, old(s)))
    {
      var addr := s.next;
      s := Finished(Allocated(s), addr, LeafNode(l));
      return Returned(addr);
    }

    method ReadInline3(marker: byte, n: nat) returns (r: Return<nat>)
      modifies this
      ensures Agrees(r, left, s, Inline3(marker, n, old(left), old(s))) && s.depth == old(s.depth)
      decreases |left|, 3
    {
      hide ReadArray3, ReadObject3, ReadVector3, ReadDictionary3, ReadInlineLeaf3;
      match marker {
        case 0x09 => r := ReadArray(n);
        case 0x0A => r := ReadObjectBody3(n);
        case 0x10 => r := ReadVector(n);
        case 0x11 => r := ReadDictionary(n);
        case _ => r := ReadSimple3(marker, n);
      }
    }

    method ReadSimple3(marker: byte, n: nat) returns (r: Return<nat>)
      modifies this
      ensures Agrees(r, left, s, ReadInlineLeaf3(marker, n, old(left), old(s)))
    {
      if marker == 0x07 || marker == 0x0B || marker == 0x0C {
        if |left| < n {
          return Threw(Eof);
        }
        r := MakeRegistered(if marker == 0x0C then ByteArray3(left[..n]) else Xml3(marker, left[..n]), left[n..]);
      } else if marker == 0x08 {
        if |left| < 8 {
          return Threw(Eof);
        }
        r := MakeRegistered(Date3(left[..8]), left[8..]);
      } else if IsVectorOfNumbers(marker) {
        if |left| < 1 || n * WordSize(marker) > |left| - 1 {
          return Threw(Eof);
        }
        var fixed, size := left[0] != 0, WordSize(marker);
        var words := TakeWords(left[1..], n, size);
        r := MakeRegistered(Numbers3(marker, fixed, words), left[1 + n * size..]);
      } else {
        return Threw(Corrupt);
      }
    }

    method Finish3(index: nat, kind: Kind, keys: seq<Key>, addrs: seq<nat>, m: Members) returns (r: Return<nat>)
      modifies `s
      ensures Agrees(r, left, s, Complete3(index, kind, keys, addrs, Ok(m, left, old(s))))
    {
      if index >= |s.tables.objects| {
        return Threw(Corrupt);
      }
      var addr := s.tables.objects[index].addr;
      s := Completed3(s, index, CompositeNode(kind, keys + m.keys, addrs + m.addrs));
      return Returned(addr);
    }

    method ReadArray(count: nat) returns (r: Return<nat>)
      modifies this
      ensures Agrees(r, left, s, ReadArray3(count, old(left), old(s))) && s.depth == old(s.depth)
      decreases |left|, 2
    {
      hide Entries3, Items3, Complete3;
      var index := |s.tables.objects|;
      s := Registered3(s);
      var m := ReadEntries3(NO_MEMBERS);
      if m.Threw? {
        return Threw(m.error);
      }
      var items := ReadItems3(count);
      CompleteFails3(index, Array3, m.value.keys, m.value.addrs, s, EofOr(items));
      if items.Threw? {
        return Threw(items.error);
      }
      r := Finish3(index, Array3, m.value.keys, m.value.addrs, items.value);
    }

    method ReadObjectBody3(info: nat) returns (r: Return<nat>)
      modifies this
      ensures Agrees(r, left, s, ReadObject3(info, old(left), old(s))) && s.depth == old(s.depth)
      decreases |left|, 2
    {
      hide Entries3, Sealed3, Complete3, ReadTraits;
      var t := TakeTraits(info);
      if t.Threw? {
        return Threw(t.error);
      }
      var index := |s.tables.objects|;
      s := Registered3(s);
      var m := ReadSealed3(t.value.names);
      if m.Threw? {
        return Threw(m.error);
      }
      if t.value.dynamic {
        m := ReadEntries3(m.value);
        CompleteFails3(index, Object3, [], [], s, EofOr(m));
        if m.Threw? {
          return Threw(m.error);
        }
      }
      r := Finish3(index, Object3, [], [], m.value);
    }

    method TakeTraits(info: nat) returns (r: Return<Traits>)
      modifies this
      ensures Agrees(r, left, s, ReadTraits(info, old(left), old(s))) && s.depth == old(s.depth)
      ensures r.Returned? ==> |left| <= |old(left)|
    {
      hide ReadText3, ReadNames;
      if info % 2 == 0 {
        if info / 2 >= |s.tables.traits| {
          return Threw(Corrupt);
        }
        return Returned(s.tables.traits[info / 2]);
      }
      if info / 2 % 2 == 1 || info / 8 > |left| {
        return Threw(Corrupt);
      }
      var name := TakeText3();
      if name.Threw? {
        return Threw(name.error);
      }
      var names := TakeNames(info / 8);
      if names.Threw? {
        return Threw(names.error);
      }
      var t := Traits(info / 4 % 2 == 1, names.value);
      s := s.(tables := s.tables.(traits := s.tables.traits + [t]));
      return Returned(t);
    }

    method TakeNames(count: nat) returns (r: Return<seq<Text>>)
      modifies this
      ensures Agrees(r, left, s, ReadNames(count, old(left), old(s), [])) && s.depth == old(s.depth)
    {
      hide ReadText3;
      var names: seq<Text> := [];
      var i := 0;
      while i < count
        invariant i <= count && s.depth == old(s.depth)
        invariant ReadNames(count - i, left, s, names) == ReadNames(count, old(left), old(s), [])
      {
        var name := TakeText3();
        if name.Threw? {
          return Threw(name.error);
        }
        if name.value == [] {
          return Threw(Corrupt);
        }
        names := names + [name.value];
        i := i + 1;
      }
      return Returned(names);
    }

    method ReadVector(count: nat) returns (r: Return<nat>)
      modifies this
      ensures Agrees(r, left, s, ReadVector3(count, old(left), old(s))) && s.depth == old(s.depth)
      decreases |left|, 2
    {
      hide Items3, Complete3, ReadText3;
      if |left| < 1 {
        return Threw(Eof);
      }
      var fixed := left[0] != 0;
      left := left[1..];
      var name := TakeText3();
      if name.Threw? {
        return Threw(name.error);
      }
      var index := |s.tables.objects|;
      s := Registered3(s);
      if count > |left| {
        return Threw(Eof);
      }
      var items := ReadItems3(count);
      CompleteFails3(index, Vector3(fixed, name.value), [], [], s, EofOr(items));
      if items.Threw? {
        return Threw(items.error);
      }
      r := Finish3(index, Vector3(fixed, name.value), [], [], items.value);
    }

    method ReadDictionary(count: nat) returns (r: Return<nat>)
      modifies this
      ensures Agrees(r, left, s, ReadDictionary3(count, old(left), old(s))) && s.depth == old(s.depth)
      decreases |left|, 2
    {
      hide Items3, Complete3;
      if |left| < 1 {
        return Threw(Eof);
      }
      var weak := left[0] != 0;
      left := left[1..];
      var index := |s.tables.objects|;
      s := Registered3(s);
      if count > |left| / 2 {
        return Threw(Eof);
      }
      var items := ReadItems3(count * 2);
      CompleteFails3(index, Dictionary3(weak), [], [], s, EofOr(items));
      if items.Threw? {
        return Threw(items.error);
      }
      r := Finish3(index, Dictionary3(weak), [], [], items.value);
    }

    /** Named members until the empty name. */
    method ReadEntries3(start: Members) returns (r: Return<Members>)
      requires |start.addrs| == |start.keys|
      modifies this
      ensures Agrees(r, left, s, Entries3(old(left), old(s), start)) && s.depth == old(s.depth)
      ensures r.Returned? ==> |left| <= |old(left)| && |r.value.addrs| == |r.value.keys|
      decreases |left|, 1
    {
      hide Entries3, Read3, ReadText3, Assign;
      var m := start;
      while true
        invariant |m.addrs| == |m.keys| && Entries3(left, s, m) == Entries3(old(left), old(s), start)
        invariant |left| <= |old(left)| && s.depth == old(s.depth)
        decreases |left|
      {
        Entries3Unfolds(left, s, m);
        var key := TakeText3();
        if key.Threw? {
          return Threw(key.error);
        }
        if key.value == [] {
          return Returned(m);
        }
        var v := ReadValue3();
        if v.Threw? {
          return Threw(v.error);
        }
        m := Assign(m, key.value, v.value);
      }
    }

    method ReadSealed3(names: seq<Text>) returns (r: Return<Members>)
      modifies this
      ensures Agrees(r, left, s, Sealed3(names, old(left), old(s), NO_MEMBERS)) && s.depth == old(s.depth)
      ensures r.Returned? ==> |left| <= |old(left)| && |r.value.addrs| == |r.value.keys|
      decreases |left|, 1
    {
      hide Sealed3, Read3, Assign;
      var m := NO_MEMBERS;
      var i := 0;
      assert names[0..] == names;
      while i < |names|
        invariant i <= |names| && |m.addrs| == |m.keys|
        invariant Sealed3(names[i..], left, s, m) == Sealed3(names, old(left), old(s), NO_MEMBERS)
        invariant |left| <= |old(left)| && s.depth == old(s.depth)
      {
        Sealed3Unfolds(names[i..], left, s, m);
        assert names[i..][1..] == names[i + 1..];
        if |names[i]| > MAX_STRING_BYTES - s.stringBytes {
          return Threw(Corrupt);
        }
        s := s.(stringBytes := s.stringBytes + |names[i]|);
        var v := ReadValue3();
        if v.Threw? {
          return Threw(v.error);
        }
        m := Assign(m, names[i], v.value);
        i := i + 1;
      }
      Sealed3Unfolds([], left, s, m);
      assert names[i..] == [];
      return Returned(m);
    }

    method ReadItems3(count: nat) returns (r: Return<Members>)
      modifies this
      ensures Agrees(r, left, s, Items3(count, old(left), old(s), [])) && s.depth == old(s.depth)
      decreases |left|, 1
    {
      hide Items3, Read3;
      var addrs: seq<nat> := [];
      var i := 0;
      while i < count
        invariant i <= count && Items3(count - i, left, s, addrs) == Items3(count, old(left), old(s), [])
        invariant |left| <= |old(left)| && s.depth == old(s.depth)
      {
        Items3Unfolds(count - i, left, s, addrs);
        var v := ReadValue3();
        if v.Threw? {
          return Threw(v.error);
        }
        addrs := addrs + [v.value];
        i := i + 1;
      }
      Items3Unfolds(0, left, s, addrs);
      return Returned(Members([], addrs));
    }
  }

  // ---- the writers ------------------------------------------------------------------------------

  const MAX_WRITE_NODES: nat := 0x10_0000
  const MAX_WRITE_BYTES: nat := 0xFF_FFFF

  /** The writers' buffer and `amf_write_budget`. */
  class Encoder {
    var out: seq<byte>
    var depth: nat
    var nodes: nat
    const origin: nat

    constructor (written: seq<byte>)
      ensures out == written && depth == 0 && nodes == 0 && origin == |written|
    {
      out, depth, nodes, origin := written, 0, 0, |written|;
    }

    /** What is left of the budget covers the value. */
    ghost predicate Affords(v: Value, f: Format)
      requires Fits(v, f)
      reads this
    {
      depth + Height(v) <= MAX_DEPTH && nodes + Nodes(v) <= MAX_WRITE_NODES
      && |out| + |Write(v, f)| <= origin + MAX_WRITE_BYTES
    }

    /** `amf0::write` and `amf3::write`. A write that is not refused appends exactly
        the value's bytes and charges its nodes; one the budget covers is not refused;
        and the depth is given back either way. */
    method WriteValue(v: Value, f: Format) returns (ok: bool)
      requires Fits(v, f) && |out| >= origin
      modifies this
      ensures ok ==> out == old(out) + Write(v, f) && nodes == old(nodes) + Nodes(v)
      ensures ok ==> old(depth) + Height(v) <= MAX_DEPTH && old(nodes) + Nodes(v) <= MAX_WRITE_NODES
      ensures old(Affords(v, f)) ==> ok
      ensures depth == old(depth) && |out| >= origin
      decreases v, 3
    {
      hide LeafBody, Body, Fits, HeightFrom, NodesFrom;
      depth := depth + 1;
      ok := depth <= MAX_DEPTH;
      if ok {
        nodes := nodes + 1;
        ok := nodes <= MAX_WRITE_NODES && |out| - origin < MAX_WRITE_BYTES;
      }
      if ok {
        if v.Leaf? {
          LeafFitsOf(v, f);
          out := out + [LeafMarker(v.leaf)];
          out := out + LeafBody(v.leaf, f);
          assert out == old(out) + ([LeafMarker(v.leaf)] + LeafBody(v.leaf, f));
        } else {
          out := out + [KindMarker(v.kind)];
          ok := WriteBody(v, f);
          assert ok ==> out == old(out) + ([KindMarker(v.kind)] + Body(v, f));
        }
      }
      depth := depth - 1;
    }

    method WriteBody(v: Value, f: Format) returns (ok: bool)
      requires v.Composite? && Fits(v, f) && |out| >= origin && depth <= MAX_DEPTH && nodes <= MAX_WRITE_NODES
      modifies this
      ensures ok ==> out == old(out) + Body(v, f) && nodes == old(nodes) + NodesFrom(v, 0) <= MAX_WRITE_NODES
      ensures ok ==> depth + HeightFrom(v, 0) <= MAX_DEPTH
      ensures (&& depth + HeightFrom(v, 0) <= MAX_DEPTH && old(nodes) + NodesFrom(v, 0) <= MAX_WRITE_NODES
               && |old(out)| + |Body(v, f)| <= origin + MAX_WRITE_BYTES) ==> ok
      ensures depth == old(depth) && |out| >= origin
      decreases v, 2
    {
      hide Fits, HeightFrom, NodesFrom, Named, Items, Prologue;
      ShapeOf(v, f);
      var prologue := Prologue(v.kind, f, v.keys, |v.children|);
      out := out + prologue;
      assert old(out) + Body(v, f) == out + Named(v, f, 0);
      ok := WriteNamed(v, f);
      if ok {
        NoneFrom(v, f);
        ok := WriteItems(v, f, |v.keys|);
      }
    }

    /** The named members and what ends them. */
    method WriteNamed(v: Value, f: Format) returns (ok: bool)
      requires v.Composite? && Fits(v, f) && |out| >= origin && depth <= MAX_DEPTH && nodes <= MAX_WRITE_NODES
      modifies this
      ensures ok ==> old(out) + Named(v, f, 0) == out + Items(v, f, |v.keys|) && |v.keys| <= |v.children|
      ensures ok ==> old(nodes) + NodesFrom(v, 0) == nodes + NodesFrom(v, |v.keys|) && nodes <= MAX_WRITE_NODES
      ensures ok ==> (depth + HeightFrom(v, |v.keys|) <= MAX_DEPTH ==> depth + HeightFrom(v, 0) <= MAX_DEPTH)
      ensures ok ==> HeightFrom(v, |v.keys|) <= HeightFrom(v, 0)
      ensures (&& depth + HeightFrom(v, 0) <= MAX_DEPTH && old(nodes) + NodesFrom(v, 0) <= MAX_WRITE_NODES
               && |old(out)| + |Named(v, f, 0)| <= origin + MAX_WRITE_BYTES) ==> ok
      ensures depth == old(depth) && |out| >= origin
      decreases v, 1
    {
      hide Fits, HeightFrom, NodesFrom, Named, Items, Terminator, KeyBytes, Write;
      ShapeOf(v, f);
      var i := 0;
      while i < |v.keys|
        invariant i <= |v.keys| && depth == old(depth) && nodes <= MAX_WRITE_NODES && |out| >= origin
        invariant old(out) + Named(v, f, 0) == out + Named(v, f, i)
        invariant old(nodes) + NodesFrom(v, 0) == nodes + NodesFrom(v, i)
        invariant depth + HeightFrom(v, i) <= MAX_DEPTH ==> depth + HeightFrom(v, 0) <= MAX_DEPTH
        invariant HeightFrom(v, i) <= HeightFrom(v, 0)
      {
        NamedUnfold(v, f, i);
        MeasureStep(v, f, i);
        HeightStep(v, i);
        var key, child, g := KeyBytes(f, v.keys[i]), v.children[i], ChildFormat(v.kind, f);
        ghost var here := out;
        out := out + key;
        ok := WriteValue(child, g);
        if !ok {
          return;
        }
        assert here + (key + Write(child, g) + Named(v, f, i + 1)) == out + Named(v, f, i + 1);
        i := i + 1;
      }
      NamedUnfold(v, f, i);
      var end := Terminator(v.kind);
      ghost var here := out;
      out := out + end;
      assert here + (end + Items(v, f, i)) == out + Items(v, f, i);
      ok := true;
    }

    /** The items behind the named members. */
    method WriteItems(v: Value, f: Format, from: nat) returns (ok: bool)
      requires v.Composite? && Fits(v, f) && |out| >= origin && depth <= MAX_DEPTH && nodes <= MAX_WRITE_NODES
      requires from <= |v.children|
      modifies this
      ensures ok ==> out == old(out) + Items(v, f, from)
      ensures ok ==> nodes == old(nodes) + NodesFrom(v, from) <= MAX_WRITE_NODES
      ensures ok ==> depth + HeightFrom(v, from) <= MAX_DEPTH
      ensures (&& depth + HeightFrom(v, from) <= MAX_DEPTH && old(nodes) + NodesFrom(v, from) <= MAX_WRITE_NODES
               && |old(out)| + |Items(v, f, from)| <= origin + MAX_WRITE_BYTES) ==> ok
      ensures depth == old(depth) && |out| >= origin
      decreases v, 1
    {
      hide Fits, HeightFrom, NodesFrom, Items, Write;
      var i := from;
      NoneFrom(v, f);
      while i < |v.children|
        invariant from <= i <= |v.children| && depth == old(depth) && nodes <= MAX_WRITE_NODES && |out| >= origin
        invariant old(out) + Items(v, f, from) == out + Items(v, f, i)
        invariant old(nodes) + NodesFrom(v, from) == nodes + NodesFrom(v, i)
        invariant depth + HeightFrom(v, i) <= MAX_DEPTH ==> depth + HeightFrom(v, from) <= MAX_DEPTH
        invariant HeightFrom(v, i) <= HeightFrom(v, from)
      {
        ItemsUnfold(v, f, i);
        MeasureStep(v, f, i);
        HeightStep(v, i);
        var child, g := v.children[i], ChildFormat(v.kind, f);
        ghost var here := out;
        ok := WriteValue(child, g);
        if !ok {
          return;
        }
        assert here + (Write(child, g) + Items(v, f, i + 1)) == out + Items(v, f, i + 1);
        i := i + 1;
      }
      ItemsUnfold(v, f, i);
      assert out + [] == out;
      ok := true;
    }
  }

  lemma HeightStep(v: Value, i: nat)
    requires v.Composite? && i < |v.children|
    ensures HeightFrom(v, i) == Height(v.children[i]) || HeightFrom(v, i) == HeightFrom(v, i + 1)
  {
  }

  lemma LeafFitsOf(v: Value, f: Format)
    requires Fits(v, f) && v.Leaf?
    ensures LeafFits(v.leaf, f)
  {
  }

  lemma ShapeOf(v: Value, f: Format)
    requires v.Composite? && Fits(v, f)
    ensures ShapeFits(v.kind, f, v.keys, |v.children|) && |v.keys| <= |v.children|
  {
  }

  function EofOr<T>(r: Return<T>): Error {
    if r.Threw? then r.error else Eof
  }

  lemma CompleteFails0(index: nat, kind: Kind, s: State, e: Error)
    ensures Complete0(index, kind, Fail(s, e)) == Fail(s, e)
  {
  }

  lemma CompleteFails3(index: nat, kind: Kind, keys: seq<Key>, addrs: seq<nat>, s: State, e: Error)
    ensures Complete3(index, kind, keys, addrs, Fail(s, e)) == Fail(s, e)
  {
  }

  lemma U29Step(b: seq<byte>, acc: nat, count: nat)
    requires 1 <= count <= 4
    ensures |b| < 1 ==> ReadFrom(b, acc, count).Short?
    ensures |b| >= 1 && b[0] >= 0x80 && count < 4 ==>
              ReadFrom(b, acc, count) == ReadFrom(b[1..], acc * 0x80 + (b[0] - 0x80), count + 1)
    ensures |b| >= 1 && (b[0] < 0x80 || count == 4) ==>
              ReadFrom(b, acc, count) == Got(acc * (if count < 4 then 0x80 else 0x100) + b[0], b[1..])
  {
  }

  lemma ReadU29Bounds(b: seq<byte>)
    ensures ReadU29(b).Got? ==> 0 <= ReadU29(b).value < LIMIT && |ReadU29(b).rest| < |b|
  {
    if ReadU29(b).Got? {
      ReadU29Bounded(b);
    }
  }
}
