/** Reading undoes writing: for AMF0 and AMF3 values within the budgets, reading
    `write(v)` followed by anything gives `v` back and leaves the rest. */
module AmfRoundTrip {
  import opened Bytes
  import opened OrderedKeys
  import opened U29
  import opened AmfValue
  import opened AmfReader
  import opened AmfGraph

  // ---- what an address stands for ----------------------------------------------------------

  predicate Denotes(built: map<nat, Node>, a: nat, v: Value)
    decreases v
  {
    && a in built
    && match v {
         case Leaf(l) => built[a] == LeafNode(l)
         case Composite(kind, keys, children) =>
           && built[a].CompositeNode? && built[a].kind == kind && built[a].keys == keys
           && |built[a].children| == |children|
           && forall i | 0 <= i < |children| :: Denotes(built, built[a].children[i], children[i])
       }
  }

  predicate Kept(built: map<nat, Node>, later: map<nat, Node>) {
    forall a | a in built :: a in later && later[a] == built[a]
  }

  lemma {:induction false} StillDenotes(built: map<nat, Node>, later: map<nat, Node>, a: nat, v: Value)
    requires Kept(built, later) && Denotes(built, a, v)
    ensures Denotes(later, a, v)
    decreases v
  {
    if v.Leaf? {
    } else {
      forall i | 0 <= i < |v.children|
        ensures Denotes(later, later[a].children[i], v.children[i])
      {
        StillDenotes(built, later, built[a].children[i], v.children[i]);
      }
    }
  }

  /** The first `n` addresses stand for the first `n` children. */
  predicate DenoteTo(built: map<nat, Node>, addrs: seq<nat>, v: Value, n: nat)
    requires v.Composite? && n <= |v.children|
  {
    |addrs| == n && forall i | 0 <= i < n :: Denotes(built, addrs[i], v.children[i])
  }

  lemma DenoteStill(built: map<nat, Node>, later: map<nat, Node>, addrs: seq<nat>, v: Value, n: nat)
    requires v.Composite? && n <= |v.children| && DenoteTo(built, addrs, v, n) && Kept(built, later)
    ensures DenoteTo(later, addrs, v, n)
  {
    hide Kept, Denotes;
    forall i | 0 <= i < n
      ensures Denotes(later, addrs[i], v.children[i])
    {
      StillDenotes(built, later, addrs[i], v.children[i]);
    }
  }

  lemma DenoteMore(s: State, t: State, addrs: seq<nat>, v: Value, n: nat, a: nat)
    requires v.Composite? && n < |v.children| && DenoteTo(s.built, addrs, v, n)
    requires Grows(s, t) && Denotes(t.built, a, v.children[n])
    ensures DenoteTo(t.built, addrs + [a], v, n + 1)
  {
    hide Denotes;
    DenoteStill(s.built, t.built, addrs, v, n);
  }

  // ---- strict arrays ---------------------------------------------------------------------------

  /** The strict-array reader wants seven bytes behind its marker: the count and three
      more. Every strict array in `v` has them, with `n` bytes behind `v`. */
  predicate Room(v: Value, n: nat)
    requires Fits(v, Zero)
    decreases v, 0
  {
    v.Composite? && v.kind.StrictArray0? ==> |Items(v, Zero, 0)| + n >= 3 && RoomFrom(v, 0, n)
  }

  predicate RoomFrom(v: Value, i: nat, n: nat)
    requires v.Composite? && v.kind.StrictArray0? && Fits(v, Zero)
    decreases v, 0, |v.children| - i
  {
    i >= |v.children| || (Room(v.children[i], |Items(v, Zero, i + 1)| + n) && RoomFrom(v, i + 1, n))
  }

  /** Three bytes behind the value are always enough. */
  lemma {:induction false} RoomEnough(v: Value, n: nat)
    requires Fits(v, Zero) && n >= 3
    ensures Room(v, n)
    decreases v, 0
  {
    if v.Composite? && v.kind.StrictArray0? {
      RoomEnoughFrom(v, 0, n);
    }
  }

  lemma {:induction false} RoomEnoughFrom(v: Value, i: nat, n: nat)
    requires v.Composite? && v.kind.StrictArray0? && Fits(v, Zero) && n >= 3
    ensures RoomFrom(v, i, n)
    decreases v, 0, |v.children| - i
  {
    if i >= |v.children| {
    } else {
      RoomEnough(v.children[i], |Items(v, Zero, i + 1)| + n);
      RoomEnoughFrom(v, i + 1, n);
    }
  }

  // ---- budgets ---------------------------------------------------------------------------------

  /** The value fits what is left of the budgets, read from state `s`. */
  predicate Within(v: Value, f: Format, s: State) {
    && s.depth + Height(v) <= MAX_DEPTH
    && s.nodes + Nodes(v) <= MAX_NODES
    && s.stringBytes + Strings(v, f) <= MAX_STRING_BYTES
  }

  predicate WithinFrom(v: Value, f: Format, i: nat, s: State)
    requires v.Composite?
  {
    && s.depth + HeightFrom(v, i) <= MAX_DEPTH
    && s.nodes + NodesFrom(v, i) <= MAX_NODES
    && s.stringBytes + StringsFrom(v, f, i) <= MAX_STRING_BYTES
  }

  predicate Spent(s: State, t: State, nodes: int, strings: int) {
    t.depth == s.depth && t.nodes == s.nodes + nodes && t.stringBytes == s.stringBytes + strings
  }

  function ReadAny(b: seq<byte>, s: State, f: Format): Out<nat> {
    if f.Zero? then Read0(b, s) else Read3(b, s)
  }

  function TypedAny(marker: byte, b: seq<byte>, s: State, f: Format): Out<nat> {
    if f.Zero? then Typed0(marker, b, s) else Typed3(marker, b, s)
  }

  /** `r` is the value, with `rest` left, and what it costs is charged. */
  predicate Reads(v: Value, f: Format, r: Out<nat>, rest: seq<byte>, s: State) {
    r.Ok? && r.rest == rest && Denotes(r.s.built, r.value, v) && Spent(s, r.s, Nodes(v), Strings(v, f))
  }

  // ---- leaves -------------------------------------------------------------------------------------

  lemma ReadsShort(text: Text, rest: seq<byte>)
    requires |text| <= MAX_SHORT
    ensures ReadShort(ShortText(text) + rest) == Got(text, rest)
  {
    var b := ShortText(text) + rest;
    assert b == Be16(|text|) + (text + rest);
    assert Value2(b[0], b[1]) == |text|;
    assert b[2..2 + |text|] == text && b[2 + |text|..] == rest;
  }

  lemma ReadsLong(text: Text, rest: seq<byte>)
    requires |text| < 0x1_0000_0000
    ensures ReadLong(LongText(text) + rest) == Got(text, rest)
  {
    var b := LongText(text) + rest;
    assert b == Be32(|text|) + (text + rest);
    ReadsBe32(|text|, text + rest);
    assert b[4..4 + |text|] == text && b[4 + |text|..] == rest;
  }

  lemma ReadsHeader3(n: nat, rest: seq<byte>)
    requires n < MAX_COUNT3
    ensures ReadU29(Header3(n) + rest) == Got(n * 2 + 1, rest)
  {
    ReadsU29(n * 2 + 1, rest);
  }

  /** A string read inline is charged and, unless empty, remembered. */
  function Remembered(s: State, text: Text): State {
    s.(stringBytes := s.stringBytes + |text|,
       tables := if text == [] then s.tables else s.tables.(strings := s.tables.strings + [text]))
  }

  lemma ReadsText3(text: Text, rest: seq<byte>, s: State)
    requires |text| < MAX_COUNT3 && s.stringBytes + |text| <= MAX_STRING_BYTES
    ensures ReadText3(Text3(text) + rest, s) == Ok(text, rest, Remembered(s, text))
  {
    hide ReadU29;
    var b := Text3(text) + rest;
    assert b == Header3(|text|) + (text + rest);
    ReadsHeader3(|text|, text + rest);
    assert (text + rest)[..|text|] == text && (text + rest)[|text|..] == rest;
  }

  /** The AMF0 leaves. */
  lemma Leaf0Reads(l: Leaf, rest: seq<byte>, s: State)
    requires LeafFits(l, Zero)
    ensures Typed0(LeafMarker(l), LeafBody(l, Zero) + rest, s) == Leafed(l, rest, s)
  {
    hide Leafed, ReadShort, ReadLong, ReadObject0, ReadReference0, ReadEcmaArray0, ReadStrictArray0,
         ReadTypedObject0, ReadContainer0, ShortText, LongText;
    var b := LeafBody(l, Zero) + rest;
    match l {
      case Number(bits) => assert b[..8] == bits && b[8..] == rest;
      case Boolean(flag) => assert b[0] == Flag(flag) && b[1..] == rest;
      case String(text) => ReadsShort(text, rest);
      case Null => assert b == rest;
      case Undefined => assert b == rest;
      case Date(bits) => assert b[..8] == bits && b[10..] == rest;
      case LongString(text) =>
        ReadsLong(text, rest);
        LongLength(text);
      case Unsupported => assert b == rest;
      case XmlDocument(text) => ReadsLong(text, rest);
    }
  }

  lemma LongLength(text: Text)
    requires |text| < 0x1_0000_0000
    ensures |LongText(text)| >= 4
  {
  }

  lemma OneLess(n: nat, size: nat)
    requires n > 0
    ensures n * size == size + (n - 1) * size
  {
  }

  lemma {:induction false} FlatLength(words: seq<Text>, size: nat)
    requires forall w | w in words :: |w| == size
    ensures |Flat(words)| == |words| * size
  {
    if words == [] {
    } else {
      FlatLength(words[1..], size);
      OneLess(|words|, size);
      assert |words[0]| == size;
    }
  }

  lemma {:induction false} WordsOfFlat(words: seq<Text>, size: nat, rest: seq<byte>)
    requires forall w | w in words :: |w| == size
    ensures |words| * size <= |Flat(words) + rest| && Words(Flat(words) + rest, |words|, size) == words
  {
    FlatLength(words, size);
    if words == [] {
    } else {
      var b := Flat(words) + rest;
      WordsOfFlat(words[1..], size, rest);
      OneLess(|words|, size);
      assert |words[0]| == size;
      assert b[..size] == words[0] && b[size..] == Flat(words[1..]) + rest;
    }
  }

  lemma Numbers3Reads(marker: byte, fixed: bool, words: seq<Text>, rest: seq<byte>, s: State)
    requires LeafFits(Numbers3(marker, fixed, words), Three)
    ensures ReadInlineLeaf3(marker, |words|, [Flag(fixed)] + (Flat(words) + rest), s)
         == LeafedAndRegistered(Numbers3(marker, fixed, words), rest, s)
  {
    hide LeafedAndRegistered, Flat, Words, ReadInlineLeaf3, WordSize;
    var size := WordSize(marker);
    var flat := Flat(words);
    var b := [Flag(fixed)] + (flat + rest);
    WordsOfFlat(words, size, rest);
    FlatLength(words, size);
    assert b[1..] == flat + rest;
    assert b[1 + |flat|..] == rest;
    NumbersLeaf(marker, |words|, |flat|, b, s);
  }

  lemma NumbersLeaf(marker: byte, n: nat, k: nat, b: seq<byte>, s: State)
    requires IsVectorOfNumbers(marker) && k == n * WordSize(marker) && k < |b|
    ensures ReadInlineLeaf3(marker, n, b, s)
         == LeafedAndRegistered(Numbers3(marker, b[0] != 0, Words(b[1..], n, WordSize(marker))), b[1 + k..], s)
  {
    hide LeafedAndRegistered, Words, WordSize;
  }

  /** Values that are complete at once and referenceable. */
  lemma Inline3Reads(l: Leaf, rest: seq<byte>, s: State)
    requires LeafFits(l, Three) && (l.Xml3? || l.Date3? || l.ByteArray3? || l.Numbers3?)
    ensures Typed3(LeafMarker(l), LeafBody(l, Three) + rest, s) == LeafedAndRegistered(l, rest, s)
  {
    hide LeafedAndRegistered, Typed3, Flat, Header3;
    var b := LeafBody(l, Three) + rest;
    match l {
      case Xml3(marker, text) =>
        assert b == Header3(|text|) + (text + rest);
        Inline3Text(l, marker, text, rest, s);
      case Date3(bits) =>
        assert b == WriteU29(1) + (bits + rest);
        Date3Reads(bits, rest, s);
      case ByteArray3(text) =>
        assert b == Header3(|text|) + (text + rest);
        Inline3Text(l, 0x0C, text, rest, s);
      case Numbers3(marker, fixed, words) =>
        assert b == Header3(|words|) + ([Flag(fixed)] + (Flat(words) + rest));
        InlineHeader(marker, |words|, [Flag(fixed)] + (Flat(words) + rest), s);
        InlineLeaf(marker, |words|, [Flag(fixed)] + (Flat(words) + rest), s);
        Numbers3Reads(marker, fixed, words, rest, s);
    }
  }

  lemma InlineLeaf(marker: byte, n: nat, b: seq<byte>, s: State)
    requires marker == 7 || marker == 8 || 0x0B <= marker <= 0x0F
    ensures Inline3(marker, n, b, s) == ReadInlineLeaf3(marker, n, b, s)
  {
    hide ReadInlineLeaf3;
  }

  lemma Inline3Text(l: Leaf, marker: byte, text: Text, rest: seq<byte>, s: State)
    requires |text| < MAX_COUNT3
    requires (l == Xml3(marker, text) && (marker == 7 || marker == 0x0B)) || (l == ByteArray3(text) && marker == 0x0C)
    ensures Typed3(marker, Header3(|text|) + (text + rest), s) == LeafedAndRegistered(l, rest, s)
  {
    hide LeafedAndRegistered, Typed3, Header3, Inline3;
    InlineHeader(marker, |text|, text + rest, s);
    InlineLeaf(marker, |text|, text + rest, s);
    assert (text + rest)[..|text|] == text && (text + rest)[|text|..] == rest;
  }

  lemma Date3Reads(bits: Text, rest: seq<byte>, s: State)
    requires |bits| == 8
    ensures Typed3(8, WriteU29(1) + (bits + rest), s) == LeafedAndRegistered(Date3(bits), rest, s)
  {
    hide LeafedAndRegistered, Typed3, Inline3;
    InlineHeader(8, 0, bits + rest, s);
    InlineLeaf(8, 0, bits + rest, s);
    assert (bits + rest)[..8] == bits && (bits + rest)[8..] == rest;
  }

  /** The AMF3 leaves that are never shared. */
  lemma Plain3Reads(l: Leaf, rest: seq<byte>, s: State)
    requires LeafFits(l, Three) && (l.Simple3? || l.Integer3? || l.Double3?)
    ensures Typed3(LeafMarker(l), LeafBody(l, Three) + rest, s) == Leafed(l, rest, s)
  {
    hide Leafed, ReadU29, ReadText3, WriteU29;
    var b := LeafBody(l, Three) + rest;
    match l {
      case Simple3(_) => assert b == rest;
      case Integer3(n) =>
        ReadsU29(n, rest);
        SignedExactly(n);
      case Double3(bits) => assert b[..8] == bits && b[8..] == rest;
    }
  }

  lemma LeafedDenotes(l: Leaf, rest: seq<byte>, s: State)
    ensures Denotes(Leafed(l, rest, s).s.built, s.next, Leaf(l))
    ensures Denotes(LeafedAndRegistered(l, rest, s).s.built, s.next, Leaf(l))
  {
  }

  lemma LeafReads(l: Leaf, f: Format, rest: seq<byte>, s: State)
    requires LeafFits(l, f) && s.stringBytes + Strings(Leaf(l), f) <= MAX_STRING_BYTES
    ensures var r := TypedAny(LeafMarker(l), LeafBody(l, f) + rest, s, f);
            && r.Ok? && r.rest == rest && Denotes(r.s.built, r.value, Leaf(l))
            && Spent(s, r.s, 0, Strings(Leaf(l), f))
  {
    hide Typed0, Typed3, LeafBody, Denotes;
    if f.Zero? {
      Leaf0Reads(l, rest, s);
      LeafedDenotes(l, rest, s);
    } else if l.String3? {
      String3Reads(l.text, rest, s);
      LeafedDenotes(l, rest, Remembered(s, l.text));
    } else if l.Simple3? || l.Integer3? || l.Double3? {
      Plain3Reads(l, rest, s);
      LeafedDenotes(l, rest, s);
    } else {
      Inline3Reads(l, rest, s);
      LeafedDenotes(l, rest, s);
    }
  }

  lemma String3Reads(text: Text, rest: seq<byte>, s: State)
    requires |text| < MAX_COUNT3 && s.stringBytes + |text| <= MAX_STRING_BYTES
    ensures Typed3(6, LeafBody(String3(text), Three) + rest, s) == Leafed(String3(text), rest, Remembered(s, text))
  {
    hide ReadText3, Text3, Remembered, Leafed;
    ReadsText3(text, rest, s);
  }

  // ---- members ------------------------------------------------------------------------------------------

  lemma MeasureStep(v: Value, f: Format, i: nat)
    requires v.Composite? && i < |v.children|
    ensures NodesFrom(v, i) == Nodes(v.children[i]) + NodesFrom(v, i + 1)
    ensures HeightFrom(v, i) >= Height(v.children[i]) && HeightFrom(v, i) >= HeightFrom(v, i + 1)
    ensures StringsFrom(v, f, i)
         == (if f.Three? && i < |v.keys| then |v.keys[i]| else 0)
            + Strings(v.children[i], ChildFormat(v.kind, f)) + StringsFrom(v, f, i + 1)
  {
  }

  lemma ChildFits(v: Value, f: Format, i: nat)
    requires v.Composite? && Fits(v, f) && i < |v.children|
    ensures Fits(v.children[i], ChildFormat(v.kind, f))
  {
    assert v.children[i] in v.children;
  }

  predicate HasEntries0(kind: Kind) {
    kind.Object0? || kind.EcmaArray0? || kind.TypedObject0?
  }

  predicate HasItems(kind: Kind) {
    kind.StrictArray0? || kind.Array3? || kind.Vector3? || kind.Dictionary3?
  }

  function ItemsAny(count: nat, b: seq<byte>, s: State, addrs: seq<nat>, f: Format): Out<Members> {
    if f.Zero? then Items0(count, b, s, addrs) else Items3(count, b, s, addrs)
  }

  lemma AnyKeeps(b: seq<byte>, s: State, f: Format)
    requires Inv(s)
    ensures FineValue(s, b, ReadAny(b, s, f), f) && Inv(ReadAny(b, s, f).s) && Grows(s, ReadAny(b, s, f).s)
  {
    hide Inv, Grows, TablesKept, Read0, Read3, Suffix;
    if f.Zero? { Read0Keeps(b, s); } else { Read3Keeps(b, s); }
  }

  lemma ItemsAnyUnfolds(count: nat, b: seq<byte>, s: State, addrs: seq<nat>, f: Format)
    ensures ItemsAny(count, b, s, addrs, f) ==
      if count == 0 then Ok(Members([], addrs), b, s)
      else
        var r := ReadAny(b, s, f);
        if r.Fail? then Fail(r.s, r.error) else ItemsAny(count - 1, r.rest, r.s, addrs + [r.value], f)
  {
    hide Read0, Read3, Items0, Items3;
    Items0Unfolds(count, b, s, addrs);
    Items3Unfolds(count, b, s, addrs);
  }

  /** The items from the i-th on, with the addresses of what stands before them in
      `front` and of the items already read in `addrs`. */
  lemma {:induction false} ItemsRead(v: Value, f: Format, i: nat, rest: seq<byte>, s: State, front: seq<nat>, addrs: seq<nat>)
    requires v.Composite? && HasItems(v.kind) && Fits(v, f) && i <= |v.children| && Inv(s) && WithinFrom(v, f, i, s)
    requires f.Zero? ==> RoomFrom(v, i, |rest|)
    requires i >= |v.keys| && DenoteTo(s.built, front + addrs, v, i)
    ensures var r := ItemsAny(|v.children| - i, Items(v, f, i) + rest, s, addrs, f);
            && r.Ok? && r.rest == rest && r.value.keys == [] && Inv(r.s) && Grows(s, r.s)
            && DenoteTo(r.s.built, front + r.value.addrs, v, |v.children|)
            && Spent(s, r.s, NodesFrom(v, i), StringsFrom(v, f, i))
    decreases v, 0, |v.children| - i
  {
    hide Inv, Grows, Fits, Denotes, DenoteTo, Nodes, Strings, Height, NodesFrom, StringsFrom, HeightFrom, Write, Items,
         ReadAny, ItemsAny, Fine, Room;
    ItemsAnyUnfolds(|v.children| - i, Items(v, f, i) + rest, s, addrs, f);
    ItemsUnfold(v, f, i);
    if i == |v.children| {
      assert [] + rest == rest;
      GrowsSelf(s);
      NoneFrom(v, f);
    } else {
      var c, g := v.children[i], ChildFormat(v.kind, f);
      var tail := Items(v, f, i + 1) + rest;
      MeasureStep(v, f, i);
      ChildFits(v, f, i);
      RoundTripAny(c, g, tail, s);
      assert Items(v, f, i) + rest == Write(c, g) + tail;
      var r := ReadAny(Write(c, g) + tail, s, f);
      AnyKeeps(Write(c, g) + tail, s, f);
      DenoteMore(s, r.s, front + addrs, v, i, r.value);
      assert front + addrs + [r.value] == front + (addrs + [r.value]);
      ItemsRead(v, f, i + 1, rest, r.s, front, addrs + [r.value]);
      GrowsTransitive(s, r.s, ItemsAny(|v.children| - (i + 1), tail, r.s, addrs + [r.value], f).s);
    }
  }

  lemma GrowsSelf(s: State)
    ensures Grows(s, s)
  {
  }

  lemma GrowsTransitive(s: State, t: State, u: State)
    requires Grows(s, t) && Grows(t, u)
    ensures Grows(s, u)
  {
  }

  lemma NoneFrom(v: Value, f: Format)
    requires v.Composite?
    ensures NodesFrom(v, |v.children|) == 0 && StringsFrom(v, f, |v.children|) == 0 && HeightFrom(v, |v.children|) == 0
  {
  }

  lemma ItemsUnfold(v: Value, f: Format, i: nat)
    requires v.Composite? && Fits(v, f) && i <= |v.children|
    ensures i == |v.children| ==> Items(v, f, i) == []
    ensures i < |v.children| ==>
              && Fits(v.children[i], ChildFormat(v.kind, f))
              && Items(v, f, i) == Write(v.children[i], ChildFormat(v.kind, f)) + Items(v, f, i + 1)
  {
  }

  /** The value's marker is never the object-end marker. */
  lemma NotTheEnd(key: Key, c: Value, tail: seq<byte>)
    requires |key| <= MAX_SHORT && Fits(c, Zero)
    ensures !AtEnd(ShortText(key) + (Write(c, Zero) + tail)) && |ShortText(key) + (Write(c, Zero) + tail)| >= 3
  {
    hide Body, LeafBody;
    var w := Write(c, Zero);
    assert |w| >= 1 && w[0] != 9;
    var b := ShortText(key) + (w + tail);
    assert b[0] == |key| / 0x100 && b[1] == |key| % 0x100;
    if key == [] {
      assert b[2] == w[0];
    }
  }

  lemma NamedUnfold(v: Value, f: Format, i: nat)
    requires v.Composite? && Fits(v, f) && i <= |v.keys|
    ensures i == |v.keys| ==> Named(v, f, i) == Terminator(v.kind) + Items(v, f, i)
    ensures i < |v.keys| ==>
              && i < |v.children| && Fits(v.children[i], ChildFormat(v.kind, f))
              && (if f.Zero? then |v.keys[i]| <= MAX_SHORT else 0 < |v.keys[i]| < MAX_COUNT3)
              && Named(v, f, i)
                 == KeyBytes(f, v.keys[i]) + Write(v.children[i], ChildFormat(v.kind, f)) + Named(v, f, i + 1)
  {
    if i < |v.keys| {
      KeysFit(v.kind, f, v.keys, |v.children|, i);
      ChildFits(v, f, i);
    }
  }

  lemma {:induction false} NamedLength(v: Value, i: nat)
    requires v.Composite? && HasEntries0(v.kind) && Fits(v, Zero) && i <= |v.keys|
    ensures |Named(v, Zero, i)| >= 3
    decreases |v.keys| - i
  {
    NamedUnfold(v, Zero, i);
    if i >= |v.keys| {
    } else {
      NamedLength(v, i + 1);
    }
  }

  lemma EntryIsNew(keys: seq<Key>, i: nat)
    requires i < |keys| && Distinct(keys)
    ensures keys[i] !in keys[..i]
  {
  }

  /** The members of an AMF0 object, mixed array or typed object from the i-th on. */
  lemma {:induction false} EntriesRead0(v: Value, i: nat, rest: seq<byte>, s: State, m: Members, unique: bool)
    requires v.Composite? && HasEntries0(v.kind) && Fits(v, Zero) && i <= |v.keys| == |v.children|
    requires Inv(s) && WithinFrom(v, Zero, i, s) && (unique ==> Distinct(v.keys))
    requires m.keys == v.keys[..i] && DenoteTo(s.built, m.addrs, v, i)
    ensures var r := Entries0(Named(v, Zero, i) + rest, s, m, unique);
            && r.Ok? && r.rest == rest && r.value.keys == v.keys && Inv(r.s) && Grows(s, r.s)
            && DenoteTo(r.s.built, r.value.addrs, v, |v.children|)
            && Spent(s, r.s, NodesFrom(v, i), StringsFrom(v, Zero, i))
    decreases v, 0, |v.keys| - i
  {
    hide Inv, Grows, Fits, Denotes, DenoteTo, Nodes, Strings, Height, NodesFrom, StringsFrom, HeightFrom, Write, Items,
         Named, Read0, Entries0, Fine, Room, ReadShort, ShortText, Distinct;
    var b := Named(v, Zero, i) + rest;
    Entries0Unfolds(b, s, m, unique);
    NamedUnfold(v, Zero, i);
    if i == |v.keys| {
      ItemsUnfold(v, Zero, i);
      assert b == END_OF_OBJECT + rest;
      assert b[3..] == rest;
      GrowsSelf(s);
      NoneFrom(v, Zero);
      assert v.keys[..i] == v.keys;
    } else {
      var key, c := v.keys[i], v.children[i];
      var tail := Named(v, Zero, i + 1) + rest;
      assert b == ShortText(key) + (Write(c, Zero) + tail);
      NotTheEnd(key, c, tail);
      ReadsShort(key, Write(c, Zero) + tail);
      MeasureStep(v, Zero, i);
      NamedLength(v, i + 1);
      RoomEnough(c, |tail|);
      RoundTripAny(c, Zero, tail, s);
      var r := Read0(Write(c, Zero) + tail, s);
      AnyKeeps(Write(c, Zero) + tail, s, Zero);
      DenoteMore(s, r.s, m.addrs, v, i, r.value);
      if unique { EntryIsNew(v.keys, i); }
      var m' := AddEntry(m, key, r.value, unique);
      assert m'.keys == v.keys[..i + 1];
      EntriesRead0(v, i + 1, rest, r.s, m', unique);
      GrowsTransitive(s, r.s, Entries0(tail, r.s, m', unique).s);
    }
  }

  /** Assigning a key after all others appends it. */
  lemma AssignLast(m: Members, key: Key, addr: nat)
    requires |m.addrs| == |m.keys| && forall k | k in m.keys :: Before(k, key)
    ensures Assign(m, key, addr) == Members(m.keys + [key], m.addrs + [addr])
  {
    PlaceLast(m.keys, key);
    assert m.keys[..|m.keys|] == m.keys && m.addrs[..|m.addrs|] == m.addrs;
  }

  lemma {:induction false} PlaceLast(keys: seq<Key>, key: Key)
    requires forall k | k in keys :: Before(k, key)
    ensures Place(keys, key) == |keys|
  {
    if keys == [] {
    } else {
      PlaceLast(keys[1..], key);
    }
  }

  lemma RememberedQuiet(s: State, text: Text)
    requires Inv(s) && s.stringBytes + |text| <= MAX_STRING_BYTES
    ensures Inv(Remembered(s, text)) && Grows(s, Remembered(s, text))
  {
    hide Topological, Honest;
    QuietKeeps(s, Remembered(s, text), Three);
  }

  /** The associative members of an AMF3 array, or all of an AMF3 object's. */
  lemma {:induction false} EntriesRead3(v: Value, i: nat, rest: seq<byte>, s: State, m: Members)
    requires v.Composite? && (v.kind.Array3? || v.kind.Object3?) && Fits(v, Three) && i <= |v.keys| <= |v.children|
    requires Inv(s) && WithinFrom(v, Three, i, s)
    requires m.keys == v.keys[..i] && DenoteTo(s.built, m.addrs, v, i)
    ensures |m.addrs| == |m.keys|
    ensures var r := Entries3(Named(v, Three, i) + rest, s, m);
            && r.Ok? && r.rest == Items(v, Three, |v.keys|) + rest && r.value.keys == v.keys && Inv(r.s) && Grows(s, r.s)
            && DenoteTo(r.s.built, r.value.addrs, v, |v.keys|)
            && Spent(s, r.s, NodesFrom(v, i) - NodesFrom(v, |v.keys|),
                     StringsFrom(v, Three, i) - StringsFrom(v, Three, |v.keys|))
    decreases v, 0, |v.keys| - i
  {
    hide Inv, Grows, Fits, Denotes, Nodes, Strings, Height, NodesFrom, StringsFrom, HeightFrom, Write, Items,
         Named, Read3, Entries3, Fine, ReadText3, Text3, Remembered, Assign;
    var b := Named(v, Three, i) + rest;
    Entries3Unfolds(b, s, m);
    NamedUnfold(v, Three, i);
    if i == |v.keys| {
      assert b == Text3([]) + (Items(v, Three, i) + rest);
      ReadsText3([], Items(v, Three, i) + rest, s);
      assert Remembered(s, []) == s by { NothingRemembered(s); }
      GrowsSelf(s);
      assert v.keys[..i] == v.keys;
    } else {
      var key, c := v.keys[i], v.children[i];
      var tail := Named(v, Three, i + 1) + rest;
      assert b == Text3(key) + (Write(c, Three) + tail);
      MeasureStep(v, Three, i);
      ReadsText3(key, Write(c, Three) + tail, s);
      var t := Remembered(s, key);
      RememberedQuiet(s, key);
      RememberedCost(s, key);
      RoundTripAny(c, Three, tail, t);
      var r := Read3(Write(c, Three) + tail, t);
      AnyKeeps(Write(c, Three) + tail, t, Three);
      GrowsTransitive(s, t, r.s);
      DenoteMore(s, r.s, m.addrs, v, i, r.value);
      KeysAscend(v, i);
      AssignLast(m, key, r.value);
      var m' := Assign(m, key, r.value);
      assert m'.keys == v.keys[..i + 1];
      EntriesRead3(v, i + 1, rest, r.s, m');
      GrowsTransitive(s, r.s, Entries3(tail, r.s, m').s);
    }
  }

  lemma NothingRemembered(s: State)
    ensures Remembered(s, []) == s
  {
  }

  lemma RememberedCost(s: State, text: Text)
    ensures var t := Remembered(s, text);
            t.depth == s.depth && t.nodes == s.nodes && t.stringBytes == s.stringBytes + |text| && t.built == s.built
  {
  }

  lemma KeysAscend(v: Value, i: nat)
    requires v.Composite? && (v.kind.Array3? || v.kind.Object3?) && Fits(v, Three) && i < |v.keys|
    ensures forall k | k in v.keys[..i] :: Before(k, v.keys[i])
  {
  }

  // ---- composites ------------------------------------------------------------------------------------------

  /** The reading of a typed body, the value itself already charged. */
  predicate TypedReads(v: Value, f: Format, r: Out<nat>, rest: seq<byte>, s: State) {
    r.Ok? && r.rest == rest && Denotes(r.s.built, r.value, v) && Spent(s, r.s, Nodes(v) - 1, Strings(v, f))
  }

  lemma NodeDenotes(built: map<nat, Node>, a: nat, v: Value, addrs: seq<nat>)
    requires v.Composite? && a !in built && DenoteTo(built, addrs, v, |v.children|)
    ensures Denotes(built[a := CompositeNode(v.kind, v.keys, addrs)], a, v)
  {
    hide Denotes;
    var later := built[a := CompositeNode(v.kind, v.keys, addrs)];
    DenoteStill(built, later, addrs, v, |v.children|);
    DenotesUnfolds(later, a, v);
  }

  lemma DenotesUnfolds(built: map<nat, Node>, a: nat, v: Value)
    requires v.Composite? && a in built && built[a].CompositeNode?
    requires built[a].kind == v.kind && built[a].keys == v.keys && DenoteTo(built, built[a].children, v, |v.children|)
    ensures Denotes(built, a, v)
  {
  }

  /** Completing an AMF0 value whose members have been read. */
  lemma Complete0Denotes(v: Value, b: seq<byte>, rest: seq<byte>, s: State, m: Members, t: State)
    requires v.Composite? && Paid(s) && FineMembers(Registered0(s), b, Ok(m, rest, t), Zero)
    requires m.keys == v.keys && DenoteTo(t.built, m.addrs, v, |v.children|)
    ensures var r := Complete0(|s.refs|, v.kind, Ok(m, rest, t));
            r.Ok? && r.rest == rest && Denotes(r.s.built, r.value, v) && Spent(t, r.s, 0, 0)
  {
    hide Topological, Honest, Denotes, Suffix, DenoteTo;
    assert Registered0(s).refs[|s.refs|] == t.refs[|s.refs|];
    assert s.next !in t.built;
    NodeDenotes(t.built, s.next, v, m.addrs);
  }

  lemma Complete3Denotes(v: Value, b: seq<byte>, rest: seq<byte>, s: State, keys: seq<Key>, addrs: seq<nat>, m: Members, t: State)
    requires v.Composite? && Paid(s) && FineMembers(Registered3(s), b, Ok(m, rest, t), Three)
    requires keys + m.keys == v.keys && DenoteTo(t.built, addrs + m.addrs, v, |v.children|)
    ensures var r := Complete3(|s.tables.objects|, v.kind, keys, addrs, Ok(m, rest, t));
            r.Ok? && r.rest == rest && Denotes(r.s.built, r.value, v) && Spent(t, r.s, 0, 0)
  {
    hide Topological, Honest, Denotes, Suffix, DenoteTo;
    assert Registered3(s).tables.objects[|s.tables.objects|] == t.tables.objects[|s.tables.objects|];
    assert s.next !in t.built;
    NodeDenotes(t.built, s.next, v, addrs + m.addrs);
  }

  /** Objects, mixed arrays and typed objects, once past what stands before the members. */
  lemma {:induction false} Entries0Complete(v: Value, rest: seq<byte>, s: State, unique: bool)
    requires v.Composite? && HasEntries0(v.kind) && Fits(v, Zero) && Paid(s) && WithinFrom(v, Zero, 0, s)
    requires unique ==> Distinct(v.keys)
    ensures TypedReads(v, Zero,
              Complete0(|s.refs|, v.kind, Entries0(Named(v, Zero, 0) + rest, Registered0(s), NO_MEMBERS, unique)), rest, s)
    decreases v, 0, |v.children| + 2
  {
    hide Inv, Grows, TablesKept, Fits, Denotes, Height, NodesFrom, StringsFrom, HeightFrom, Named, Entries0, Complete0,
         Distinct, FineMembers;
    RegisterKeeps0(s);
    var s' := Registered0(s);
    var b := Named(v, Zero, 0) + rest;
    assert v.keys[..0] == [];
    assert |v.keys| == |v.children| by { EntriesShape(v); }
    EntriesRead0(v, 0, rest, s', NO_MEMBERS, unique);
    Entries0Keeps(b, s', NO_MEMBERS, unique);
    var r := Entries0(b, s', NO_MEMBERS, unique);
    Complete0Denotes(v, b, rest, s, r.value, r.s);
  }

  lemma EntriesShape(v: Value)
    requires v.Composite? && HasEntries0(v.kind) && Fits(v, Zero)
    ensures |v.keys| == |v.children| && (if v.kind.EcmaArray0? then |v.children| < 0x1_0000_0000 else Distinct(v.keys))
    ensures v.kind.TypedObject0? ==> |v.kind.name| <= MAX_SHORT
  {
  }

  lemma {:induction false} ObjectReads0(v: Value, rest: seq<byte>, s: State)
    requires v.Composite? && HasEntries0(v.kind) && Fits(v, Zero) && Paid(s) && WithinFrom(v, Zero, 0, s)
    ensures TypedReads(v, Zero, Typed0(KindMarker(v.kind), Body(v, Zero) + rest, s), rest, s)
    decreases v, 1, 0
  {
    hide Paid, Fits, Denotes, HeightFrom, NodesFrom, StringsFrom, Named, Entries0, Complete0, Distinct, TypedReads,
         Registered0, ReadShort, ShortText;
    EntriesShape(v);
    NamedLength(v, 0);
    var named := Named(v, Zero, 0) + rest;
    var b := Body(v, Zero) + rest;
    if v.kind.Object0? {
      Entries0Complete(v, rest, s, true);
      assert b == named;
    } else if v.kind.EcmaArray0? {
      Entries0Complete(v, rest, s, false);
      assert b == Be32(|v.children|) + named;
      assert b[4..] == named;
    } else {
      Entries0Complete(v, rest, s, true);
      assert b == ShortText(v.kind.name) + named;
      ReadsShort(v.kind.name, named);
    }
  }

  lemma {:induction false} StrictReads0(v: Value, rest: seq<byte>, s: State)
    requires v.Composite? && v.kind.StrictArray0? && Fits(v, Zero) && Paid(s) && WithinFrom(v, Zero, 0, s)
    requires Room(v, |rest|)
    ensures TypedReads(v, Zero, Typed0(KindMarker(v.kind), Body(v, Zero) + rest, s), rest, s)
    decreases v, 1, 0
  {
    hide Inv, Grows, TablesKept, Fits, Denotes, Height, NodesFrom, StringsFrom, HeightFrom, Items, Items0, Complete0,
         FineMembers, RoomFrom;
    StrictBody(v, rest);
    var n, items := |v.children|, Items(v, Zero, 0) + rest;
    var b := Body(v, Zero) + rest;
    assert b == Be32(n) + items;
    ReadsBe32(n, items);
    RegisterKeeps0(s);
    var s' := Registered0(s);
    ItemsRead(v, Zero, 0, rest, s', [], []);
    Items0Keeps(n, items, s', []);
    var r := Items0(n, items, s', []);
    assert [] + r.value.addrs == r.value.addrs;
    Complete0Denotes(v, items, rest, s, r.value, r.s);
  }

  lemma StrictBody(v: Value, rest: seq<byte>)
    requires v.Composite? && v.kind.StrictArray0? && Fits(v, Zero)
    ensures v.keys == [] && |v.children| < 0x1_0000_0000
    ensures Body(v, Zero) + rest == Be32(|v.children|) + (Items(v, Zero, 0) + rest)
  {
    hide Items;
    assert Named(v, Zero, 0) == [] + Items(v, Zero, 0);
  }

  lemma {:induction false} ContainerReads0(v: Value, rest: seq<byte>, s: State)
    requires v.Composite? && v.kind.Container0? && Fits(v, Zero) && Paid(s) && WithinFrom(v, Zero, 0, s)
    ensures TypedReads(v, Zero, Typed0(KindMarker(v.kind), Body(v, Zero) + rest, s), rest, s)
    decreases v, 1, 0
  {
    hide Topological, Fits, Denotes, Height, NodesFrom, StringsFrom, HeightFrom, Write, Read3, Suffix;
    ContainerBody(v, rest);
    var c := v.children[0];
    var s' := Allocated(s).(tables := NO_TABLES);
    AllocateKeeps(s);
    assert Inv(s');
    MeasureStep(v, Zero, 0);
    NoneFrom(v, Zero);
    RoundTripAny(c, Three, rest, s');
    AnyKeeps(Write(c, Three) + rest, s', Three);
    var r := Read3(Write(c, Three) + rest, s');
    assert s.next !in r.s.built;
    assert DenoteTo(r.s.built, [r.value], v, 1);
    NodeDenotes(r.s.built, s.next, v, [r.value]);
  }

  lemma ContainerBody(v: Value, rest: seq<byte>)
    requires v.Composite? && v.kind.Container0? && Fits(v, Zero)
    ensures v.keys == [] && |v.children| == 1 && Fits(v.children[0], Three)
    ensures Body(v, Zero) + rest == Write(v.children[0], Three) + rest
  {
    hide Write;
    ChildFits(v, Zero, 0);
    assert Items(v, Zero, 1) == [];
    assert Items(v, Zero, 0) == Write(v.children[0], Three) + [];
    assert Named(v, Zero, 0) == [] + Items(v, Zero, 0);
    assert Body(v, Zero) == [] + Named(v, Zero, 0);
  }

  /** The main lemma: within the budgets, reading undoes writing. */
  lemma {:induction false} RoundTripAny(v: Value, f: Format, rest: seq<byte>, s: State)
    requires Fits(v, f) && Inv(s) && Within(v, f, s) && (f.Zero? ==> Room(v, |rest|))
    ensures Reads(v, f, ReadAny(Write(v, f) + rest, s, f), rest, s)
    decreases v, 2
  {
    hide Inv, Denotes, Typed0, Typed3, LeafBody, Body, HeightFrom, NodesFrom, StringsFrom, Room;
    var c := Charged(Deeper(s));
    DeeperKeeps(s);
    var b := Write(v, f) + rest;
    if v.Leaf? {
      assert b[1..] == LeafBody(v.leaf, f) + rest;
      LeafReads(v.leaf, f, rest, c);
    } else {
      assert b[1..] == Body(v, f) + rest;
      CompositeReads(v, f, rest, c);
    }
  }

  lemma {:induction false} CompositeReads(v: Value, f: Format, rest: seq<byte>, s: State)
    requires v.Composite? && Fits(v, f) && Paid(s) && (f.Zero? ==> Room(v, |rest|))
    requires s.depth + HeightFrom(v, 0) <= MAX_DEPTH && s.nodes + NodesFrom(v, 0) <= MAX_NODES
    requires s.stringBytes + Strings(v, f) <= MAX_STRING_BYTES
    ensures TypedReads(v, f, TypedAny(KindMarker(v.kind), Body(v, f) + rest, s, f), rest, s)
    decreases v, 1, 1
  {
    hide Paid, Denotes, Typed0, Typed3, Body, HeightFrom, NodesFrom, StringsFrom, TypedReads, Room;
    if f.Zero? {
      if v.kind.StrictArray0? {
        StrictReads0(v, rest, s);
      } else if v.kind.Container0? {
        ContainerReads0(v, rest, s);
      } else {
        ObjectReads0(v, rest, s);
      }
    } else if v.kind.Array3? {
      ArrayReads3(v, rest, s);
    } else if v.kind.Object3? {
      ObjectReads3(v, rest, s);
    } else if v.kind.Vector3? {
      VectorReads3(v, rest, s);
    } else {
      DictionaryReads3(v, rest, s);
    }
  }

  /** The header of a referenceable AMF3 value sent inline. */
  lemma InlineHeader(marker: byte, n: nat, rest: seq<byte>, s: State)
    requires 7 <= marker <= 0x11 && n < MAX_COUNT3
    ensures Typed3(marker, Header3(n) + rest, s) == Inline3(marker, n, rest, s)
  {
    hide ReadU29, Inline3, ReadText3, Header3;
    ReadsHeader3(n, rest);
  }

  lemma {:induction false} ArrayReads3(v: Value, rest: seq<byte>, s: State)
    requires v.Composite? && v.kind.Array3? && Fits(v, Three) && Paid(s) && WithinFrom(v, Three, 0, s)
    ensures TypedReads(v, Three, Typed3(KindMarker(v.kind), Body(v, Three) + rest, s), rest, s)
    decreases v, 1, 0
  {
    hide Inv, Grows, TablesKept, Fits, Denotes, Height, NodesFrom, StringsFrom, HeightFrom, Items, Items3, Named,
         Entries3, Complete3, Typed3, Header3;
    ArrayShape(v);
    var count := |v.children| - |v.keys|;
    var named := Named(v, Three, 0) + rest;
    assert Body(v, Three) + rest == Header3(count) + named;
    InlineHeader(9, count, named, s);
    RegisterKeeps3(s);
    var s' := Registered3(s);
    assert v.keys[..0] == [];
    EntriesRead3(v, 0, rest, s', NO_MEMBERS);
    Entries3Keeps(named, s', NO_MEMBERS);
    var m := Entries3(named, s', NO_MEMBERS);
    var items := Items(v, Three, |v.keys|) + rest;
    RestWithin(v, |v.keys|, s', m.s);
    assert m.value.addrs + [] == m.value.addrs;
    ItemsRead(v, Three, |v.keys|, rest, m.s, m.value.addrs, []);
    Items3Keeps(count, items, m.s, []);
    var r := Items3(count, items, m.s, []);
    ThenMembers(s', named, m.s, items, r, Three);
    assert m.value.keys + [] == v.keys;
    Complete3Denotes(v, named, rest, s, m.value.keys, m.value.addrs, r.value, r.s);
  }

  lemma ArrayShape(v: Value)
    requires v.Composite? && v.kind.Array3? && Fits(v, Three)
    ensures |v.keys| <= |v.children| && |v.children| - |v.keys| < MAX_COUNT3
    ensures Body(v, Three) == Header3(|v.children| - |v.keys|) + Named(v, Three, 0)
  {
    hide Named;
  }

  /** What is left after the members read so far is within the budgets. */
  lemma {:induction false} RestWithin(v: Value, i: nat, s: State, t: State)
    requires v.Composite? && i <= |v.children| && WithinFrom(v, Three, 0, s)
    requires Spent(s, t, NodesFrom(v, 0) - NodesFrom(v, i), StringsFrom(v, Three, 0) - StringsFrom(v, Three, i))
    ensures WithinFrom(v, Three, i, t)
  {
    hide NodesFrom, StringsFrom, HeightFrom;
    HeightShrinks(v, i);
  }

  lemma {:induction false} HeightShrinks(v: Value, i: nat)
    requires v.Composite? && i <= |v.children|
    ensures HeightFrom(v, i) <= HeightFrom(v, 0)
  {
    if i <= 0 {
    } else {
      HeightShrinks(v, i - 1);
      MeasureStep(v, Three, i - 1);
    }
  }

  lemma {:induction false} ObjectReads3(v: Value, rest: seq<byte>, s: State)
    requires v.Composite? && v.kind.Object3? && Fits(v, Three) && Paid(s) && WithinFrom(v, Three, 0, s)
    ensures TypedReads(v, Three, Typed3(KindMarker(v.kind), Body(v, Three) + rest, s), rest, s)
    decreases v, 1, 0
  {
    hide Inv, Grows, TablesKept, Fits, Denotes, Height, NodesFrom, StringsFrom, HeightFrom, Items, Named,
         Entries3, Complete3, Typed3, Text3, ReadTraits;
    ObjectShape3(v, rest);
    var named := Named(v, Three, 0) + rest;
    ReadsObjectInfo(named, s);
    var t := WithTraits(s);
    QuietKeeps(s, t, Three);
    RegisterKeeps3(t);
    var s' := Registered3(t);
    assert v.keys[..0] == [];
    EntriesRead3(v, 0, rest, s', NO_MEMBERS);
    Entries3Keeps(named, s', NO_MEMBERS);
    NoneFrom(v, Three);
    ItemsUnfold(v, Three, |v.keys|);
    assert [] + rest == rest;
    var m := Entries3(named, s', NO_MEMBERS);
    assert [] + m.value.keys == m.value.keys && [] + m.value.addrs == m.value.addrs;
    Complete3Denotes(v, named, rest, t, [], [], m.value, m.s);
  }

  lemma ObjectShape3(v: Value, rest: seq<byte>)
    requires v.Composite? && v.kind.Object3? && Fits(v, Three)
    ensures |v.keys| == |v.children|
    ensures Body(v, Three) + rest == WriteU29(0x0B) + (Text3([]) + (Named(v, Three, 0) + rest))
  {
    hide Named, Text3;
    assert Body(v, Three) == WriteU29(0x0B) + Text3([]) + Named(v, Three, 0);
  }

  /** The traits of an anonymous dynamic object, remembered. */
  function WithTraits(s: State): State {
    s.(tables := s.tables.(traits := s.tables.traits + [Traits(true, [])]))
  }

  lemma ReadsObjectInfo(rest: seq<byte>, s: State)
    requires s.stringBytes <= MAX_STRING_BYTES
    ensures Typed3(0x0A, WriteU29(0x0B) + (Text3([]) + rest), s)
         == (var t := WithTraits(s);
             Complete3(|t.tables.objects|, Object3, [], [], Entries3(rest, Registered3(t), NO_MEMBERS)))
  {
    hide ReadU29, ReadText3, Text3, Entries3, Complete3, WriteU29, ReadTraits, Sealed3;
    var b := Text3([]) + rest;
    ReadsU29(0x0B, b);
    ReadsAnonymous(rest, s);
    var t := Registered3(WithTraits(s));
    assert Sealed3([], rest, t, NO_MEMBERS) == Ok(NO_MEMBERS, rest, t) by {
      Sealed3Unfolds([], rest, t, NO_MEMBERS);
    }
    assert Typed3(0x0A, WriteU29(0x0B) + b, s) == ReadObject3(5, b, s);
  }

  lemma ReadsAnonymous(rest: seq<byte>, s: State)
    requires s.stringBytes <= MAX_STRING_BYTES
    ensures ReadTraits(5, Text3([]) + rest, s) == Ok(Traits(true, []), rest, WithTraits(s))
  {
    hide ReadText3, Text3;
    ReadsText3([], rest, s);
    NothingRemembered(s);
    assert ReadNames(0, rest, s, []) == Ok([], rest, s);
  }

  lemma {:induction false} VectorReads3(v: Value, rest: seq<byte>, s: State)
    requires v.Composite? && v.kind.Vector3? && Fits(v, Three) && Paid(s)
    requires s.depth + HeightFrom(v, 0) <= MAX_DEPTH && s.nodes + NodesFrom(v, 0) <= MAX_NODES
    requires s.stringBytes + Strings(v, Three) <= MAX_STRING_BYTES
    ensures TypedReads(v, Three, Typed3(KindMarker(v.kind), Body(v, Three) + rest, s), rest, s)
    decreases v, 1, 0
  {
    hide Inv, Grows, TablesKept, Fits, Denotes, Height, NodesFrom, StringsFrom, HeightFrom, Items, Items3,
         Complete3, Typed3, Header3, Text3, ReadText3, Remembered;
    VectorShape(v, rest);
    var n, items := |v.children|, Items(v, Three, 0) + rest;
    var b := [Flag(v.kind.fixed)] + (Text3(v.kind.name) + items);
    InlineHeader(0x10, n, b, s);
    assert b[1..] == Text3(v.kind.name) + items;
    ReadsText3(v.kind.name, items, s);
    var t := Remembered(s, v.kind.name);
    RememberedCost(s, v.kind.name);
    RememberedPaid(s, v.kind.name);
    RegisterKeeps3(t);
    var s' := Registered3(t);
    ItemsLength(v, 0);
    ItemsRead(v, Three, 0, rest, s', [], []);
    Items3Keeps(n, items, s', []);
    var r := Items3(n, items, s', []);
    assert [] + r.value.addrs == r.value.addrs && [] + r.value.keys == v.keys;
    Complete3Denotes(v, items, rest, t, [], [], r.value, r.s);
  }

  lemma RememberedPaid(s: State, text: Text)
    requires Paid(s) && s.stringBytes + |text| <= MAX_STRING_BYTES
    ensures Paid(Remembered(s, text))
  {
    hide Topological, Honest;
    QuietKeeps(s, Remembered(s, text), Three);
  }

  lemma VectorShape(v: Value, rest: seq<byte>)
    requires v.Composite? && v.kind.Vector3? && Fits(v, Three)
    ensures v.keys == [] && |v.children| < MAX_COUNT3 && |v.kind.name| < MAX_COUNT3
    ensures Body(v, Three) + rest
         == Header3(|v.children|) + ([Flag(v.kind.fixed)] + (Text3(v.kind.name) + (Items(v, Three, 0) + rest)))
  {
    hide Items, Header3, Text3;
    assert Named(v, Three, 0) == [] + Items(v, Three, 0);
  }

  /** Every value takes a byte. */
  lemma {:induction false} ItemsLength(v: Value, i: nat)
    requires v.Composite? && Fits(v, Three) && i <= |v.children|
    ensures |Items(v, Three, i)| >= |v.children| - i
    decreases |v.children| - i
  {
    if i >= |v.children| {
    } else {
      ItemsLength(v, i + 1);
    }
  }

  lemma {:induction false} DictionaryReads3(v: Value, rest: seq<byte>, s: State)
    requires v.Composite? && v.kind.Dictionary3? && Fits(v, Three) && Paid(s) && WithinFrom(v, Three, 0, s)
    ensures TypedReads(v, Three, Typed3(KindMarker(v.kind), Body(v, Three) + rest, s), rest, s)
    decreases v, 1, 0
  {
    hide Inv, Grows, TablesKept, Fits, Denotes, Height, NodesFrom, StringsFrom, HeightFrom, Items, Items3,
         Complete3, Typed3, Header3;
    DictionaryShape(v, rest);
    var n, items := |v.children|, Items(v, Three, 0) + rest;
    var b := [Flag(v.kind.weak)] + items;
    InlineHeader(0x11, n / 2, b, s);
    assert b[1..] == items;
    RegisterKeeps3(s);
    var s' := Registered3(s);
    ItemsLength(v, 0);
    ItemsRead(v, Three, 0, rest, s', [], []);
    Items3Keeps(n, items, s', []);
    var r := Items3(n, items, s', []);
    assert n / 2 * 2 == n;
    assert [] + r.value.addrs == r.value.addrs && [] + r.value.keys == v.keys;
    Complete3Denotes(v, items, rest, s, [], [], r.value, r.s);
  }

  lemma DictionaryShape(v: Value, rest: seq<byte>)
    requires v.Composite? && v.kind.Dictionary3? && Fits(v, Three)
    ensures v.keys == [] && |v.children| % 2 == 0 && |v.children| / 2 < MAX_COUNT3
    ensures Body(v, Three) + rest
         == Header3(|v.children| / 2) + ([Flag(v.kind.weak)] + (Items(v, Three, 0) + rest))
  {
    hide Items, Header3;
    assert Named(v, Three, 0) == [] + Items(v, Three, 0);
  }
}
