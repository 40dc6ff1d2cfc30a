/** AMF0 and AMF3 values (`amf0_types.h`, `amf3_types.h`) and the bytes the writers
    give them (`amf0.cpp`, `amf3.cpp`). The writers always inline: no value is ever
    written as a reference. */
module AmfValue {
  import opened Bytes
  import opened OrderedKeys
  import opened U29

  type Text = seq<byte>

  datatype Format = Zero | Three

  /** Values without children. A double is its eight bytes in network order, an
      AMF3 integer its 32-bit pattern, a numeric vector the network-order words. */
  datatype Leaf =
    | Number(bits: Text)
    | Boolean(b: bool)
    | String(text: Text)
    | Null
    | Undefined
    | Date(bits: Text)
    | LongString(text: Text)
    | Unsupported
    | XmlDocument(text: Text)
    | Simple3(marker: byte)
    | Integer3(n: u32)
    | Double3(bits: Text)
    | String3(text: Text)
    | Xml3(marker: byte, text: Text)
    | Date3(bits: Text)
    | ByteArray3(text: Text)
    | Numbers3(marker: byte, fixed: bool, words: seq<Text>)

  datatype Kind =
    | Object0
    | EcmaArray0
    | TypedObject0(name: Text)
    | StrictArray0
    | Container0
    | Array3
    | Object3
    | Vector3(fixed: bool, name: Text)
    | Dictionary3(weak: bool)

  /** The first `|keys|` children are named; the rest are items. A dictionary's
      children are its keys and values in turn. */
  datatype Value = Leaf(leaf: Leaf) | Composite(kind: Kind, keys: seq<Key>, children: seq<Value>)

  const MAX_SHORT: int := 0xFFFF
  const MAX_COUNT3: int := 0x1000_0000
  const END_OF_OBJECT: seq<byte> := [0, 0, 9]

  function WordSize(marker: byte): nat {
    if marker == 0x0F then 8 else 4
  }

  predicate IsVectorOfNumbers(marker: byte) {
    0x0D <= marker <= 0x0F
  }

  // ---- what the writers can carry -------------------------------------------------------

  predicate LeafFits(l: Leaf, f: Format) {
    match l
    case Number(bits) => f.Zero? && |bits| == 8
    case Boolean(_) => f.Zero?
    case String(text) => f.Zero? && |text| <= MAX_SHORT
    case Null => f.Zero?
    case Undefined => f.Zero?
    case Date(bits) => f.Zero? && |bits| == 8
    case LongString(text) => f.Zero? && |text| < 0x1_0000_0000
    case Unsupported => f.Zero?
    case XmlDocument(text) => f.Zero? && |text| < 0x1_0000_0000
    case Simple3(marker) => f.Three? && marker <= 3
    case Integer3(n) => f.Three? && Fits29(n)
    case Double3(bits) => f.Three? && |bits| == 8
    case String3(text) => f.Three? && |text| < MAX_COUNT3
    case Xml3(marker, text) => f.Three? && (marker == 0x07 || marker == 0x0B) && |text| < MAX_COUNT3
    case Date3(bits) => f.Three? && |bits| == 8
    case ByteArray3(text) => f.Three? && |text| < MAX_COUNT3
    case Numbers3(marker, _, words) =>
      && f.Three? && IsVectorOfNumbers(marker) && |words| < MAX_COUNT3
      && forall w | w in words :: |w| == WordSize(marker)
  }

  predicate Distinct(keys: seq<Key>) {
    forall i, j | 0 <= i < j < |keys| :: keys[i] != keys[j]
  }

  predicate ShortKeys(keys: seq<Key>) {
    forall k | k in keys :: |k| <= MAX_SHORT
  }

  /** Member names of an AMF3 map: in order, and never empty, for the empty name
      ends the list. */
  predicate MapKeys(keys: seq<Key>) {
    Ascending(keys) && forall k | k in keys :: 0 < |k| < MAX_COUNT3
  }

  predicate ShapeFits(kind: Kind, f: Format, keys: seq<Key>, n: nat) {
    match kind
    case Object0 => f.Zero? && |keys| == n && Distinct(keys) && ShortKeys(keys)
    case EcmaArray0 => f.Zero? && |keys| == n && ShortKeys(keys) && n < 0x1_0000_0000
    case TypedObject0(name) => f.Zero? && |keys| == n && Distinct(keys) && ShortKeys(keys) && |name| <= MAX_SHORT
    case StrictArray0 => f.Zero? && keys == [] && n < 0x1_0000_0000
    case Container0 => f.Zero? && keys == [] && n == 1
    case Array3 => f.Three? && |keys| <= n && MapKeys(keys) && n - |keys| < MAX_COUNT3
    case Object3 => f.Three? && |keys| == n && MapKeys(keys)
    case Vector3(_, name) => f.Three? && keys == [] && n < MAX_COUNT3 && |name| < MAX_COUNT3
    case Dictionary3(_) => f.Three? && keys == [] && n % 2 == 0 && n / 2 < MAX_COUNT3
  }

  function ChildFormat(kind: Kind, f: Format): Format {
    if kind.Container0? then Three else f
  }

  predicate Fits(v: Value, f: Format) {
    match v
    case Leaf(l) => LeafFits(l, f)
    case Composite(kind, keys, children) =>
      ShapeFits(kind, f, keys, |children|) && forall c | c in children :: Fits(c, ChildFormat(kind, f))
  }

  // ---- the writers ------------------------------------------------------------------------

  function Flag(b: bool): byte {
    if b then 1 else 0
  }

  function ShortText(text: Text): seq<byte>
    requires |text| <= MAX_SHORT
  {
    Be16(|text|) + text
  }

  function LongText(text: Text): seq<byte>
    requires |text| < 0x1_0000_0000
  {
    Be32(|text|) + text
  }

  /** A count or length with the low bit set: not a reference. */
  function Header3(n: nat): seq<byte>
    requires n < MAX_COUNT3
  {
    WriteU29(n * 2 + 1)
  }

  function Text3(text: Text): seq<byte>
    requires |text| < MAX_COUNT3
  {
    Header3(|text|) + text
  }

  function Flat(words: seq<Text>): seq<byte> {
    if words == [] then [] else words[0] + Flat(words[1..])
  }

  /** A leaf's marker. */
  function LeafMarker(l: Leaf): byte {
    match l
    case Number(_) => 0
    case Boolean(_) => 1
    case String(_) => 2
    case Null => 5
    case Undefined => 6
    case Date(_) => 11
    case LongString(_) => 12
    case Unsupported => 13
    case XmlDocument(_) => 15
    case Simple3(marker) => marker
    case Integer3(_) => 4
    case Double3(_) => 5
    case String3(_) => 6
    case Xml3(marker, _) => marker
    case Date3(_) => 8
    case ByteArray3(_) => 0x0C
    case Numbers3(marker, _, _) => marker
  }

  function LeafBody(l: Leaf, f: Format): seq<byte>
    requires LeafFits(l, f)
  {
    match l
    case Number(bits) => bits
    case Boolean(b) => [Flag(b)]
    case String(text) => ShortText(text)
    case Null => []
    case Undefined => []
    case Date(bits) => bits + [0, 0]
    case LongString(text) => LongText(text)
    case Unsupported => []
    case XmlDocument(text) => LongText(text)
    case Simple3(_) => []
    case Integer3(n) => WriteU29(n)
    case Double3(bits) => bits
    case String3(text) => Text3(text)
    case Xml3(_, text) => Text3(text)
    case Date3(bits) => WriteU29(1) + bits
    case ByteArray3(text) => Text3(text)
    case Numbers3(_, fixed, words) => Header3(|words|) + [Flag(fixed)] + Flat(words)
  }

  function KindMarker(kind: Kind): byte {
    match kind
    case Object0 => 3
    case EcmaArray0 => 8
    case TypedObject0(_) => 16
    case StrictArray0 => 10
    case Container0 => 17
    case Array3 => 9
    case Object3 => 10
    case Vector3(_, _) => 0x10
    case Dictionary3(_) => 0x11
  }

  /** What stands before the members. An AMF3 object is written as an anonymous
      dynamic object without sealed members: 0x0B and an empty class name. */
  function Prologue(kind: Kind, f: Format, keys: seq<Key>, n: nat): seq<byte>
    requires ShapeFits(kind, f, keys, n)
  {
    match kind
    case Object0 => []
    case EcmaArray0 => Be32(n)
    case TypedObject0(name) => ShortText(name)
    case StrictArray0 => Be32(n)
    case Container0 => []
    case Array3 => Header3(n - |keys|)
    case Object3 => WriteU29(0x0B) + Text3([])
    case Vector3(fixed, name) => Header3(n) + [Flag(fixed)] + Text3(name)
    case Dictionary3(weak) => Header3(n / 2) + [Flag(weak)]
  }

  /** What ends the named members. */
  function Terminator(kind: Kind): seq<byte> {
    match kind
    case Object0 => END_OF_OBJECT
    case EcmaArray0 => END_OF_OBJECT
    case TypedObject0(_) => END_OF_OBJECT
    case StrictArray0 => []
    case Container0 => []
    case Array3 => Text3([])
    case Object3 => Text3([])
    case Vector3(_, _) => []
    case Dictionary3(_) => []
  }

  function KeyBytes(f: Format, key: Key): seq<byte>
    requires |key| <= MAX_SHORT || (f.Three? && |key| < MAX_COUNT3)
  {
    if f.Zero? then ShortText(key) else Text3(key)
  }

  lemma KeysFit(kind: Kind, f: Format, keys: seq<Key>, n: nat, i: nat)
    requires ShapeFits(kind, f, keys, n) && i < |keys|
    ensures |keys| <= n && (if f.Zero? then |keys[i]| <= MAX_SHORT else 0 < |keys[i]| < MAX_COUNT3)
  {
    assert keys[i] in keys;
  }

  /** `amf0::write` and `amf3::write` */
  function Write(v: Value, f: Format): seq<byte>
    requires Fits(v, f)
    decreases v, 0
  {
    match v
    case Leaf(l) => [LeafMarker(l)] + LeafBody(l, f)
    case Composite(kind, keys, children) => [KindMarker(kind)] + Body(v, f)
  }

  function Body(v: Value, f: Format): seq<byte>
    requires v.Composite? && Fits(v, f)
    decreases v, 0, |v.children| + 2
  {
    Prologue(v.kind, f, v.keys, |v.children|) + Named(v, f, 0)
  }

  /** The named members from the i-th on, their terminator, and the items. */
  function Named(v: Value, f: Format, i: nat): seq<byte>
    requires v.Composite? && Fits(v, f) && i <= |v.keys|
    decreases v, 0, |v.children| + 1, |v.keys| - i
  {
    if i == |v.keys| then Terminator(v.kind) + Items(v, f, i)
    else
      KeysFit(v.kind, f, v.keys, |v.children|, i);
      KeyBytes(f, v.keys[i]) + Write(v.children[i], ChildFormat(v.kind, f)) + Named(v, f, i + 1)
  }

  function Items(v: Value, f: Format, i: nat): seq<byte>
    requires v.Composite? && Fits(v, f)
    decreases v, 0, |v.children| - i
  {
    if i >= |v.children| then []
    else Write(v.children[i], ChildFormat(v.kind, f)) + Items(v, f, i + 1)
  }

  // ---- measures -----------------------------------------------------------------------------

  /** Levels of nesting, the value's own included. */
  function Height(v: Value): (n: nat)
    ensures n >= 1
    decreases v, 0
  {
    if v.Leaf? then 1 else 1 + HeightFrom(v, 0)
  }

  function HeightFrom(v: Value, i: nat): nat
    requires v.Composite?
    decreases v, 0, |v.children| - i
  {
    if i >= |v.children| then 0
    else
      var h, t := Height(v.children[i]), HeightFrom(v, i + 1);
      if h > t then h else t
  }

  /** Values, the value itself included. */
  function Nodes(v: Value): (n: nat)
    ensures n >= 1
    decreases v, 0
  {
    if v.Leaf? then 1 else 1 + NodesFrom(v, 0)
  }

  function NodesFrom(v: Value, i: nat): nat
    requires v.Composite?
    decreases v, 0, |v.children| - i
  {
    if i >= |v.children| then 0 else Nodes(v.children[i]) + NodesFrom(v, i + 1)
  }

  /** Bytes of AMF3 strings, member names included. */
  function Strings(v: Value, f: Format): nat
    decreases v, 0
  {
    if v.Leaf? then (if v.leaf.String3? then |v.leaf.text| else 0)
    else (if v.kind.Vector3? then |v.kind.name| else 0) + StringsFrom(v, f, 0)
  }

  function StringsFrom(v: Value, f: Format, i: nat): nat
    requires v.Composite?
    decreases v, 0, |v.children| - i
  {
    if i >= |v.children| then 0
    else
      (if f.Three? && i < |v.keys| then |v.keys[i]| else 0)
      + Strings(v.children[i], ChildFormat(v.kind, f)) + StringsFrom(v, f, i + 1)
  }
}
