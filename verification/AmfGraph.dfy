/** What every read keeps, for every input: the decoded graph is acyclic, the order
    of completion is a topological order of it, one budget bounds both formats, and
    nothing past the end is read. */
module AmfGraph {
  import opened Bytes
  import opened OrderedKeys
  import opened U29
  import opened AmfValue
  import opened AmfReader

  function Children(n: Node): seq<nat> {
    if n.LeafNode? then [] else n.children
  }

  predicate AllIn(addrs: seq<nat>, s: seq<nat>) {
    forall c | c in addrs :: c in s
  }

  /** Complete values are those listed, once each, and every child of a value was
      complete before it. */
  predicate Topological(built: map<nat, Node>, order: seq<nat>) {
    && (forall a | a in built :: a in order)
    && (forall i | 0 <= i < |order| :: order[i] in built)
    && (forall i, j | 0 <= i < j < |order| :: order[i] != order[j])
    && (forall i | 0 <= i < |order| :: AllIn(Children(built[order[i]]), order[..i]))
  }

  /** Whatever a table calls complete is complete. */
  predicate Honest(refs: seq<Ref>, built: map<nat, Node>) {
    forall r | r in refs :: r.complete ==> r.addr in built
  }

  predicate Budgeted(s: State) {
    && s.next <= s.nodes && s.next <= MAX_NODES
    && s.stringBytes <= MAX_STRING_BYTES
    && s.deepest <= MAX_DEPTH
  }

  predicate Inv(s: State) {
    && Topological(s.built, s.order)
    && (forall a | a in s.built :: a < s.next)
    && Honest(s.refs, s.built) && Honest(s.tables.objects, s.built)
    && Budgeted(s)
  }

  /** Complete values stay as they are, in the same order; new ones have new addresses. */
  predicate Grows(s: State, t: State) {
    && s.order <= t.order
    && (forall a | a in s.built :: a in t.built && t.built[a] == s.built[a])
    && (forall a | a in t.built :: a in s.built || a >= s.next)
    && s.next <= t.next && s.nodes <= t.nodes && s.stringBytes <= t.stringBytes
  }

  /** Entries made before are as they were: a read completes only its own. */
  predicate TablesKept(s: State, t: State, f: Format) {
    if f.Zero? then s.refs <= t.refs else t.refs == s.refs && s.tables.objects <= t.tables.objects
  }

  predicate Step(s: State, t: State, f: Format) {
    Inv(t) && Grows(s, t) && TablesKept(s, t, f)
  }

  lemma StepTransitive(s: State, t: State, u: State, f: Format)
    requires Step(s, t, f) && Step(t, u, f)
    ensures Step(s, u, f)
  {
  }

  lemma StepSelf(s: State, f: Format)
    requires Inv(s)
    ensures Step(s, s, f)
  {
  }

  predicate Fine<T>(s: State, b: seq<byte>, r: Out<T>, f: Format) {
    Step(s, r.s, f) && (r.Ok? ==> Suffix(r.rest, b))
  }

  predicate AllBuilt(addrs: seq<nat>, built: map<nat, Node>) {
    forall a | a in addrs :: a in built
  }

  predicate FineValue(s: State, b: seq<byte>, r: Out<nat>, f: Format) {
    Fine(s, b, r, f) && (r.Ok? ==> r.value in r.s.built)
  }

  predicate FineMembers(s: State, b: seq<byte>, r: Out<Members>, f: Format) {
    Fine(s, b, r, f) && (r.Ok? ==> AllBuilt(r.value.addrs, r.s.built))
  }

  /** A node has been charged and not yet created. */
  predicate Paid(s: State) {
    Inv(s) && s.next < s.nodes <= MAX_NODES && s.depth <= MAX_DEPTH
  }

  // ---- completing a value ----------------------------------------------------------------------

  lemma TopologicalMore(built: map<nat, Node>, order: seq<nat>, addr: nat, node: Node)
    requires Topological(built, order) && addr !in built && AllBuilt(Children(node), built)
    ensures Topological(built[addr := node], order + [addr])
  {
    var built', order' := built[addr := node], order + [addr];
    assert forall i | 0 <= i < |order| :: order[i] in built && order[i] != addr;
    forall i | 0 <= i < |order'|
      ensures order'[i] in built' && AllIn(Children(built'[order'[i]]), order'[..i])
    {
      OneMore(built, order, addr, node, i);
    }
    assert order'[|order|] == addr;
    assert forall a | a in built :: a in order && a in order';
  }

  lemma OneMore(built: map<nat, Node>, order: seq<nat>, addr: nat, node: Node, i: nat)
    requires Topological(built, order) && addr !in built && AllBuilt(Children(node), built) && i <= |order|
    ensures var built', order' := built[addr := node], order + [addr];
            order'[i] in built' && AllIn(Children(built'[order'[i]]), order'[..i])
  {
    var order' := order + [addr];
    if i < |order| {
      assert order'[..i] == order[..i];
      assert AllIn(Children(built[order[i]]), order[..i]);
    } else {
      assert order'[..i] == order;
    }
  }

  /** A value already created is completed: what was open stays open. */
  lemma FinishKeeps(s: State, t: State, addr: nat, node: Node)
    requires Inv(s) && Inv(t) && Grows(s, t) && addr !in t.built && s.next <= addr < t.next
    requires AllBuilt(Children(node), t.built)
    ensures var u := Finished(t, addr, node);
            Inv(u) && Grows(s, u) && addr in u.built
  {
    hide Topological;
    TopologicalMore(t.built, t.order, addr, node);
  }

  lemma LeafKeeps(l: Leaf, rest: seq<byte>, s: State, b: seq<byte>, f: Format)
    requires Paid(s) && Suffix(rest, b)
    ensures FineValue(s, b, Leafed(l, rest, s), f)
  {
    hide Topological, Suffix;
    var t := Allocated(s);
    assert Inv(t) && Grows(s, t);
    FinishKeeps(s, t, s.next, LeafNode(l));
  }

  lemma AllocateKeeps(s: State)
    requires Paid(s)
    ensures Inv(Allocated(s)) && Grows(s, Allocated(s)) && s.next !in s.built
  {
    hide Topological;
  }

  lemma RegisterKeeps0(s: State)
    requires Paid(s)
    ensures Inv(Registered0(s)) && Step(s, Registered0(s), Zero) && s.next !in s.built
    ensures Registered0(s).depth == s.depth
  {
    hide Topological;
  }

  lemma RegisterKeeps3(s: State)
    requires Paid(s)
    ensures Inv(Registered3(s)) && Step(s, Registered3(s), Three) && s.next !in s.built
    ensures Registered3(s).depth == s.depth
  {
    hide Topological;
  }

  /** The value registered in `s` is completed after a step from there. */
  lemma CompleteKeeps0(s: State, b: seq<byte>, kind: Kind, r: Out<Members>, b': seq<byte>)
    requires Paid(s) && FineMembers(Registered0(s), b', r, Zero) && Suffix(b', b)
    ensures FineValue(s, b, Complete0(|s.refs|, kind, r), Zero)
  {
    hide Topological, Suffix, Honest;
    var s1 := Registered0(s);
    RegisterKeeps0(s);
    StepTransitive(s, s1, r.s, Zero);
    if r.Ok? {
      var t := r.s;
      assert s1.refs[|s.refs|] == t.refs[|s.refs|];
      var node := CompositeNode(kind, r.value.keys, r.value.addrs);
      assert s.next !in t.built;
      FinishKeeps(s, t, s.next, node);
      SuffixTransitive(r.rest, b', b);
      var u := Completed0(t, |s.refs|, node);
      HonestMore(t.refs, t.built, |s.refs|, s.next, node);
      assert Inv(u);
    }
  }

  lemma HonestMore(refs: seq<Ref>, built: map<nat, Node>, index: nat, addr: nat, node: Node)
    requires Honest(refs, built) && index < |refs|
    ensures Honest(refs[index := Ref(addr, true)], built[addr := node])
  {
  }

  lemma CompleteKeeps3(s: State, b: seq<byte>, kind: Kind, keys: seq<Key>, addrs: seq<nat>, r: Out<Members>, b': seq<byte>)
    requires Paid(s) && FineMembers(Registered3(s), b', r, Three) && Suffix(b', b)
    requires r.Ok? ==> AllBuilt(addrs, r.s.built)
    ensures FineValue(s, b, Complete3(|s.tables.objects|, kind, keys, addrs, r), Three)
  {
    hide Topological, Suffix, Honest;
    var s1 := Registered3(s);
    RegisterKeeps3(s);
    StepTransitive(s, s1, r.s, Three);
    if r.Ok? {
      var t := r.s;
      assert s1.tables.objects[|s.tables.objects|] == t.tables.objects[|s.tables.objects|];
      var node := CompositeNode(kind, keys + r.value.keys, addrs + r.value.addrs);
      assert s.next !in t.built;
      FinishKeeps(s, t, s.next, node);
      SuffixTransitive(r.rest, b', b);
      HonestMore(t.tables.objects, t.built, |s.tables.objects|, s.next, node);
    }
  }

  // ---- one level down and back --------------------------------------------------------------------

  lemma DeeperKeeps(s: State)
    requires Inv(s) && s.nodes < MAX_NODES && s.depth < MAX_DEPTH
    ensures Paid(Charged(Deeper(s)))
  {
    hide Topological, Honest;
  }

  /** Leaving a level changes nothing but the depth. */
  lemma BackKeeps(s: State, b: seq<byte>, r: Out<nat>, f: Format)
    requires Inv(s) && b != [] && FineValue(Charged(Deeper(s)), b[1..], r, f) && r.s.depth > 0
    ensures FineValue(s, b, Back(r), f)
  {
    hide Topological, Honest, Suffix;
    SuffixOf(b, 1);
    if r.Ok? {
      SuffixTransitive(r.rest, b[1..], b);
    }
  }

  lemma RefusedKeeps(s: State, b: seq<byte>, f: Format)
    requires Inv(s)
    ensures FineValue(s, b, Back<nat>(Fail(Deeper(s), Corrupt)), f)
    ensures FineValue(s, b, Back<nat>(Fail(Charged(Deeper(s)), Corrupt)), f)
    ensures FineValue(s, b, Back<nat>(Fail(Charged(Deeper(s)), Eof)), f)
  {
    hide Topological, Honest;
  }

  /** Moving on from one read to the next. */
  lemma ThenValue(s: State, b: seq<byte>, t: State, b': seq<byte>, r: Out<nat>, f: Format)
    requires Step(s, t, f) && Suffix(b', b) && FineValue(t, b', r, f)
    ensures FineValue(s, b, r, f)
  {
    hide Step, Suffix;
    StepTransitive(s, t, r.s, f);
    if r.Ok? {
      SuffixTransitive(r.rest, b', b);
    }
  }

  lemma ThenMembers(s: State, b: seq<byte>, t: State, b': seq<byte>, r: Out<Members>, f: Format)
    requires Step(s, t, f) && Suffix(b', b) && FineMembers(t, b', r, f)
    ensures FineMembers(s, b, r, f)
  {
    hide Step, Suffix, AllBuilt;
    StepTransitive(s, t, r.s, f);
    if r.Ok? {
      SuffixTransitive(r.rest, b', b);
    }
  }

  lemma StillBuilt(addrs: seq<nat>, s: State, t: State)
    requires AllBuilt(addrs, s.built) && Grows(s, t)
    ensures AllBuilt(addrs, t.built)
  {
  }

  // ---- AMF0 ------------------------------------------------------------------------------------------

  lemma {:induction false} Read0Keeps(b: seq<byte>, s: State)
    requires Inv(s)
    ensures FineValue(s, b, Read0(b, s), Zero)
    decreases |b|, 0
  {
    hide Inv, Typed0, FineValue;
    var d := Deeper(s);
    RefusedKeeps(s, b, Zero);
    if d.depth <= MAX_DEPTH && d.nodes + 1 <= MAX_NODES && |b| >= 1 {
      DeeperKeeps(s);
      Typed0Keeps(b[0], b[1..], Charged(d));
      BackKeeps(s, b, Typed0(b[0], b[1..], Charged(d)), Zero);
    }
  }

  lemma {:induction false} Typed0Keeps(marker: byte, b: seq<byte>, s: State)
    requires Paid(s)
    ensures FineValue(s, b, Typed0(marker, b, s), Zero)
    decreases |b|, 4
  {
    hide Paid, FineValue, ReadObject0, ReadReference0, ReadEcmaArray0, ReadStrictArray0, ReadTypedObject0,
         ReadContainer0, ReadLeaf0;
    match marker {
      case 3 => ReadObject0Keeps(b, s);
      case 7 => ReadReference0Keeps(b, s);
      case 8 => ReadEcmaArray0Keeps(b, s);
      case 10 => ReadStrictArray0Keeps(b, s);
      case 16 => ReadTypedObject0Keeps(b, s);
      case 17 => ReadContainer0Keeps(b, s);
      case _ => ReadLeaf0Keeps(marker, b, s);
    }
  }

  lemma ShortSuffix(b: seq<byte>)
    ensures ReadShort(b).Got? ==> Suffix(ReadShort(b).rest, b)
    ensures ReadLong(b).Got? ==> Suffix(ReadLong(b).rest, b)
  {
  }

  lemma ReadLeaf0Keeps(marker: byte, b: seq<byte>, s: State)
    requires Paid(s)
    ensures FineValue(s, b, ReadLeaf0(marker, b, s), Zero)
  {
    hide Paid, Inv, Suffix, Leafed, FineValue, ReadShort, ReadLong;
    FailKeepsValue(s, b, Zero);
    ShortSuffix(b);
    SuffixOf(b, 0);
    assert b[0..] == b;
    match marker {
      case 0 => if |b| >= 8 { SuffixOf(b, 8); LeafKeeps(Number(b[..8]), b[8..], s, b, Zero); }
      case 1 => if |b| >= 1 { SuffixOf(b, 1); LeafKeeps(Boolean(b[0] == 1), b[1..], s, b, Zero); }
      case 2 =>
        var t := ReadShort(b);
        if t.Got? { LeafKeeps(String(t.value), t.rest, s, b, Zero); }
      case 5 => LeafKeeps(Null, b, s, b, Zero);
      case 6 => LeafKeeps(Undefined, b, s, b, Zero);
      case 11 => if |b| >= 10 { SuffixOf(b, 10); LeafKeeps(Date(b[..8]), b[10..], s, b, Zero); }
      case 12 =>
        var t := ReadLong(b);
        if |b| < 4 { LeafKeeps(LongString([]), b, s, b, Zero); }
        else if t.Got? { LeafKeeps(LongString(t.value), t.rest, s, b, Zero); }
        else { SuffixOf(b, 4); LeafKeeps(LongString([]), b[4..], s, b, Zero); }
      case 13 => LeafKeeps(Unsupported, b, s, b, Zero);
      case 15 =>
        var t := ReadLong(b);
        if t.Got? { LeafKeeps(XmlDocument(t.value), t.rest, s, b, Zero); }
      case _ =>
    }
  }

  lemma FailKeepsValue(s: State, b: seq<byte>, f: Format)
    requires Paid(s)
    ensures FineValue(s, b, Fail(s, Eof), f) && FineValue(s, b, Fail(s, Corrupt), f)
  {
    hide Topological, Honest;
  }

  lemma FailKeepsMembers(s: State, b: seq<byte>, f: Format)
    requires Inv(s)
    ensures FineMembers(s, b, Fail(s, Eof), f) && FineMembers(s, b, Fail(s, Corrupt), f)
  {
    hide Topological, Honest;
  }

  lemma MembersKeep(s: State, b: seq<byte>, m: Members, rest: seq<byte>, f: Format)
    requires Inv(s) && AllBuilt(m.addrs, s.built) && Suffix(rest, b)
    ensures FineMembers(s, b, Ok(m, rest, s), f)
  {
    hide Topological, Honest, Suffix;
  }

  lemma ReadReference0Keeps(b: seq<byte>, s: State)
    requires Paid(s)
    ensures FineValue(s, b, ReadReference0(b, s), Zero)
  {
    hide Topological;
    StepSelf(s, Zero);
    if |b| >= 2 {
      SuffixOf(b, 2);
      var index := Value2(b[0], b[1]);
      if index < |s.refs| && s.refs[index].complete {
        assert s.refs[index] in s.refs;
      }
    }
  }

  lemma {:induction false} ReadObject0Keeps(b: seq<byte>, s: State)
    requires Paid(s)
    ensures FineValue(s, b, ReadObject0(b, s), Zero)
    decreases |b|, 3
  {
    hide Paid, Step, FineValue, FineMembers, Registered0, Complete0, Entries0, Suffix;
    RegisterKeeps0(s);
    var s' := Registered0(s);
    SuffixOf(b, 0);
    assert b[0..] == b;
    if |b| < 3 {
      MembersKeep(s', b, NO_MEMBERS, b, Zero);
      CompleteKeeps0(s, b, Object0, Ok(NO_MEMBERS, b, s'), b);
    } else {
      Entries0Keeps(b, s', NO_MEMBERS, true);
      CompleteKeeps0(s, b, Object0, Entries0(b, s', NO_MEMBERS, true), b);
    }
  }

  lemma {:induction false} ReadEcmaArray0Keeps(b: seq<byte>, s: State)
    requires Paid(s)
    ensures FineValue(s, b, ReadEcmaArray0(b, s), Zero)
    decreases |b|, 3
  {
    hide Paid, Step, FineValue, FineMembers, Registered0, Complete0, Entries0, Suffix;
    RegisterKeeps0(s);
    var s' := Registered0(s);
    if |b| < 7 {
      SuffixOf(b, 0);
      assert b[0..] == b;
      MembersKeep(s', b, NO_MEMBERS, b, Zero);
      CompleteKeeps0(s, b, EcmaArray0, Ok(NO_MEMBERS, b, s'), b);
    } else {
      SuffixOf(b, 4);
      Entries0Keeps(b[4..], s', NO_MEMBERS, false);
      CompleteKeeps0(s, b, EcmaArray0, Entries0(b[4..], s', NO_MEMBERS, false), b[4..]);
    }
  }

  lemma {:induction false} ReadStrictArray0Keeps(b: seq<byte>, s: State)
    requires Paid(s)
    ensures FineValue(s, b, ReadStrictArray0(b, s), Zero)
    decreases |b|, 3
  {
    hide Paid, Step, FineValue, FineMembers, Registered0, Complete0, Items0, Suffix;
    RegisterKeeps0(s);
    var s' := Registered0(s);
    if |b| < 7 {
      SuffixOf(b, 0);
      assert b[0..] == b;
      MembersKeep(s', b, NO_MEMBERS, b, Zero);
      CompleteKeeps0(s, b, StrictArray0, Ok(NO_MEMBERS, b, s'), b);
    } else {
      SuffixOf(b, 4);
      Items0Keeps(ReadU32Be(b).value, b[4..], s', []);
      CompleteKeeps0(s, b, StrictArray0, Items0(ReadU32Be(b).value, b[4..], s', []), b[4..]);
    }
  }

  lemma {:induction false} ReadTypedObject0Keeps(b: seq<byte>, s: State)
    requires Paid(s)
    ensures FineValue(s, b, ReadTypedObject0(b, s), Zero)
    decreases |b|, 3
  {
    hide Paid, FineMembers, Registered0, Complete0, Entries0, Suffix, Inv, ReadShort;
    RegisterKeeps0(s);
    var s' := Registered0(s);
    ShortSuffix(b);
    var name := ReadShort(b);
    if name.Got? {
      Entries0Keeps(name.rest, s', NO_MEMBERS, true);
      CompleteKeeps0(s, b, TypedObject0(name.value), Entries0(name.rest, s', NO_MEMBERS, true), name.rest);
    }
  }

  lemma {:induction false} ReadContainer0Keeps(b: seq<byte>, s: State)
    requires Paid(s)
    ensures FineValue(s, b, ReadContainer0(b, s), Zero)
    decreases |b|, 3
  {
    hide Topological, Read3, Suffix;
    var s' := Allocated(s).(tables := NO_TABLES);
    AllocateKeeps(s);
    assert Inv(s') && Grows(s, s');
    Read3Keeps(b, s');
    var r := Read3(b, s');
    if r.Ok? {
      FinishKeeps(s, r.s, s.next, CompositeNode(Container0, [], [r.value]));
    }
  }

  lemma {:induction false} Entries0Keeps(b: seq<byte>, s: State, m: Members, unique: bool)
    requires Inv(s) && AllBuilt(m.addrs, s.built)
    ensures FineMembers(s, b, Entries0(b, s, m, unique), Zero)
    decreases |b|, 1
  {
    hide Inv, Step, Suffix, FineMembers, Read0, Entries0, ReadShort;
    Entries0Unfolds(b, s, m, unique);
    FailKeepsMembers(s, b, Zero);
    ShortSuffix(b);
    if |b| < 3 {
    } else {
      if AtEnd(b) {
        SuffixOf(b, 3);
        MembersKeep(s, b, m, b[3..], Zero);
      } else {
        var key := ReadShort(b);
        if key.Got? {
          Read0Keeps(key.rest, s);
          var r := Read0(key.rest, s);
          ReadThenMore(s, b, key.rest, r, Zero);
          if r.Ok? {
            StillBuiltMore(m.addrs, s, r, Zero, key.rest);
            var m' := AddEntry(m, key.value, r.value, unique);
            Entries0Keeps(r.rest, r.s, m', unique);
            ThenMembers(s, b, r.s, r.rest, Entries0(r.rest, r.s, m', unique), Zero);
          }
        }
      }
    }
  }

  lemma Entries0Unfolds(b: seq<byte>, s: State, m: Members, unique: bool)
    ensures Entries0(b, s, m, unique) ==
      if |b| < 3 then Fail(s, Eof)
      else if AtEnd(b) then Ok(m, b[3..], s)
      else
        var key := ReadShort(b);
        if key.Short? then Fail(s, Eof)
        else
          var r := Read0(key.rest, s);
          if r.Fail? then Fail(r.s, r.error) else Entries0(r.rest, r.s, AddEntry(m, key.value, r.value, unique), unique)
  {
    hide Read0, ReadShort;
  }

  /** A value read where more members may follow. */
  lemma ReadThenMore(s: State, b: seq<byte>, b': seq<byte>, r: Out<nat>, f: Format)
    requires Suffix(b', b) && FineValue(s, b', r, f)
    ensures r.Fail? ==> FineMembers(s, b, Fail(r.s, r.error), f)
    ensures r.Ok? ==> Inv(r.s) && Step(s, r.s, f) && Suffix(r.rest, b)
  {
    hide Inv, Suffix;
    if r.Ok? {
      SuffixTransitive(r.rest, b', b);
    }
  }

  lemma StillBuiltMore(addrs: seq<nat>, s: State, r: Out<nat>, f: Format, b: seq<byte>)
    requires FineValue(s, b, r, f) && r.Ok? && AllBuilt(addrs, s.built)
    ensures AllBuilt(addrs, r.s.built) && AllBuilt(addrs + [r.value], r.s.built)
  {
    hide Inv, Suffix;
  }

  lemma {:induction false} Items0Keeps(count: nat, b: seq<byte>, s: State, addrs: seq<nat>)
    requires Inv(s) && AllBuilt(addrs, s.built)
    ensures FineMembers(s, b, Items0(count, b, s, addrs), Zero)
    decreases |b|, 1
  {
    hide Inv, Step, Suffix, FineMembers, Read0, Items0;
    Items0Unfolds(count, b, s, addrs);
    SuffixOf(b, 0);
    assert b[0..] == b;
    if count == 0 {
      MembersKeep(s, b, Members([], addrs), b, Zero);
    } else {
      Read0Keeps(b, s);
      var r := Read0(b, s);
      ReadThenMore(s, b, b, r, Zero);
      if r.Ok? {
        StillBuiltMore(addrs, s, r, Zero, b);
        Items0Keeps(count - 1, r.rest, r.s, addrs + [r.value]);
        ThenMembers(s, b, r.s, r.rest, Items0(count - 1, r.rest, r.s, addrs + [r.value]), Zero);
      }
    }
  }

  lemma Items0Unfolds(count: nat, b: seq<byte>, s: State, addrs: seq<nat>)
    ensures Items0(count, b, s, addrs) ==
      if count == 0 then Ok(Members([], addrs), b, s)
      else
        var r := Read0(b, s);
        if r.Fail? then Fail(r.s, r.error) else Items0(count - 1, r.rest, r.s, addrs + [r.value])
  {
    hide Read0;
  }

  // ---- AMF3 ------------------------------------------------------------------------------------------

  /** Reading a string, names or traits creates no value. */
  predicate Quiet(s: State, t: State) {
    && t.next == s.next && t.built == s.built && t.order == s.order && t.refs == s.refs
    && t.tables.objects == s.tables.objects
    && t.depth == s.depth && t.nodes == s.nodes && t.deepest == s.deepest
    && s.stringBytes <= t.stringBytes <= MAX_STRING_BYTES
  }

  lemma QuietKeeps(s: State, t: State, f: Format)
    requires Inv(s) && Quiet(s, t)
    ensures Step(s, t, f) && Inv(t) && (Paid(s) ==> Paid(t))
  {
    hide Topological, Honest;
  }

  lemma Text3Quiet(b: seq<byte>, s: State)
    requires Inv(s)
    ensures Quiet(s, ReadText3(b, s).s)
    ensures ReadText3(b, s).Ok? ==> Suffix(ReadText3(b, s).rest, b)
  {
    hide Topological, Honest, ReadU29, Suffix;
    var h := ReadU29(b);
    if h.Got? {
      ReadU29Bounded(b);
      var n := h.value / 2;
      if h.value % 2 == 1 && n <= |h.rest| {
        SuffixOf(h.rest, n);
        SuffixTransitive(h.rest[n..], h.rest, b);
      }
    }
  }

  lemma QuietTransitive(s: State, t: State, u: State)
    requires Quiet(s, t) && Quiet(t, u)
    ensures Quiet(s, u)
  {
  }

  lemma {:induction false} NamesQuiet(count: nat, b: seq<byte>, s: State, names: seq<Text>)
    requires Inv(s)
    ensures Quiet(s, ReadNames(count, b, s, names).s)
    ensures ReadNames(count, b, s, names).Ok? ==> Suffix(ReadNames(count, b, s, names).rest, b)
    decreases count
  {
    hide Inv, ReadText3, Suffix, Quiet;
    if count == 0 {
      SuffixOf(b, 0);
      assert b[0..] == b;
      QuietSelf(s);
    } else {
      Text3Quiet(b, s);
      var r := ReadText3(b, s);
      if r.Ok? && r.value != [] {
        QuietKeeps(s, r.s, Three);
        NamesQuiet(count - 1, r.rest, r.s, names + [r.value]);
        var q := ReadNames(count - 1, r.rest, r.s, names + [r.value]);
        QuietTransitive(s, r.s, q.s);
        if q.Ok? {
          SuffixTransitive(q.rest, r.rest, b);
        }
      }
    }
  }

  lemma QuietSelf(s: State)
    requires Inv(s)
    ensures Quiet(s, s)
  {
    hide Topological, Honest;
  }

  lemma TraitsQuiet(info: nat, b: seq<byte>, s: State)
    requires Inv(s)
    ensures Quiet(s, ReadTraits(info, b, s).s)
    ensures ReadTraits(info, b, s).Ok? ==> Suffix(ReadTraits(info, b, s).rest, b)
  {
    hide Inv, ReadText3, ReadNames, Suffix;
    SuffixOf(b, 0);
    assert b[0..] == b;
    QuietSelf(s);
    if info % 2 == 1 {
      Text3Quiet(b, s);
      var name := ReadText3(b, s);
      if name.Ok? {
        QuietKeeps(s, name.s, Three);
        NamesQuiet(info / 8, name.rest, name.s, []);
        var names := ReadNames(info / 8, name.rest, name.s, []);
        QuietTransitive(s, name.s, names.s);
        if names.Ok? {
          SuffixTransitive(names.rest, name.rest, b);
        }
      }
    }
  }

  lemma {:induction false} Read3Keeps(b: seq<byte>, s: State)
    requires Inv(s)
    ensures FineValue(s, b, Read3(b, s), Three)
    decreases |b|, 0
  {
    hide Inv, Typed3, FineValue;
    var d := Deeper(s);
    RefusedKeeps(s, b, Three);
    if d.depth <= MAX_DEPTH && d.nodes + 1 <= MAX_NODES && |b| >= 1 {
      DeeperKeeps(s);
      Typed3Keeps(b[0], b[1..], Charged(d));
      BackKeeps(s, b, Typed3(b[0], b[1..], Charged(d)), Three);
    }
  }

  lemma {:induction false} Typed3Keeps(marker: byte, b: seq<byte>, s: State)
    requires Paid(s)
    ensures FineValue(s, b, Typed3(marker, b, s), Three)
    decreases |b|, 4
  {
    hide Paid, Inv, Suffix, Leafed, FineValue, ReadU29, ReadText3, Inline3, ObjectRef, Step;
    FailKeepsValue(s, b, Three);
    SuffixOf(b, 0);
    assert b[0..] == b;
    if marker <= 3 {
      LeafKeeps(Simple3(marker), b, s, b, Three);
    } else if marker == 4 {
      var n := ReadU29(b);
      if n.Got? {
        ReadU29Bounded(b);
        LeafKeeps(Integer3(Signed(n.value)), n.rest, s, b, Three);
      }
    } else if marker == 5 {
      if |b| >= 8 {
        SuffixOf(b, 8);
        LeafKeeps(Double3(b[..8]), b[8..], s, b, Three);
      }
    } else if marker == 6 {
      String3Keeps(b, s);
    } else if marker <= 0x11 {
      var h := ReadU29(b);
      if h.Got? {
        ReadU29Bounded(b);
        if h.value % 2 == 0 {
          ObjectRefKeeps(h.value / 2, h.rest, s, b);
        } else {
          Inline3Keeps(marker, h.value / 2, h.rest, s);
          StepOf(s);
          ThenValue(s, b, s, h.rest, Inline3(marker, h.value / 2, h.rest, s), Three);
        }
      }
    }
  }

  lemma StepOf(s: State)
    requires Paid(s)
    ensures Step(s, s, Three)
  {
    StepSelf(s, Three);
  }

  lemma String3Keeps(b: seq<byte>, s: State)
    requires Paid(s)
    ensures var t := ReadText3(b, s);
            FineValue(s, b, if t.Fail? then Fail(t.s, t.error) else Leafed(String3(t.value), t.rest, t.s), Three)
  {
    hide Inv, ReadText3, Suffix, Leafed, Step;
    Text3Quiet(b, s);
    var t := ReadText3(b, s);
    QuietKeeps(s, t.s, Three);
    if t.Ok? {
      SuffixOf(t.rest, 0);
      assert t.rest[0..] == t.rest;
      LeafKeeps(String3(t.value), t.rest, t.s, t.rest, Three);
      ThenValue(s, b, t.s, t.rest, Leafed(String3(t.value), t.rest, t.s), Three);
    }
  }

  lemma ObjectRefKeeps(index: nat, rest: seq<byte>, s: State, b: seq<byte>)
    requires Paid(s) && Suffix(rest, b)
    ensures FineValue(s, b, ObjectRef(index, rest, s), Three)
  {
    hide Topological, Suffix;
    StepSelf(s, Three);
    if index < |s.tables.objects| {
      assert s.tables.objects[index] in s.tables.objects;
    }
  }

  lemma {:induction false} Inline3Keeps(marker: byte, n: nat, b: seq<byte>, s: State)
    requires Paid(s)
    ensures FineValue(s, b, Inline3(marker, n, b, s), Three)
    decreases |b|, 3
  {
    hide Paid, FineValue, ReadArray3, ReadObject3, ReadVector3, ReadDictionary3, ReadInlineLeaf3;
    match marker {
      case 0x09 => ReadArray3Keeps(n, b, s);
      case 0x0A => ReadObject3Keeps(n, b, s);
      case 0x10 => ReadVector3Keeps(n, b, s);
      case 0x11 => ReadDictionary3Keeps(n, b, s);
      case _ => ReadInlineLeaf3Keeps(marker, n, b, s);
    }
  }

  lemma RegisteredLeafKeeps(l: Leaf, rest: seq<byte>, s: State, b: seq<byte>)
    requires Paid(s) && Suffix(rest, b)
    ensures FineValue(s, b, LeafedAndRegistered(l, rest, s), Three)
  {
    hide Topological, Suffix, Honest;
    RegisterKeeps3(s);
    var t := Registered3(s);
    FinishKeeps(s, t, s.next, LeafNode(l));
    HonestMore(t.tables.objects, t.built, |s.tables.objects|, s.next, LeafNode(l));
  }

  lemma ReadInlineLeaf3Keeps(marker: byte, n: nat, b: seq<byte>, s: State)
    requires Paid(s)
    ensures FineValue(s, b, ReadInlineLeaf3(marker, n, b, s), Three)
  {
    hide Paid, Inv, Suffix, LeafedAndRegistered, FineValue, Words;
    FailKeepsValue(s, b, Three);
    if marker == 0x07 || marker == 0x0B {
      if |b| >= n {
        SuffixOf(b, n);
        RegisteredLeafKeeps(Xml3(marker, b[..n]), b[n..], s, b);
      }
    } else if marker == 0x08 {
      if |b| >= 8 {
        SuffixOf(b, 8);
        RegisteredLeafKeeps(Date3(b[..8]), b[8..], s, b);
      }
    } else if marker == 0x0C {
      if |b| >= n {
        SuffixOf(b, n);
        RegisteredLeafKeeps(ByteArray3(b[..n]), b[n..], s, b);
      }
    } else if IsVectorOfNumbers(marker) && |b| >= 1 && n * WordSize(marker) <= |b| - 1 {
      SuffixOf(b, 1 + n * WordSize(marker));
      RegisteredLeafKeeps(Numbers3(marker, b[0] != 0, Words(b[1..], n, WordSize(marker))),
                          b[1 + n * WordSize(marker)..], s, b);
    }
  }

  lemma {:induction false} ReadArray3Keeps(count: nat, b: seq<byte>, s: State)
    requires Paid(s)
    ensures FineValue(s, b, ReadArray3(count, b, s), Three)
    decreases |b|, 2
  {
    hide Paid, Inv, Registered3, Complete3, Entries3, Items3, Suffix;
    RegisterKeeps3(s);
    var s' := Registered3(s);
    Entries3Keeps(b, s', NO_MEMBERS);
    var m := Entries3(b, s', NO_MEMBERS);
    if m.Fail? {
      StepTransitive(s, s', m.s, Three);
    } else {
      Items3Keeps(count, m.rest, m.s, []);
      var r := Items3(count, m.rest, m.s, []);
      ThenMembers(s', b, m.s, m.rest, r, Three);
      StillBuilt(m.value.addrs, m.s, r.s);
      SuffixOf(b, 0);
      assert b[0..] == b;
      CompleteKeeps3(s, b, Array3, m.value.keys, m.value.addrs, r, b);
    }
  }

  lemma {:induction false} ReadObject3Keeps(info: nat, b: seq<byte>, s: State)
    requires Paid(s)
    ensures FineValue(s, b, ReadObject3(info, b, s), Three)
    decreases |b|, 2, 1
  {
    hide Inv, Registered3, Complete3, Entries3, Sealed3, Suffix, ReadTraits, Step, FineMembers;
    TraitsQuiet(info, b, s);
    var t := ReadTraits(info, b, s);
    QuietKeeps(s, t.s, Three);
    if t.Ok? {
      RegisterKeeps3(t.s);
      var s' := Registered3(t.s);
      Sealed3Keeps(t.value.names, t.rest, s', NO_MEMBERS);
      var m := Sealed3(t.value.names, t.rest, s', NO_MEMBERS);
      Object3Rest(s, b, t.s, t.rest, m, t.value.dynamic);
    }
  }

  /** The dynamic members after the sealed ones, and completion. */
  lemma {:induction false} Object3Rest(s: State, b: seq<byte>, t: State, b': seq<byte>, m: Out<Members>, dynamic: bool)
    requires Paid(t) && Step(s, t, Three) && Suffix(b', b)
    requires FineMembers(Registered3(t), b', m, Three) && |b'| <= |b|
    requires m.Ok? ==> |m.value.addrs| == |m.value.keys| && |m.rest| <= |b'|
    ensures FineValue(s, b,
              if m.Fail? then Fail(m.s, m.error)
              else Complete3(|t.tables.objects|, Object3, [], [],
                             if dynamic then Entries3(m.rest, m.s, m.value) else m), Three)
    decreases |b|, 2, 0
  {
    hide Inv, Registered3, Complete3, Entries3, Suffix, Step;
    RegisterKeeps3(t);
    var s' := Registered3(t);
    if m.Fail? {
      StepTransitive(s, t, s', Three);
      StepTransitive(s, s', m.s, Three);
    } else {
      SuffixOf(b', 0);
      assert b'[0..] == b';
      var r := if dynamic then Entries3(m.rest, m.s, m.value) else m;
      if dynamic {
        StepInv(s', m.s);
        Entries3Keeps(m.rest, m.s, m.value);
        ThenMembers(s', b', m.s, m.rest, r, Three);
      }
      CompleteKeeps3(t, b', Object3, [], [], r, b');
      ThenValue(s, b, t, b', Complete3(|t.tables.objects|, Object3, [], [], r), Three);
    }
  }

  lemma {:induction false} ReadVector3Keeps(count: nat, b: seq<byte>, s: State)
    requires Paid(s)
    ensures FineValue(s, b, ReadVector3(count, b, s), Three)
    decreases |b|, 2
  {
    hide Inv, Registered3, Complete3, Items3, Suffix, ReadText3, Step, FineMembers;
    if |b| < 1 {
      FailKeepsValue(s, b, Three);
    } else {
      SuffixOf(b, 1);
      Text3Quiet(b[1..], s);
      var name := ReadText3(b[1..], s);
      QuietKeeps(s, name.s, Three);
      if name.Ok? {
        RegisterKeeps3(name.s);
        var s' := Registered3(name.s);
        StepTransitive(s, name.s, s', Three);
        if count <= |name.rest| {
          Items3Keeps(count, name.rest, s', []);
          SuffixTransitive(name.rest, b[1..], b);
          CompleteKeeps3(name.s, b, Vector3(b[0] != 0, name.value), [], [], Items3(count, name.rest, s', []), name.rest);
          SuffixOf(b, 0);
          assert b[0..] == b;
          ThenValue(s, b, name.s, b,
                    Complete3(|name.s.tables.objects|, Vector3(b[0] != 0, name.value), [], [], Items3(count, name.rest, s', [])), Three);
        }
      }
    }
  }

  lemma {:induction false} ReadDictionary3Keeps(count: nat, b: seq<byte>, s: State)
    requires Paid(s)
    ensures FineValue(s, b, ReadDictionary3(count, b, s), Three)
    decreases |b|, 2
  {
    hide Inv, Registered3, Complete3, Items3, Suffix, Step, FineMembers;
    if |b| < 1 {
      FailKeepsValue(s, b, Three);
    } else {
      RegisterKeeps3(s);
      var s' := Registered3(s);
      SuffixOf(b, 1);
      if count <= (|b| - 1) / 2 {
        Items3Keeps(count * 2, b[1..], s', []);
        CompleteKeeps3(s, b, Dictionary3(b[0] != 0), [], [], Items3(count * 2, b[1..], s', []), b[1..]);
      }
    }
  }

  lemma AssignBuilt(m: Members, key: Key, addr: nat, built: map<nat, Node>)
    requires |m.addrs| == |m.keys| && AllBuilt(m.addrs + [addr], built)
    ensures AllBuilt(Assign(m, key, addr).addrs, built)
  {
    hide Place;
    var i := Place(m.keys, key);
    assert forall a | a in m.addrs :: a in m.addrs + [addr];
    assert addr in m.addrs + [addr];
  }

  lemma {:induction false} Entries3Keeps(b: seq<byte>, s: State, m: Members)
    requires Inv(s) && AllBuilt(m.addrs, s.built) && |m.addrs| == |m.keys|
    ensures FineMembers(s, b, Entries3(b, s, m), Three)
    decreases |b|, 1
  {
    hide Inv, Step, Suffix, FineMembers, Read3, Entries3, ReadText3, Assign;
    Entries3Unfolds(b, s, m);
    Text3Quiet(b, s);
    var key := ReadText3(b, s);
    QuietKeeps(s, key.s, Three);
    if key.Fail? {
      FailAfter(s, b, key.s, key.error);
    } else if key.value == [] {
      MembersAfter(s, b, key.s, m, key.rest);
    } else {
      Read3Keeps(key.rest, key.s);
      var r := Read3(key.rest, key.s);
      ValueAfter(s, b, key.s, key.rest, r);
      if r.Ok? {
        StillBuiltMore(m.addrs, key.s, r, Three, key.rest);
        AssignBuilt(m, key.value, r.value, r.s.built);
        var m' := Assign(m, key.value, r.value);
        Entries3Keeps(r.rest, r.s, m');
        ThenMembers(s, b, r.s, r.rest, Entries3(r.rest, r.s, m'), Three);
      }
    }
  }

  lemma FailAfter(s: State, b: seq<byte>, t: State, e: Error)
    requires Step(s, t, Three)
    ensures FineMembers(s, b, Fail(t, e), Three)
  {
  }

  lemma MembersAfter(s: State, b: seq<byte>, t: State, m: Members, rest: seq<byte>)
    requires Step(s, t, Three) && Inv(t) && AllBuilt(m.addrs, s.built) && Suffix(rest, b)
    ensures FineMembers(s, b, Ok(m, rest, t), Three)
  {
    hide Inv, Suffix;
  }

  /** A value read after a string. */
  lemma ValueAfter(s: State, b: seq<byte>, t: State, b': seq<byte>, r: Out<nat>)
    requires Step(s, t, Three) && Suffix(b', b) && FineValue(t, b', r, Three)
    ensures r.Fail? ==> FineMembers(s, b, Fail(r.s, r.error), Three)
    ensures r.Ok? ==> Inv(r.s) && Step(s, r.s, Three) && Suffix(r.rest, b)
  {
    hide Step, Suffix;
    ThenValue(s, b, t, b', r, Three);
    StepInv(s, r.s);
  }

  lemma StepInv(s: State, t: State)
    requires Step(s, t, Three)
    ensures Inv(t)
  {
  }

  lemma Entries3Unfolds(b: seq<byte>, s: State, m: Members)
    requires |m.addrs| == |m.keys|
    ensures Entries3(b, s, m) ==
      var key := ReadText3(b, s);
      if key.Fail? then Fail(key.s, key.error)
      else if key.value == [] then Ok(m, key.rest, key.s)
      else
        var r := Read3(key.rest, key.s);
        if r.Fail? then Fail(r.s, r.error) else Entries3(r.rest, r.s, Assign(m, key.value, r.value))
  {
    hide Read3, ReadText3, Assign;
  }

  lemma {:induction false} Sealed3Keeps(names: seq<Text>, b: seq<byte>, s: State, m: Members)
    requires Inv(s) && AllBuilt(m.addrs, s.built) && |m.addrs| == |m.keys|
    ensures FineMembers(s, b, Sealed3(names, b, s, m), Three)
    decreases |b|, 1
  {
    hide Inv, Step, Suffix, FineMembers, Read3, Sealed3, Assign;
    Sealed3Unfolds(names, b, s, m);
    SuffixOf(b, 0);
    assert b[0..] == b;
    if names == [] {
      MembersKeep(s, b, m, b, Three);
    } else if !Affordable(s, |names[0]|) {
      FailKeepsMembers(s, b, Three);
    } else {
      var t := s.(stringBytes := s.stringBytes + |names[0]|);
      QuietKeeps(s, t, Three);
      Read3Keeps(b, t);
      var r := Read3(b, t);
      ValueAfter(s, b, t, b, r);
      if r.Ok? {
        StillBuiltMore(m.addrs, t, r, Three, b);
        AssignBuilt(m, names[0], r.value, r.s.built);
        var m' := Assign(m, names[0], r.value);
        Sealed3Keeps(names[1..], r.rest, r.s, m');
        ThenMembers(s, b, r.s, r.rest, Sealed3(names[1..], r.rest, r.s, m'), Three);
      }
    }
  }

  lemma Sealed3Unfolds(names: seq<Text>, b: seq<byte>, s: State, m: Members)
    requires |m.addrs| == |m.keys|
    ensures Sealed3(names, b, s, m) ==
      if names == [] then Ok(m, b, s)
      else if !Affordable(s, |names[0]|) then Fail(s, Corrupt)
      else
        var r := Read3(b, s.(stringBytes := s.stringBytes + |names[0]|));
        if r.Fail? then Fail(r.s, r.error) else Sealed3(names[1..], r.rest, r.s, Assign(m, names[0], r.value))
  {
    hide Read3, Assign;
  }

  lemma {:induction false} Items3Keeps(count: nat, b: seq<byte>, s: State, addrs: seq<nat>)
    requires Inv(s) && AllBuilt(addrs, s.built)
    ensures FineMembers(s, b, Items3(count, b, s, addrs), Three)
    decreases |b|, 1
  {
    hide Inv, Step, Suffix, FineMembers, Read3, Items3;
    Items3Unfolds(count, b, s, addrs);
    SuffixOf(b, 0);
    assert b[0..] == b;
    if count == 0 {
      MembersKeep(s, b, Members([], addrs), b, Three);
    } else {
      Read3Keeps(b, s);
      var r := Read3(b, s);
      ReadThenMore(s, b, b, r, Three);
      if r.Ok? {
        StillBuiltMore(addrs, s, r, Three, b);
        Items3Keeps(count - 1, r.rest, r.s, addrs + [r.value]);
        ThenMembers(s, b, r.s, r.rest, Items3(count - 1, r.rest, r.s, addrs + [r.value]), Three);
      }
    }
  }

  lemma Items3Unfolds(count: nat, b: seq<byte>, s: State, addrs: seq<nat>)
    ensures Items3(count, b, s, addrs) ==
      if count == 0 then Ok(Members([], addrs), b, s)
      else
        var r := Read3(b, s);
        if r.Fail? then Fail(r.s, r.error) else Items3(count - 1, r.rest, r.s, addrs + [r.value])
  {
    hide Read3;
  }
}
