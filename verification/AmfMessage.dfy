/** One decode budget per message (`rtmp_message.cpp`, `rtmp_so_message.cpp`,
    `rtmp_protocol.cpp`, `amf0.h`): every AMF value read inside the outermost scope,
    by the message itself or by any sub-message of an aggregate, spends one budget.
    And, for every input, what the readers return is acyclic. */
module AmfMessage {
  import opened Bytes
  import opened AmfValue
  import opened AmfReader
  import opened AmfGraph

  // ---- acyclic graphs ---------------------------------------------------------------------------

  /** Consecutive addresses are parent and child. */
  predicate Path(built: map<nat, Node>, p: seq<nat>) {
    |p| > 0 && forall i | 0 <= i < |p| - 1 :: p[i] in built && p[i + 1] in Children(built[p[i]])
  }

  /** When a value was completed. */
  function Rank(order: seq<nat>, a: nat): (r: nat)
    requires a in order
    ensures r < |order| && order[r] == a
  {
    if order[0] == a then 0 else 1 + Rank(order[1..], a)
  }

  lemma RankIsUnique(order: seq<nat>, i: nat)
    requires i < |order| && forall j, k | 0 <= j < k < |order| :: order[j] != order[k]
    ensures Rank(order, order[i]) == i
  {
  }

  lemma ChildrenEarlier(built: map<nat, Node>, order: seq<nat>, a: nat, c: nat)
    requires Topological(built, order) && a in built && c in Children(built[a])
    ensures c in built && c in order && a in order && Rank(order, c) < Rank(order, a)
  {
    var i := Rank(order, a);
    assert AllIn(Children(built[order[i]]), order[..i]);
    assert c in order[..i];
    var j :| 0 <= j < i && order[..i][j] == c;
    assert order[j] == c;
    RankIsUnique(order, j);
  }

  /** Along any path values were completed strictly earlier, so no path returns. */
  lemma {:induction false} PathDescends(built: map<nat, Node>, order: seq<nat>, p: seq<nat>)
    requires Topological(built, order) && Path(built, p) && p[0] in built
    ensures p[|p| - 1] in built && p[0] in order && p[|p| - 1] in order
    ensures Rank(order, p[|p| - 1]) + |p| - 1 <= Rank(order, p[0])
    decreases |p|
  {
    hide Topological, Rank;
    assert p[0] in order && Rank(order, p[0]) == Rank(order, p[0]) by { Listed(built, order, p[0]); }
    if |p| <= 1 {
    } else {
      ChildrenEarlier(built, order, p[0], p[1]);
      PathDescends(built, order, p[1..]);
    }
  }

  lemma Listed(built: map<nat, Node>, order: seq<nat>, a: nat)
    requires Topological(built, order) && a in built
    ensures a in order
  {
  }

  /** For every input, back-references included: the value returned reaches only
      values completed before it, and nothing reaches itself. */
  lemma DecodedIsAcyclic(b: seq<byte>, s: State, p: seq<nat>)
    requires Inv(s)
    ensures var r := Read0(b, s);
            r.Ok? && Path(r.s.built, p) && |p| > 1 && p[0] in r.s.built ==>
              && r.value in r.s.built && p[|p| - 1] != p[0]
              && p[0] in r.s.order && p[|p| - 1] in r.s.order
              && Rank(r.s.order, p[|p| - 1]) < Rank(r.s.order, p[0])
  {
    hide Read0, Topological, Rank, Path;
    Read0Keeps(b, s);
    var r := Read0(b, s);
    if r.Ok? && Path(r.s.built, p) && |p| > 1 && p[0] in r.s.built {
      PathDescends(r.s.built, r.s.order, p);
    }
  }

  // ---- scopes ------------------------------------------------------------------------------------

  /** The reader's state and how many scopes are open. */
  datatype Scope = Scope(s: State, open: nat)

  /** `read_scope`: only the outermost starts a budget. */
  function Enter(m: Scope): Scope {
    if m.open == 0 then Scope(FRESH, 1) else Scope(m.s, m.open + 1)
  }

  /** A message was built, was dropped, or ran out of bytes (which is thrown on). */
  datatype Result = Built | Dropped | OutOfBytes

  datatype Outcome = Outcome(result: Result, m: Scope)

  /** Leaving the scope, whichever way the body ended. */
  function Leave<T>(m: Scope, r: Out<T>): Outcome
    requires m.open > 0
  {
    Outcome(if r.Ok? then Built else if r.error.Eof? then OutOfBytes else Dropped, Scope(r.s, m.open - 1))
  }

  const MAX_PARAMETERS: nat := 64
  const MAX_EVENTS: nat := 64
  const MAX_SUB_MESSAGES: nat := 1024
  const MAX_AGGREGATE_DEPTH: nat := 4

  /** A top-level value starts with an empty reference table. */
  function ReadTop(b: seq<byte>, s: State): (r: Out<nat>)
    ensures r.s.depth == s.depth && (r.Ok? ==> |r.rest| < |b|)
  {
    Read0(b, s.(refs := []))
  }

  /** Parameters until the body is empty, at most 64. */
  function Parameters(b: seq<byte>, s: State, count: nat): (r: Out<nat>)
    ensures r.s.depth == s.depth
    decreases |b|
  {
    if |b| == 0 then Ok(count, b, s)
    else if count == MAX_PARAMETERS then Fail(s, Corrupt)
    else
      var r := ReadTop(b, s);
      if r.Fail? then r else Parameters(r.rest, r.s, count + 1)
  }

  /** `read_short_string` with its marker: a wrong marker is consumed and no more. */
  function SkipString(b: seq<byte>): Read<bool> {
    if |b| < 1 then Short
    else if b[0] != 2 then Got(false, b[1..])
    else
      var t := ReadShort(b[1..]);
      if t.Short? then Short else Got(true, t.rest)
  }

  /** `read_number`, likewise. */
  function SkipNumber(b: seq<byte>): Read<bool> {
    if |b| < 1 then Short
    else if b[0] != 0 then Got(false, b[1..])
    else if |b| < 9 then Short
    else Got(true, b[9..])
  }

  function NotifyBody(b: seq<byte>, s: State): Out<nat> {
    var f := SkipString(b);
    if f.Short? then Fail(s, Eof) else Parameters(f.rest, s, 0)
  }

  function InvokeBody(b: seq<byte>, s: State): Out<nat> {
    var f := SkipString(b);
    if f.Short? then Fail(s, Eof)
    else
      var n := SkipNumber(f.rest);
      if n.Short? then Fail(s, Eof) else Parameters(n.rest, s, 0)
  }

  /** One shared-object event; only a requested change carries a value. */
  function ReadEvent(b: seq<byte>, s: State): (r: Out<nat>)
    ensures r.s.depth == s.depth && (r.Ok? ==> |r.rest| < |b|)
  {
    if |b| < 5 then Fail(s, Eof)
    else
      var len, body := ReadU32Be(b[1..]).value, b[5..];
      if b[0] == 6 then
        if len > |body| then Fail(s, Eof) else Ok(0, body[len..], s)
      else if len > |body| then Fail(s, Corrupt)
      else if b[0] == 3 || b[0] == 10 then
        var name := ReadShort(body[..len]);
        if name.Short? then Fail(s, Eof)
        else if b[0] == 10 then Ok(0, body[len..], s)
        else
          var r := ReadTop(name.rest, s);
          if r.Fail? then r else Ok(r.value, body[len..], r.s)
      else Ok(0, body[len..], s)
  }

  function Events(b: seq<byte>, s: State, count: nat): (r: Out<nat>)
    ensures r.s.depth == s.depth
    decreases |b|
  {
    if |b| == 0 then Ok(count, b, s)
    else if count >= MAX_EVENTS then Fail(s, Corrupt)
    else
      var r := ReadEvent(b, s);
      if r.Fail? then r else Events(r.rest, r.s, count + 1)
  }

  function SharedObjectBody(b: seq<byte>, s: State): Out<nat> {
    var name := ReadShort(b);
    if name.Short? || |name.rest| < 12 then Fail(s, Eof) else Events(name.rest[12..], s, 0)
  }

  /** Types whose bodies hold no AMF, which spend nothing: a control message needs its
      fields, a Ping one of four lengths, and an unknown type is dropped. */
  function PlainBody(kind: byte, b: seq<byte>): Result {
    if kind == 0x08 || kind == 0x09 then Built
    else if kind == 0x04 then if |b| in {2, 6, 10, 14} then Built else Dropped
    else if kind == 0x06 then if |b| < 5 then OutOfBytes else Built
    else if kind == 0x01 || kind == 0x02 || kind == 0x03 || kind == 0x05 then if |b| < 4 then OutOfBytes else Built
    else Dropped
  }

  /** `rtmp_protocol::deserialize` of a body at aggregate depth `level`. An AMF3 body
      without its zero byte is built empty. */
  function Deserialize(kind: byte, b: seq<byte>, m: Scope, level: nat): Outcome
    decreases |b|, 1
  {
    if kind == 0x14 then Leave(Enter(m), InvokeBody(b, Enter(m).s))
    else if kind == 0x12 then Leave(Enter(m), NotifyBody(b, Enter(m).s))
    else if kind == 0x13 then Leave(Enter(m), SharedObjectBody(b, Enter(m).s))
    else if kind == 0x11 || kind == 0x0F then
      if |b| == 0 || b[0] != 0 then Outcome(Built, m)
      else if kind == 0x11 then Leave(Enter(m), InvokeBody(b[1..], Enter(m).s))
      else Leave(Enter(m), NotifyBody(b[1..], Enter(m).s))
    else if kind == 0x16 then
      if level >= MAX_AGGREGATE_DEPTH then Outcome(Dropped, m)
      else
        var r := SubMessages(b, Enter(m), level + 1, 0);
        Outcome(r.result, r.m.(open := if r.m.open > 0 then r.m.open - 1 else 0))
    else Outcome(PlainBody(kind, b), m)
  }

  /** The loop of an aggregate: a sub-message that ends short or is refused is
      dropped, and the next one goes on with the same budget. */
  function SubMessages(b: seq<byte>, m: Scope, level: nat, count: nat): Outcome
    decreases |b|, 0
  {
    if |b| == 0 then Outcome(Built, m)
    else if count == MAX_SUB_MESSAGES then Outcome(Dropped, m)
    else if |b| < 11 then Outcome(OutOfBytes, m)
    else
      var len: int, body := ReadU24Be(b[1..]).value, b[11..];
      if len > |body| then Outcome(Built, m)
      else
        var out := Deserialize(b[0], body[..len], m, level);
        var rest := body[len..];
        if |rest| < 4 then Outcome(Built, out.m)
        else SubMessages(rest[4..], out.m, level, if out.result.Built? then count + 1 else count)
  }

  // ---- the budget ---------------------------------------------------------------------------------

  /** Between values the reader is back at depth 0 and within the budget. */
  predicate Rested(s: State) {
    Inv(s) && s.depth == 0
  }

  lemma FreshRested()
    ensures Rested(FRESH)
  {
  }

  lemma ReadTopKeeps(b: seq<byte>, s: State)
    requires Rested(s)
    ensures Rested(ReadTop(b, s).s)
  {
    hide Topological, Read0;
    Read0Keeps(b, s.(refs := []));
  }

  lemma {:induction false} ParametersKeep(b: seq<byte>, s: State, count: nat)
    requires Rested(s)
    ensures Rested(Parameters(b, s, count).s)
    decreases |b|
  {
    hide Rested, ReadTop;
    if |b| <= 0 || count == MAX_PARAMETERS {
    } else {
      ReadTopKeeps(b, s);
      var r := ReadTop(b, s);
      if r.Ok? {
        ParametersKeep(r.rest, r.s, count + 1);
      }
    }
  }

  lemma ReadEventKeeps(b: seq<byte>, s: State)
    requires Rested(s)
    ensures Rested(ReadEvent(b, s).s)
  {
    hide Rested, ReadTop, ReadShort;
    if |b| >= 5 {
      var len, body := ReadU32Be(b[1..]).value, b[5..];
      if len <= |body| {
        var name := ReadShort(body[..len]);
        if name.Got? {
          ReadTopKeeps(name.rest, s);
        }
      }
    }
  }

  lemma {:induction false} EventsKeep(b: seq<byte>, s: State, count: nat)
    requires Rested(s)
    ensures Rested(Events(b, s, count).s)
    decreases |b|
  {
    hide Rested, ReadEvent;
    if |b| <= 0 || count >= MAX_EVENTS {
    } else {
      ReadEventKeeps(b, s);
      var r := ReadEvent(b, s);
      if r.Ok? {
        EventsKeep(r.rest, r.s, count + 1);
      }
    }
  }

  lemma BodiesKeep(b: seq<byte>, s: State)
    requires Rested(s)
    ensures Rested(InvokeBody(b, s).s) && Rested(NotifyBody(b, s).s) && Rested(SharedObjectBody(b, s).s)
  {
    hide Rested, Parameters, Events, ReadShort, SkipString, SkipNumber;
    var f := SkipString(b);
    if f.Got? {
      ParametersKeep(f.rest, s, 0);
      var n := SkipNumber(f.rest);
      if n.Got? {
        ParametersKeep(n.rest, s, 0);
      }
    }
    var name := ReadShort(b);
    if name.Got? && |name.rest| >= 12 {
      EventsKeep(name.rest[12..], s, 0);
    }
  }

  lemma EnterKeeps(m: Scope)
    requires m.open > 0 ==> Rested(m.s)
    ensures Enter(m).open == m.open + 1 && Rested(Enter(m).s)
  {
    FreshRested();
  }

  /** Every scope opened is closed, and the state is within the budget at every
      message boundary, however the messages end. */
  lemma {:induction false} DeserializeKeeps(kind: byte, b: seq<byte>, m: Scope, level: nat)
    requires m.open > 0 ==> Rested(m.s)
    ensures var out := Deserialize(kind, b, m, level);
            out.m.open == m.open && (m.open > 0 || out.m.s != m.s ==> Rested(out.m.s))
    decreases |b|, 1
  {
    hide Rested, InvokeBody, NotifyBody, SharedObjectBody, SubMessages, Enter;
    EnterKeeps(m);
    var s := Enter(m).s;
    BodiesKeep(b, s);
    if |b| > 0 {
      BodiesKeep(b[1..], s);
    }
    if kind == 0x16 && level < MAX_AGGREGATE_DEPTH {
      SubMessagesKeep(b, Enter(m), level + 1, 0);
    }
  }

  lemma {:induction false} SubMessagesKeep(b: seq<byte>, m: Scope, level: nat, count: nat)
    requires m.open > 0 && Rested(m.s)
    ensures var out := SubMessages(b, m, level, count); out.m.open == m.open && Rested(out.m.s)
    decreases |b|, 0
  {
    hide Rested, Deserialize;
    if |b| < 11 || count == MAX_SUB_MESSAGES {
    } else {
      var len: int, body := ReadU24Be(b[1..]).value, b[11..];
      if len <= |body| {
        DeserializeKeeps(b[0], body[..len], m, level);
        var out := Deserialize(b[0], body[..len], m, level);
        var rest := body[len..];
        if |rest| >= 4 {
          SubMessagesKeep(rest[4..], out.m, level, if out.result.Built? then count + 1 else count);
        }
      }
    }
  }

  lemma {:induction false} KeysSize(keys: set<nat>, n: nat)
    requires forall a | a in keys :: a < n
    ensures |keys| <= n
    decreases n
  {
    if n == 0 {
      assert keys == {};
    } else {
      KeysSize(keys - {n - 1}, n - 1);
      assert n - 1 !in keys ==> keys - {n - 1} == keys;
    }
  }

  /** For every body of every type, aggregates in aggregates included: one message
      builds at most 65536 values, none deeper than 32 levels, and at most 32 MiB of
      AMF3 strings; it leaves the depth at 0 and no scope open; and all it built is
      acyclic. */
  lemma OneBudget(kind: byte, b: seq<byte>, before: State)
    ensures var out := Deserialize(kind, b, Scope(before, 0), 0);
            && out.m.open == 0
            && (out.m.s == before ||
                  (&& |out.m.s.built| <= MAX_NODES && out.m.s.deepest <= MAX_DEPTH
                   && out.m.s.stringBytes <= MAX_STRING_BYTES && out.m.s.depth == 0
                   && Topological(out.m.s.built, out.m.s.order)))
  {
    hide Topological, Deserialize;
    DeserializeKeeps(kind, b, Scope(before, 0), 0);
    var out := Deserialize(kind, b, Scope(before, 0), 0);
    if out.m.s != before {
      KeysSize(out.m.s.built.Keys, out.m.s.next);
    }
  }
}
