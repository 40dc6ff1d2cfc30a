/** A connection's outbound queue and its backpressure (`send_queue_policy.h`, and
    the enqueue and dequeue of `rtmp_application.cpp`): past half the cap, droppable
    video is shed oldest first, interframes before keyframes; past the cap with
    nothing left to shed, the connection is dropped. */
module SendQueue {
  import opened Bytes

  /** `payload_view` gives a body for media and none for commands. */
  datatype Payload = NoView | View(body: seq<byte>)

  /** A queued message, or none; `id` tells equal messages apart. */
  datatype Message = Null | Message(kind: byte, payload: Payload, id: nat)

  datatype ShedClass = Never | Config | Audio | KeyVideo | InterVideo

  const AUDIO: byte := 8
  const VIDEO: byte := 9
  const AVC: int := 7
  const AAC: int := 10
  const KEY_FRAME: int := 1
  const GENERATED_KEY_FRAME: int := 4
  const VIDEO_INFO: int := 5
  const CHUNK_HEADER_ESTIMATE: nat := 12
  const COMMAND_MESSAGE_ESTIMATE: nat := 256

  predicate IsSequenceHeader(m: Message)
    requires m.Message?
  {
    if m.payload.NoView? || |m.payload.body| < 2 then false
    else if m.kind == VIDEO then m.payload.body[0] % 16 == AVC && m.payload.body[1] == 0
    else if m.kind == AUDIO then m.payload.body[0] / 16 == AAC && m.payload.body[1] == 0
    else false
  }

  function Classify(m: Message): ShedClass {
    if m.Null? then Never
    else if m.kind != VIDEO && m.kind != AUDIO then Never
    else if IsSequenceHeader(m) then Config
    else if m.kind == AUDIO then Audio
    else if m.payload.NoView? || |m.payload.body| == 0 then Never
    else
      var frame: int := m.payload.body[0] / 16;
      if frame == KEY_FRAME || frame == GENERATED_KEY_FRAME then KeyVideo
      else if frame == VIDEO_INFO then Never
      else InterVideo
  }

  predicate Droppable(m: Message) {
    Classify(m).KeyVideo? || Classify(m).InterVideo?
  }

  function QueuedSize(m: Message): nat {
    if m.Null? then 0
    else if m.payload.View? then |m.payload.body| + CHUNK_HEADER_ESTIMATE
    else COMMAND_MESSAGE_ESTIMATE
  }

  /** The total of a queue. */
  function Size(msgs: seq<Message>): nat {
    if msgs == [] then 0 else QueuedSize(msgs[0]) + Size(msgs[1..])
  }

  /** The messages not of class `c`, in order. */
  function Without(msgs: seq<Message>, c: ShedClass): seq<Message> {
    if msgs == [] then []
    else (if Classify(msgs[0]) == c then [] else [msgs[0]]) + Without(msgs[1..], c)
  }

  /** What is never shed, in order. */
  function Undroppable(msgs: seq<Message>): seq<Message> {
    if msgs == [] then []
    else (if Droppable(msgs[0]) then [] else [msgs[0]]) + Undroppable(msgs[1..])
  }

  /** The saturating subtraction of the source. */
  function Minus(bytes: nat, n: nat): nat {
    if n >= bytes then 0 else bytes - n
  }

  // ---- shedding ----------------------------------------------------------------------

  /** One pass of `shed_to`: drop class `c` from the front while over the mark. */
  function Pass(msgs: seq<Message>, c: ShedClass, bytes: nat, low: nat): seq<Message>
    decreases |msgs|
  {
    if msgs == [] || bytes <= low then msgs
    else if Classify(msgs[0]) != c then [msgs[0]] + Pass(msgs[1..], c, bytes, low)
    else Pass(msgs[1..], c, Minus(bytes, QueuedSize(msgs[0])), low)
  }

  /** `shed_to` */
  function Thinned(msgs: seq<Message>, low: nat): seq<Message> {
    var p := Pass(msgs, InterVideo, Size(msgs), low);
    if Size(p) <= low then p else Pass(p, KeyVideo, Size(p), low)
  }

  /** `kept` is `msgs` with class `c` taken out of its first `cut` messages: as many
      as bring `extra + kept` to the mark and no more, or all of them. */
  predicate Shed(msgs: seq<Message>, c: ShedClass, extra: nat, low: nat, kept: seq<Message>, cut: nat) {
    && cut <= |msgs|
    && kept == Without(msgs[..cut], c) + msgs[cut..]
    && (extra + Size(kept) <= low || cut == |msgs|)
    && (cut > 0 ==> extra + Size(Without(msgs[..cut - 1], c)) + Size(msgs[cut - 1..]) > low)
  }

  lemma {:induction false} SizeConcat(a: seq<Message>, b: seq<Message>)
    ensures Size(a + b) == Size(a) + Size(b)
  {
    if a == [] {
      assert a + b == b;
    } else {
      assert (a + b)[0] == a[0] && (a + b)[1..] == a[1..] + b;
      SizeConcat(a[1..], b);
    }
  }

  /** A pass is the minimal shed of its class, oldest first. `extra` counts the bytes
      of the messages already passed over. */
  lemma {:induction false} PassIsMinimal(msgs: seq<Message>, c: ShedClass, extra: nat, low: nat) returns (cut: nat)
    ensures Shed(msgs, c, extra, low, Pass(msgs, c, extra + Size(msgs), low), cut)
    decreases |msgs|
  {
    hide Classify, QueuedSize, Shed, Without;
    if msgs == [] || extra + Size(msgs) <= low {
      cut := 0;
      ShedNone(msgs, c, extra, low);
    } else {
      var rest := msgs[1..];
      var extra' := if Classify(msgs[0]) != c then extra + QueuedSize(msgs[0]) else extra;
      var cut' := PassIsMinimal(rest, c, extra', low);
      cut := cut' + 1;
      var kept' := Pass(rest, c, extra' + Size(rest), low);
      ShedMore(msgs, c, extra, low, kept', cut');
      assert Pass(msgs, c, extra + Size(msgs), low) == (if Classify(msgs[0]) != c then [msgs[0]] else []) + kept';
    }
  }

  lemma ShedNone(msgs: seq<Message>, c: ShedClass, extra: nat, low: nat)
    requires msgs == [] || extra + Size(msgs) <= low
    ensures Shed(msgs, c, extra, low, msgs, 0)
  {
    assert Without(msgs[..0], c) + msgs[0..] == msgs;
  }

  /** One message more at the front. */
  lemma ShedMore(msgs: seq<Message>, c: ShedClass, extra: nat, low: nat, kept': seq<Message>, cut': nat)
    requires msgs != [] && extra + Size(msgs) > low
    requires var extra' := if Classify(msgs[0]) != c then extra + QueuedSize(msgs[0]) else extra;
             Shed(msgs[1..], c, extra', low, kept', cut')
    ensures Shed(msgs, c, extra, low, (if Classify(msgs[0]) != c then [msgs[0]] else []) + kept', cut' + 1)
  {
    hide Classify, QueuedSize, Size, Without;
    var rest, cut := msgs[1..], cut' + 1;
    var head := if Classify(msgs[0]) != c then [msgs[0]] else [];
    WithoutTake(msgs, c, cut');
    assert msgs[cut..] == rest[cut'..];
    assert head + (Without(rest[..cut'], c) + rest[cut'..]) == head + Without(rest[..cut'], c) + rest[cut'..];
    SizeConcat(head, kept');
    SizeHead(msgs, c);
    if cut' > 0 {
      WithoutTake(msgs, c, cut' - 1);
      assert msgs[cut - 1..] == rest[cut' - 1..];
      SizeConcat(head, Without(rest[..cut' - 1], c));
    } else {
      assert msgs[..cut - 1] == [] && msgs[cut - 1..] == msgs;
      assert Size(Without([], c)) == 0 by { SizeNone(c); }
    }
  }

  lemma WithoutNone(c: ShedClass)
    ensures Without([], c) == []
  {
  }

  lemma SizeNone(c: ShedClass)
    ensures Size(Without([], c)) == 0
  {
  }

  lemma SizeHead(msgs: seq<Message>, c: ShedClass)
    requires msgs != []
    ensures Size(if Classify(msgs[0]) != c then [msgs[0]] else [])
         == if Classify(msgs[0]) != c then QueuedSize(msgs[0]) else 0
  {
  }

  lemma WithoutTake(msgs: seq<Message>, c: ShedClass, n: nat)
    requires n < |msgs|
    ensures Without(msgs[..n + 1], c)
         == (if Classify(msgs[0]) != c then [msgs[0]] else []) + Without(msgs[1..][..n], c)
  {
    assert msgs[..n + 1][0] == msgs[0] && msgs[..n + 1][1..] == msgs[1..][..n];
  }

  lemma {:induction false} WithoutConcat(a: seq<Message>, b: seq<Message>, c: ShedClass)
    ensures Without(a + b, c) == Without(a, c) + Without(b, c)
  {
    if a == [] {
      assert a + b == b;
    } else {
      assert (a + b)[0] == a[0] && (a + b)[1..] == a[1..] + b;
      WithoutConcat(a[1..], b, c);
    }
  }

  lemma {:induction false} UndroppableConcat(a: seq<Message>, b: seq<Message>)
    ensures Undroppable(a + b) == Undroppable(a) + Undroppable(b)
  {
    if a == [] {
      assert a + b == b;
    } else {
      assert (a + b)[0] == a[0] && (a + b)[1..] == a[1..] + b;
      UndroppableConcat(a[1..], b);
    }
  }

  /** Taking out droppable messages leaves the undroppable ones as they were, and
      taking out both droppable classes leaves only those. */
  lemma {:induction false} WithoutKeepsUndroppable(msgs: seq<Message>, c: ShedClass)
    requires c.InterVideo? || c.KeyVideo?
    ensures Undroppable(Without(msgs, c)) == Undroppable(msgs)
    ensures Without(Without(msgs, InterVideo), KeyVideo) == Undroppable(msgs)
  {
    if msgs == [] {
    } else {
      WithoutKeepsUndroppable(msgs[1..], c);
      var head := if Classify(msgs[0]) == c then [] else [msgs[0]];
      UndroppableConcat(head, Without(msgs[1..], c));
      var inter := if Classify(msgs[0]) == InterVideo then [] else [msgs[0]];
      WithoutConcat(inter, Without(msgs[1..], InterVideo), KeyVideo);
    }
  }

  lemma ShedKeepsUndroppable(msgs: seq<Message>, c: ShedClass, extra: nat, low: nat, kept: seq<Message>, cut: nat)
    requires (c.InterVideo? || c.KeyVideo?) && Shed(msgs, c, extra, low, kept, cut)
    ensures Undroppable(kept) == Undroppable(msgs)
  {
    WithoutKeepsUndroppable(msgs[..cut], c);
    UndroppableConcat(Without(msgs[..cut], c), msgs[cut..]);
    UndroppableConcat(msgs[..cut], msgs[cut..]);
    assert msgs[..cut] + msgs[cut..] == msgs;
  }

  /** The whole shed: an order-preserving thinning that takes the oldest interframes
      and, only once none is left, the oldest keyframes; stops at the mark without
      taking one more; and otherwise leaves nothing droppable. */
  lemma ShedToIsMinimal(msgs: seq<Message>, low: nat) returns (inter: seq<Message>, cut: nat, cut': nat)
    ensures Shed(msgs, InterVideo, 0, low, inter, cut)
    ensures Shed(inter, KeyVideo, 0, low, Thinned(msgs, low), cut')
    ensures cut' > 0 ==> inter == Without(msgs, InterVideo)
    ensures Undroppable(Thinned(msgs, low)) == Undroppable(msgs)
    ensures Size(Thinned(msgs, low)) <= low || Thinned(msgs, low) == Undroppable(msgs)
  {
    hide Size, Without, Undroppable, Pass;
    cut := PassIsMinimal(msgs, InterVideo, 0, low);
    inter := Pass(msgs, InterVideo, Size(msgs), low);
    assert msgs[..|msgs|] == msgs;
    ShedKeepsUndroppable(msgs, InterVideo, 0, low, inter, cut);
    var kept := Thinned(msgs, low);
    if Size(inter) <= low {
      cut' := 0;
      assert Without(inter[..0], KeyVideo) + inter[0..] == inter by { WithoutNone(KeyVideo); }
    } else {
      cut' := PassIsMinimal(inter, KeyVideo, 0, low);
      assert inter == Without(msgs, InterVideo) + [];
      assert inter[..|inter|] == inter;
      ShedKeepsUndroppable(inter, KeyVideo, 0, low, kept, cut');
      if Size(kept) > low {
        assert kept == Without(inter, KeyVideo) + [];
        WithoutKeepsUndroppable(msgs, InterVideo);
      }
    }
  }

  // ---- the queue -------------------------------------------------------------------------

  datatype Queue = Queue(msgs: seq<Message>, bytes: nat, count: nat)

  const EMPTY := Queue([], 0, 0)

  predicate Accounted(q: Queue) {
    q.bytes == Size(q.msgs) && q.count == |q.msgs|
  }

  function Push(msgs: seq<Message>, m: Message, urgent: bool): seq<Message> {
    if urgent then [m] + msgs else msgs + [m]
  }

  datatype Pushed = Pushed(q: Queue, overCap: bool)

  /** The locked body of `enqueue_async_message_unchecked`. */
  function Enqueue(q: Queue, m: Message, urgent: bool, cap: nat): Pushed {
    var msgs := Push(q.msgs, m, urgent);
    if cap != 0 && q.bytes + QueuedSize(m) > cap / 2 then
      var kept := Thinned(msgs, cap / 4);
      Pushed(Queue(kept, Size(kept), |kept|), Size(kept) > cap)
    else Pushed(Queue(msgs, q.bytes + QueuedSize(m), q.count + 1), false)
  }

  datatype Popped = Nothing | Popped(m: Message)

  datatype Taken = Taken(q: Queue, m: Popped)

  /** `get_async_message` */
  function Dequeue(q: Queue): Taken
    requires Accounted(q)
  {
    if q.msgs == [] then Taken(q, Nothing)
    else
      Taken(Queue(q.msgs[1..], Minus(q.bytes, QueuedSize(q.msgs[0])), q.count - 1), Popped(q.msgs[0]))
  }

  lemma SizePush(msgs: seq<Message>, m: Message, urgent: bool)
    ensures Size(Push(msgs, m, urgent)) == Size(msgs) + QueuedSize(m)
  {
    if urgent {
      assert ([m] + msgs)[1..] == msgs;
    } else {
      SizeConcat(msgs, [m]);
    }
  }

  lemma {:induction false} UndroppableSize(msgs: seq<Message>)
    ensures Size(Undroppable(msgs)) <= Size(msgs)
  {
    if msgs == [] {
    } else {
      UndroppableSize(msgs[1..]);
      SizeConcat(if Droppable(msgs[0]) then [] else [msgs[0]], Undroppable(msgs[1..]));
    }
  }

  /** The connection is given up exactly when what may never be dropped is alone
      over the cap; a queue left standing is within it. */
  lemma OverCapExactly(q: Queue, m: Message, urgent: bool, cap: nat)
    requires Accounted(q)
    ensures var p := Enqueue(q, m, urgent, cap);
            && Accounted(p.q)
            && (p.overCap <==> cap != 0 && Size(Undroppable(Push(q.msgs, m, urgent))) > cap)
            && (cap != 0 && !p.overCap ==> p.q.bytes <= cap)
            && Undroppable(p.q.msgs) == Undroppable(Push(q.msgs, m, urgent))
  {
    hide Size, Undroppable, Thinned, Push, QueuedSize, Shed;
    var msgs := Push(q.msgs, m, urgent);
    SizePush(q.msgs, m, urgent);
    assert |msgs| == |q.msgs| + 1 by { PushLength(q.msgs, m, urgent); }
    var _, _, _ := ShedToIsMinimal(msgs, cap / 4);
    UndroppableSize(msgs);
    UndroppableSize(Thinned(msgs, cap / 4));
  }

  lemma PushLength(msgs: seq<Message>, m: Message, urgent: bool)
    ensures |Push(msgs, m, urgent)| == |msgs| + 1
  {
  }

  // ---- runs --------------------------------------------------------------------------------

  datatype Op = Put(m: Message, urgent: bool) | Get

  /** The queue, everything it has given out, and a reference that is told only of
      undroppable messages and never sheds. */
  datatype Track = Track(q: Queue, out: seq<Message>, reference: seq<Message>, referenceOut: seq<Message>)

  const START := Track(EMPTY, [], [], [])

  /** The queue's undroppable part is the reference's, waiting and delivered. */
  predicate Faithful(t: Track) {
    && Accounted(t.q)
    && Undroppable(t.q.msgs) == t.reference
    && Undroppable(t.out) == t.referenceOut
  }

  function Step(t: Track, op: Op, cap: nat): Track
    requires Faithful(t)
  {
    match op
    case Put(m, urgent) =>
      t.(q := Enqueue(t.q, m, urgent, cap).q,
         reference := if Droppable(m) then t.reference else Push(t.reference, m, urgent))
    case Get =>
      var taken := Dequeue(t.q);
      if taken.m.Nothing? then t
      else if Droppable(taken.m.m) || t.reference == [] then
        t.(q := taken.q, out := t.out + [taken.m.m])
      else
        Track(taken.q, t.out + [taken.m.m], t.reference[1..], t.referenceOut + [t.reference[0]])
  }

  lemma StepFaithful(t: Track, op: Op, cap: nat)
    requires Faithful(t)
    ensures Faithful(Step(t, op, cap))
  {
    match op {
      case Put(m, urgent) =>
        OverCapExactly(t.q, m, urgent, cap);
        UndroppableConcat([m], t.q.msgs);
        UndroppableConcat(t.q.msgs, [m]);
      case Get =>
        if t.q.msgs != [] {
          UndroppableConcat(t.out, [t.q.msgs[0]]);
        }
    }
  }

  function Run(t: Track, ops: seq<Op>, cap: nat): Track
    requires Faithful(t)
    decreases |ops|
  {
    if ops == [] then t
    else
      StepFaithful(t, ops[0], cap);
      Run(Step(t, ops[0], cap), ops[1..], cap)
  }

  /** Over every run of enqueues and dequeues the byte and message counts are exact,
      and audio, configuration and control messages come out exactly as they would
      from a queue that never sheds: none lost, none doubled, in the same order. */
  lemma {:induction false} EveryRunFaithful(t: Track, ops: seq<Op>, cap: nat)
    requires Faithful(t)
    ensures Faithful(Run(t, ops, cap))
    decreases |ops|
  {
    hide Faithful, Step;
    if ops == [] {
    } else {
      StepFaithful(t, ops[0], cap);
      EveryRunFaithful(Step(t, ops[0], cap), ops[1..], cap);
    }
  }

  // ---- in place ------------------------------------------------------------------------------

  class AsyncQueue {
    var msgs: seq<Message>
    var bytes: nat
    var count: nat

    function State(): Queue
      reads this
    {
      Queue(msgs, bytes, count)
    }

    constructor ()
      ensures State() == EMPTY
    {
      msgs, bytes, count := [], 0, 0;
    }

    /** One pass over the list, erasing in place. */
    method ShedPass(c: ShedClass, low: nat) returns (dropped: nat)
      requires bytes == Size(msgs)
      modifies `msgs, `bytes
      ensures msgs == Pass(old(msgs), c, old(bytes), low) && bytes == Size(msgs)
      ensures dropped == |old(msgs)| - |msgs|
    {
      hide Classify, QueuedSize, Size, Pass;
      var i := 0;
      dropped := 0;
      assert msgs[..0] + msgs[0..] == msgs && msgs[0..] == msgs;
      while i < |msgs| && bytes > low
        invariant i <= |msgs| && bytes == Size(msgs)
        invariant msgs[..i] + Pass(msgs[i..], c, bytes, low) == Pass(old(msgs), c, old(bytes), low)
        invariant dropped == |old(msgs)| - |msgs|
        decreases |msgs| - i
      {
        PassStep(msgs, i, c, bytes, low);
        if Classify(msgs[i]) != c {
          i := i + 1;
        } else {
          var n := QueuedSize(msgs[i]);
          SizeSplit(msgs, i);
          bytes := Minus(bytes, n);
          msgs := msgs[..i] + msgs[i + 1..];
          dropped := dropped + 1;
        }
      }
      PassDone(msgs[i..], c, bytes, low);
      assert msgs[..i] + msgs[i..] == msgs;
    }

    method ShedTo(low: nat) returns (dropped: nat)
      requires bytes == Size(msgs)
      modifies `msgs, `bytes
      ensures msgs == Thinned(old(msgs), low) && bytes == Size(msgs)
      ensures dropped == |old(msgs)| - |msgs|
    {
      dropped := ShedPass(InterVideo, low);
      if bytes <= low {
        return;
      }
      var more := ShedPass(KeyVideo, low);
      dropped := dropped + more;
    }

    method EnqueueMessage(m: Message, urgent: bool, cap: nat) returns (overCap: bool)
      requires Accounted(State())
      modifies this
      ensures Pushed(State(), overCap) == Enqueue(old(State()), m, urgent, cap) && Accounted(State())
      ensures overCap <==> cap != 0 && Size(Undroppable(Push(old(msgs), m, urgent))) > cap
    {
      OverCapExactly(State(), m, urgent, cap);
      SizePush(msgs, m, urgent);
      overCap := false;
      msgs := if urgent then [m] + msgs else msgs + [m];
      bytes := bytes + QueuedSize(m);
      count := count + 1;
      if cap != 0 && bytes > cap / 2 {
        var dropped := ShedTo(cap / 4);
        count := count - dropped;
        overCap := bytes > cap;
      }
    }

    method GetMessage() returns (m: Popped)
      requires Accounted(State())
      modifies this
      ensures Taken(State(), m) == Dequeue(old(State())) && Accounted(State())
    {
      if msgs == [] {
        return Nothing;
      }
      m := Popped(msgs[0]);
      bytes := Minus(bytes, QueuedSize(msgs[0]));
      msgs := msgs[1..];
      count := count - 1;
    }
  }

  /** Passing over, or dropping, the message the pass has come to. */
  lemma PassStep(msgs: seq<Message>, i: nat, c: ShedClass, bytes: nat, low: nat)
    requires i < |msgs| && bytes > low
    ensures Classify(msgs[i]) != c ==>
              msgs[..i] + Pass(msgs[i..], c, bytes, low) == msgs[..i + 1] + Pass(msgs[i + 1..], c, bytes, low)
    ensures Classify(msgs[i]) == c ==>
              var rest := msgs[..i] + msgs[i + 1..];
              msgs[..i] + Pass(msgs[i..], c, bytes, low)
              == rest[..i] + Pass(rest[i..], c, Minus(bytes, QueuedSize(msgs[i])), low)
  {
    hide Classify, QueuedSize;
    var tail, rest := msgs[i..], msgs[..i] + msgs[i + 1..];
    assert tail[0] == msgs[i] && tail[1..] == msgs[i + 1..];
    assert rest[..i] == msgs[..i] && rest[i..] == msgs[i + 1..];
    assert msgs[..i + 1] == msgs[..i] + [msgs[i]];
    assert msgs[..i] + ([msgs[i]] + Pass(msgs[i + 1..], c, bytes, low))
        == msgs[..i] + [msgs[i]] + Pass(msgs[i + 1..], c, bytes, low);
  }

  lemma PassDone(msgs: seq<Message>, c: ShedClass, bytes: nat, low: nat)
    requires msgs == [] || bytes <= low
    ensures Pass(msgs, c, bytes, low) == msgs
  {
  }

  lemma SizeSplit(msgs: seq<Message>, i: nat)
    requires i < |msgs|
    ensures Size(msgs) == Size(msgs[..i] + msgs[i + 1..]) + QueuedSize(msgs[i])
  {
    SizeConcat(msgs[..i], msgs[i..]);
    SizeConcat(msgs[..i], msgs[i + 1..]);
    assert msgs[..i] + msgs[i..] == msgs && msgs[i..][1..] == msgs[i + 1..];
  }
}
