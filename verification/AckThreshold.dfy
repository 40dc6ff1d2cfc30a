/** When to acknowledge received bytes (`basic_rtmp_connection.h` and `.cpp`):
    a 32-bit byte counter that wraps, a threshold that wraps with it, and a test
    by signed difference. The reference keeps both as unbounded numbers. */
module AckThreshold {

  type u32 = n: int | 0 <= n < 0x1_0000_0000

  const MIN_WINDOW: u32 := 1024
  const MAX_WINDOW: u32 := 0x2000_0000
  const DEFAULT_WINDOW: u32 := 2500000
  const HALF := 0x8000_0000

  function Wrap(n: int): u32 {
    n % 0x1_0000_0000
  }

  /** `clamp_window` */
  function ClampWindow(n: u32): (w: u32)
    ensures MIN_WINDOW <= w <= MAX_WINDOW && (MIN_WINDOW <= n <= MAX_WINDOW ==> w == n)
  {
    if n < MIN_WINDOW then MIN_WINDOW else if n > MAX_WINDOW then MAX_WINDOW else n
  }

  /** `next_ack_threshold` */
  function NextThreshold(bytesRead: u32, window: u32): u32 {
    Wrap(bytesRead + window)
  }

  /** `ack_due`: the sign of the wrapped difference. */
  predicate AckDue(bytesRead: u32, threshold: u32) {
    Wrap(bytesRead - threshold) < HALF
  }

  /** While the threshold is at most the largest window ahead, the signed difference
      tells the truth exactly until the counter is 2^31 past it, modulo 2^32. */
  lemma DueExactly(bytes: nat, threshold: nat)
    requires threshold - bytes <= MAX_WINDOW
    ensures (AckDue(Wrap(bytes), Wrap(threshold)) <==> bytes >= threshold)
            <==> bytes < threshold || Wrap(bytes - threshold) < HALF
  {
    WrapDifference(bytes, threshold);
  }

  lemma WrapDifference(a: nat, b: nat)
    ensures Wrap(Wrap(a) - Wrap(b)) == Wrap(a - b)
  {
    var m := 0x1_0000_0000;
    var k := a / m - b / m;
    assert a - b == (Wrap(a) - Wrap(b)) + k * m;
    WrapMultiple(Wrap(a) - Wrap(b), k);
  }

  lemma WrapMultiple(n: int, k: int)
    ensures Wrap(n + k * 0x1_0000_0000) == Wrap(n)
  {
  }

  // ---- the connection -------------------------------------------------------------

  /** The connection's own 32-bit fields, whether an application is assigned, and
      the acknowledgements sent. */
  datatype Conn = Conn(bytesRead: u32, threshold: u32, window: u32, app: bool, acks: seq<u32>)

  /** The reference: the same fields without a width. */
  datatype Reference = Reference(bytesRead: nat, threshold: nat, window: nat, app: bool, acks: seq<nat>)

  const CONN := Conn(0, DEFAULT_WINDOW, DEFAULT_WINDOW, false, [])
  const REFERENCE := Reference(0, DEFAULT_WINDOW, DEFAULT_WINDOW, false, [])

  datatype Event = Bytes(n: nat) | PeerWindow(size: u32) | AppAssigned

  /** `handle_bytes_read`, the window branch of `handle_internal_message`, and the
      application being selected. */
  function Handle(c: Conn, e: Event): Conn {
    match e
    case Bytes(n) =>
      var read := Wrap(c.bytesRead + n);
      if AckDue(read, c.threshold) && c.app then
        c.(bytesRead := read, threshold := NextThreshold(read, c.window), acks := c.acks + [read])
      else c.(bytesRead := read)
    case PeerWindow(size) =>
      if size == 0 then c
      else
        var w := ClampWindow(size);
        c.(window := w, threshold := NextThreshold(c.bytesRead, w))
    case AppAssigned => c.(app := true)
  }

  function HandleUnbounded(r: Reference, e: Event): Reference {
    match e
    case Bytes(n) =>
      var read := r.bytesRead + n;
      if read >= r.threshold && r.app then
        r.(bytesRead := read, threshold := read + r.window, acks := r.acks + [read])
      else r.(bytesRead := read)
    case PeerWindow(size) =>
      if size == 0 then r
      else
        var w := ClampWindow(size);
        r.(window := w, threshold := r.bytesRead + w)
    case AppAssigned => r.(app := true)
  }

  predicate Tracks(c: Conn, r: Reference) {
    && c.bytesRead == Wrap(r.bytesRead)
    && c.threshold == Wrap(r.threshold)
    && c.window == r.window && MIN_WINDOW <= r.window <= MAX_WINDOW
    && c.app == r.app
    && r.threshold <= r.bytesRead + MAX_WINDOW
    && |c.acks| == |r.acks| && forall i | 0 <= i < |r.acks| :: c.acks[i] == Wrap(r.acks[i])
  }

  /** A read that can be acknowledged leaves the counter before the threshold or
      less than 2^31 past it, modulo 2^32. */
  predicate InReach(r: Reference, e: Event) {
    e.Bytes? && r.app ==> r.bytesRead + e.n < r.threshold || Wrap(r.bytesRead + e.n - r.threshold) < HALF
  }

  predicate AllInReach(r: Reference, events: seq<Event>)
    decreases |events|
  {
    events == [] || (InReach(r, events[0]) && AllInReach(HandleUnbounded(r, events[0]), events[1..]))
  }

  /** One event: the wrapped fields go on tracking if and only if it is in reach. */
  lemma HandleTracks(c: Conn, r: Reference, e: Event)
    requires Tracks(c, r)
    ensures Tracks(Handle(c, e), HandleUnbounded(r, e)) <==> InReach(r, e)
  {
    match e {
      case Bytes(n) =>
        var read := r.bytesRead + n;
        WrapSum(r.bytesRead, n);
        DueExactly(read, r.threshold);
        WrapSum(read, r.window);
        var c', r' := Handle(c, e), HandleUnbounded(r, e);
        if InReach(r, e) {
          assert forall i | 0 <= i < |r'.acks| :: c'.acks[i] == Wrap(r'.acks[i]);
        } else {
          assert |c'.acks| != |r'.acks|;
        }
      case PeerWindow(size) =>
        WrapSum(r.bytesRead, ClampWindow(size));
      case AppAssigned =>
    }
  }

  lemma WrapSum(a: nat, b: nat)
    ensures Wrap(Wrap(a) + b) == Wrap(a + b)
  {
    var m := 0x1_0000_0000;
    assert a + b == (Wrap(a) + b) + a / m * m;
    WrapMultiple(Wrap(a) + b, a / m);
  }

  function Run(c: Conn, events: seq<Event>): Conn
    decreases |events|
  {
    if events == [] then c else Run(Handle(c, events[0]), events[1..])
  }

  function RunUnbounded(r: Reference, events: seq<Event>): Reference
    decreases |events|
  {
    if events == [] then r else RunUnbounded(HandleUnbounded(r, events[0]), events[1..])
  }

  /** The two agree after every event of the run. */
  predicate TracksThroughout(c: Conn, r: Reference, events: seq<Event>)
    decreases |events|
  {
    && Tracks(c, r)
    && (events == [] || TracksThroughout(Handle(c, events[0]), HandleUnbounded(r, events[0]), events[1..]))
  }

  /** Over every run of reads, window changes and assignments: the wrapping counters
      fire on exactly the reads the unbounded ones do, with the same totals, if and
      only if every event is in reach. */
  lemma {:induction false} WrappingRefinesUnbounded(c: Conn, r: Reference, events: seq<Event>)
    requires Tracks(c, r)
    ensures TracksThroughout(c, r, events) <==> AllInReach(r, events)
    ensures AllInReach(r, events) ==> Tracks(Run(c, events), RunUnbounded(r, events))
    decreases |events|
  {
    hide Tracks, Handle, HandleUnbounded, InReach;
    if events == [] {
    } else {
      HandleTracks(c, r, events[0]);
      if InReach(r, events[0]) {
        WrappingRefinesUnbounded(Handle(c, events[0]), HandleUnbounded(r, events[0]), events[1..]);
      } else {
        NotTracking(Handle(c, events[0]), HandleUnbounded(r, events[0]), events[1..]);
      }
    }
  }

  lemma NotTracking(c: Conn, r: Reference, events: seq<Event>)
    requires !Tracks(c, r)
    ensures !TracksThroughout(c, r, events)
  {
  }

  // ---- the life of a connection ------------------------------------------------------

  /** With an application assigned, the threshold is ahead of the counter. */
  predicate Ahead(r: Reference) {
    r.app && MIN_WINDOW <= r.window && r.bytesRead < r.threshold
  }

  predicate ReadsBelow(events: seq<Event>, limit: nat) {
    forall e | e in events :: e.Bytes? ==> e.n < limit
  }

  lemma ReadsBelowRest(events: seq<Event>, limit: nat)
    requires events != [] && ReadsBelow(events, limit)
    ensures (events[0].Bytes? ==> events[0].n < limit) && ReadsBelow(events[1..], limit)
  {
    assert events[0] in events && forall e | e in events[1..] :: e in events;
  }

  /** Reads of less than 2^31 bytes keep every run of an assigned connection in
      reach, however far the counter goes and whatever windows the peer asks for. */
  lemma {:induction false} AssignedStaysInReach(r: Reference, events: seq<Event>)
    requires Ahead(r) && ReadsBelow(events, HALF)
    ensures AllInReach(r, events) && Ahead(RunUnbounded(r, events))
    decreases |events|
  {
    if events == [] {
    } else {
      ReadsBelowRest(events, HALF);
      AssignedStaysInReach(HandleUnbounded(r, events[0]), events[1..]);
    }
  }

  predicate Unassigned(events: seq<Event>) {
    AppAssigned !in events
  }

  /** The first event that counts after the application is assigned is in reach: a
      read in reach, or a window change, which re-bases the threshold. */
  predicate Settles(r: Reference, events: seq<Event>)
    decreases |events|
  {
    || events == []
    || (events[0].PeerWindow? && events[0].size != 0)
    || (events[0].Bytes? && InReach(r, events[0]))
    || (!events[0].Bytes? && Settles(HandleUnbounded(r, events[0]), events[1..]))
  }

  /** Without an application nothing is acknowledged and everything is in reach; what
      comes after decides. */
  lemma {:induction false} BeforeAssignment(r: Reference, before: seq<Event>, rest: seq<Event>)
    requires !r.app && Unassigned(before) && MIN_WINDOW <= r.window
    ensures var r' := RunUnbounded(r, before);
            && !r'.app && r'.acks == r.acks && MIN_WINDOW <= r'.window
            && (AllInReach(r, before + rest) <==> AllInReach(r', rest))
    decreases |before|
  {
    if before == [] {
      assert before + rest == rest;
    } else {
      assert before[0] in before && (before + rest)[0] == before[0] && (before + rest)[1..] == before[1..] + rest;
      BeforeAssignment(HandleUnbounded(r, before[0]), before[1..], rest);
    }
  }

  lemma {:induction false} SettlesExactly(r: Reference, events: seq<Event>)
    requires r.app && MIN_WINDOW <= r.window && ReadsBelow(events, HALF)
    ensures AllInReach(r, events) <==> Settles(r, events)
    decreases |events|
  {
    if events == [] {
    } else {
      ReadsBelowRest(events, HALF);
      var e := events[0];
      var r' := HandleUnbounded(r, e);
      if e.Bytes? || (e.PeerWindow? && e.size != 0) {
        if InReach(r, e) {
          AssignedStaysInReach(r', events[1..]);
        }
      } else {
        assert r' == r;
        SettlesExactly(r', events[1..]);
      }
    }
  }

  /** From the start of a connection, with anything before the application is assigned
      and reads under 2^31 bytes after it: the whole life is acknowledged on the right
      reads if and only if the first event that counts after the assignment is in
      reach. */
  lemma AcknowledgedThroughout(before: seq<Event>, after: seq<Event>)
    requires Unassigned(before) && ReadsBelow(after, HALF)
    ensures var r := RunUnbounded(REFERENCE, before).(app := true);
            TracksThroughout(CONN, REFERENCE, before + [AppAssigned] + after) <==> Settles(r, after)
  {
    var rest := [AppAssigned] + after;
    assert rest[0] == AppAssigned && rest[1..] == after;
    var r := RunUnbounded(REFERENCE, before);
    BeforeAssignment(REFERENCE, before, rest);
    SettlesExactly(r.(app := true), after);
    assert before + rest == before + [AppAssigned] + after;
    WrappingRefinesUnbounded(CONN, REFERENCE, before + [AppAssigned] + after);
  }

  function Reads(sizes: seq<nat>): seq<Event> {
    if sizes == [] then [] else [Bytes(sizes[0])] + Reads(sizes[1..])
  }

  function Total(sizes: seq<nat>): nat {
    if sizes == [] then 0 else sizes[0] + Total(sizes[1..])
  }

  /** Reads without an application only count. */
  lemma {:induction false} ReadsCount(c: Conn, r: Reference, sizes: seq<nat>)
    requires !r.app && !c.app && c.bytesRead == Wrap(r.bytesRead)
    ensures RunUnbounded(r, Reads(sizes)) == r.(bytesRead := r.bytesRead + Total(sizes))
    ensures Run(c, Reads(sizes)) == c.(bytesRead := Wrap(r.bytesRead + Total(sizes)))
    decreases |sizes|
  {
    if sizes == [] {
    } else {
      var events := Reads(sizes);
      assert events[0] == Bytes(sizes[0]) && events[1..] == Reads(sizes[1..]);
      WrapSum(r.bytesRead, sizes[0]);
      ReadsCount(Handle(c, events[0]), HandleUnbounded(r, events[0]), sizes[1..]);
    }
  }

  lemma {:induction false} RunThen(c: Conn, r: Reference, a: seq<Event>, b: seq<Event>)
    ensures Run(c, a + b) == Run(Run(c, a), b) && RunUnbounded(r, a + b) == RunUnbounded(RunUnbounded(r, a), b)
    decreases |a|
  {
    if a == [] {
      assert a + b == b;
    } else {
      assert (a + b)[0] == a[0] && (a + b)[1..] == a[1..] + b;
      RunThen(Handle(c, a[0]), HandleUnbounded(r, a[0]), a[1..], b);
    }
  }

  function Same(n: nat, k: nat): (s: seq<nat>)
    ensures |s| == k && forall x | x in s :: x == n
  {
    if k == 0 then [] else [n] + Same(n, k - 1)
  }

  lemma {:induction false} SameTotal(n: nat, k: nat)
    ensures Total(Same(n, k)) == n * k
  {
    if k == 0 {
    } else {
      SameTotal(n, k - 1);
      assert Same(n, k)[1..] == Same(n, k - 1);
      assert n * k == n + n * (k - 1);
    }
  }

  const READ_SIZE: nat := 65536

  /** 33024 reads of 65536 bytes before the application is assigned: an
      acknowledgement is owed and the next read sends none. */
  lemma OutOfReachExample()
    ensures var events := Reads(Same(READ_SIZE, 33024)) + [AppAssigned, Bytes(1)];
            RunUnbounded(REFERENCE, events).acks == [0x8100_0001] && Run(CONN, events).acks == []
  {
    hide Same;
    var sizes, last := Same(READ_SIZE, 33024), [AppAssigned, Bytes(1)];
    SameTotal(READ_SIZE, 33024);
    ReadsCount(CONN, REFERENCE, sizes);
    RunThen(CONN, REFERENCE, Reads(sizes), last);
    LateAck();
  }

  lemma LateAck()
    ensures RunUnbounded(REFERENCE.(bytesRead := 0x8100_0000), [AppAssigned, Bytes(1)]).acks == [0x8100_0001]
    ensures Run(CONN.(bytesRead := Wrap(0x8100_0000)), [AppAssigned, Bytes(1)]).acks == []
  {
    var events := [AppAssigned, Bytes(1)];
    assert events[1..] == [Bytes(1)];
  }

  // ---- spacing -----------------------------------------------------------------------

  /** Acknowledged totals are at least the smallest window apart, and the
      threshold at least that far past the last one. */
  predicate Spaced(r: Reference) {
    && MIN_WINDOW <= r.window
    && (forall i, j | 0 <= i < j < |r.acks| :: r.acks[i] + MIN_WINDOW <= r.acks[j])
    && (r.acks != [] ==>
          r.acks[|r.acks| - 1] <= r.bytesRead && r.acks[|r.acks| - 1] + MIN_WINDOW <= r.threshold)
  }

  lemma {:induction false} AcksSpaced(r: Reference, events: seq<Event>)
    requires Spaced(r)
    ensures Spaced(RunUnbounded(r, events))
    decreases |events|
  {
    if events == [] {
    } else {
      var r' := HandleUnbounded(r, events[0]);
      assert Spaced(r');
      AcksSpaced(r', events[1..]);
    }
  }

  /** The total at the later of the last acknowledgement and the last window change. */
  function MarkAfter(r: Reference, mark: nat, e: Event): nat {
    var r' := HandleUnbounded(r, e);
    if |r'.acks| > |r.acks| then r'.bytesRead
    else if e.PeerWindow? && e.size != 0 then r.bytesRead
    else mark
  }

  /** A read, or a window change that is not ignored. */
  predicate Counts(e: Event) {
    e.Bytes? || (e.PeerWindow? && e.size != 0)
  }

  /** Every acknowledgement of the run comes less than one window and one read past
      the mark, or past the `backlog` there was when the application was assigned; and
      once an event has counted none is ever overdue: less than one window has been
      read since the mark. */
  predicate AllPrompt(r: Reference, mark: nat, events: seq<Event>, read: nat, backlog: nat)
    decreases |events|
  {
    events == [] ||
    var r', mark' := HandleUnbounded(r, events[0]), MarkAfter(r, mark, events[0]);
    var latest := if mark + r.window > backlog then mark + r.window - 1 else backlog;
    && (|r'.acks| > |r.acks| ==> r'.bytesRead <= latest + read)
    && (Counts(events[0]) || r.bytesRead < mark + r.window ==> r'.bytesRead < mark' + r'.window)
    && AllPrompt(r', mark', events[1..], read, backlog)
  }

  /** Over every run of reads and window changes of an assigned connection,
      acknowledgements come less than one window and one read after the last
      acknowledgement or window change, and none is overdue after a read. What was
      owed when the application was assigned is acknowledged by the next read. */
  lemma {:induction false} AcksPrompt(r: Reference, mark: nat, events: seq<Event>, read: nat, backlog: nat)
    requires r.app && MIN_WINDOW <= r.window && r.threshold == mark + r.window && ReadsBelow(events, read + 1)
    requires r.bytesRead < r.threshold || r.bytesRead <= backlog
    ensures AllPrompt(r, mark, events, read, backlog)
    decreases |events|
  {
    if events == [] {
    } else {
      ReadsBelowRest(events, read + 1);
      var r' := HandleUnbounded(r, events[0]);
      AcksPrompt(r', MarkAfter(r, mark, events[0]), events[1..], read, backlog);
    }
  }

  function MarkOf(r: Reference, mark: nat, events: seq<Event>): nat
    decreases |events|
  {
    if events == [] then mark
    else MarkOf(HandleUnbounded(r, events[0]), MarkAfter(r, mark, events[0]), events[1..])
  }

  lemma {:induction false} MarkBefore(r: Reference, mark: nat, before: seq<Event>)
    requires !r.app && Unassigned(before) && r.threshold == mark + r.window
    ensures var r' := RunUnbounded(r, before); r'.threshold == MarkOf(r, mark, before) + r'.window
    decreases |before|
  {
    if before == [] {
    } else {
      assert before[0] in before;
      MarkBefore(HandleUnbounded(r, before[0]), MarkAfter(r, mark, before[0]), before[1..]);
    }
  }

  /** From the start of a connection: nothing is acknowledged before the application is
      assigned, and from then on every acknowledgement, the first included, is prompt. */
  lemma LifePrompt(before: seq<Event>, after: seq<Event>, read: nat)
    requires Unassigned(before) && ReadsBelow(after, read + 1)
    ensures var r := RunUnbounded(REFERENCE, before);
            && r.acks == []
            && AllPrompt(r.(app := true), MarkOf(REFERENCE, 0, before), after, read, r.bytesRead)
  {
    BeforeAssignment(REFERENCE, before, []);
    MarkBefore(REFERENCE, 0, before);
    var r := RunUnbounded(REFERENCE, before);
    AcksPrompt(r.(app := true), MarkOf(REFERENCE, 0, before), after, read, r.bytesRead);
  }

  function Starving(n: nat, w: u32, k: nat): seq<Event> {
    if k == 0 then [] else [Bytes(n), PeerWindow(w)] + Starving(n, w, k - 1)
  }

  /** Without the window changes in the mark the spacing fails: a peer that repeats its
      window after every read shorter than it is never acknowledged, however much it
      sends. */
  lemma {:induction false} WindowChangesStarve(r: Reference, n: nat, w: u32, k: nat)
    requires MIN_WINDOW <= w <= MAX_WINDOW && n < w && r.window == w && r.threshold == r.bytesRead + w
    ensures var r' := RunUnbounded(r, Starving(n, w, k));
            r'.acks == r.acks && r'.bytesRead == r.bytesRead + n * k
    decreases k
  {
    if k == 0 {
    } else {
      var events := Starving(n, w, k);
      assert events[0] == Bytes(n) && events[1..][0] == PeerWindow(w) && events[1..][1..] == Starving(n, w, k - 1);
      var r1 := HandleUnbounded(r, Bytes(n));
      var r2 := HandleUnbounded(r1, PeerWindow(w));
      assert RunUnbounded(r, events) == RunUnbounded(r2, Starving(n, w, k - 1));
      WindowChangesStarve(r2, n, w, k - 1);
      assert n * k == n + n * (k - 1);
    }
  }

  // ---- the object ----------------------------------------------------------------------

  class AckCounter {
    var bytesRead: u32
    var notifyAt: u32
    var window: u32
    var app: bool
    var sent: seq<u32>

    function State(): Conn
      reads this
    {
      Conn(bytesRead, notifyAt, window, app, sent)
    }

    constructor ()
      ensures State() == CONN && Tracks(State(), REFERENCE)
    {
      bytesRead, notifyAt, window, app, sent := 0, DEFAULT_WINDOW, DEFAULT_WINDOW, false, [];
    }

    /** An acknowledgement is sent exactly when one is owed, if and only if the read is
        in reach; without an application none is sent. */
    method HandleBytesRead(n: nat, ghost r: Reference)
      requires Tracks(State(), r)
      modifies this
      ensures State() == Handle(old(State()), Bytes(n))
      ensures Tracks(State(), HandleUnbounded(r, Bytes(n))) <==> InReach(r, Bytes(n))
      ensures (|sent| > |old(sent)| <==> app && r.bytesRead + n >= r.threshold) <==> InReach(r, Bytes(n))
    {
      HandleTracks(State(), r, Bytes(n));
      WrapSum(r.bytesRead, n);
      DueExactly(r.bytesRead + n, r.threshold);
      bytesRead := Wrap(bytesRead + n);
      if AckDue(bytesRead, notifyAt) {
        if !app {
          return;
        }
        notifyAt := NextThreshold(bytesRead, window);
        sent := sent + [bytesRead];
      }
    }

    method HandleWindow(size: u32, ghost r: Reference)
      requires Tracks(State(), r)
      modifies this
      ensures State() == Handle(old(State()), PeerWindow(size)) && Tracks(State(), HandleUnbounded(r, PeerWindow(size)))
      ensures sent == old(sent)
    {
      HandleTracks(State(), r, PeerWindow(size));
      if size != 0 {
        window := ClampWindow(size);
        notifyAt := NextThreshold(bytesRead, window);
      }
    }
  }
}
