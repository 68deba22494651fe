/** The life of a stream in pkmanager.c: how a backend connection is opened, throttled, closed in
    each direction and freed, and what one tunnel does to all of its streams. */
module Streams {
  import opened Text

  const WINDOW_MAX := 384
  const WINDOW_INITIAL := 128
  const WINDOW_MIN := 4
  const READ_MAX := 16 * 1024
  const MAX_RECURSION := 3

  /** struct pk_conn: the status bits that matter here, how much waits in the output buffer, the
      flow-control counters, and whether its two watchers are started. */
  datatype Conn = Conn(fd: int, endRead: bool, endWrite: bool, clsRead: bool, clsWrite: bool,
                       dstBlocked: bool, tnlBlocked: bool, wantRead: bool, wantWrite: bool, outPos: nat,
                       readKb: nat, readBytes: nat, sentKb: nat, window: nat, watchRead: bool, watchWrite: bool)

  /** struct pk_backend_conn, and what has happened since it was allocated for the gen-th time:
      EOFs sent, bytes that chunks brought for the backend, how many of them the kernel took and
      how many were thrown away, and whether the peer's acknowledgements never went back. */
  datatype Stream = Stream(conn: Conn, inUse: bool, tunnel: int, gen: nat, eofR: nat, eofW: nat,
                           given: nat, passed: nat, lost: nat, acksGrow: bool)

  const NEW_CONN := Conn(-1, false, false, false, false, false, false, false, false, 0,
                        0, 0, 0, WINDOW_INITIAL, false, false)

  // ---- one update of one stream -----------------------------------------------------

  predicate ReadGone(c: Conn) {
    c.clsRead || c.endRead
  }

  /** Writing is over: it failed, or the peer is done and everything was written out. */
  predicate WriteGone(c: Conn) {
    c.clsWrite || (c.endWrite && c.outPos == 0 && !c.wantWrite)
  }

  predicate Blocked(c: Conn) {
    c.readKb > c.sentKb + c.window
  }

  /** The connection after `pkm_update_io`. */
  function Settled(c: Conn): Conn {
    c.(dstBlocked := Blocked(c),
       endRead := ReadGone(c), clsRead := ReadGone(c),
       watchRead := !ReadGone(c) && (!(Blocked(c) || c.tnlBlocked) || c.wantRead),
       endWrite := c.endWrite || c.clsWrite, clsWrite := WriteGone(c),
       outPos := if c.clsWrite then 0 else c.outPos,
       watchWrite := !WriteGone(c) && (c.outPos > 0 || c.wantWrite))
  }

  /** The stream after `pkm_update_io`: freed if both directions are gone, settled otherwise. */
  function Updated(s: Stream): Stream {
    if s.conn.fd <= 0 then s
    else
      var c := s.conn;
      var t := s.(eofR := s.eofR + if c.clsRead && !c.endRead then 1 else 0,
                  eofW := s.eofW + if c.clsWrite && !c.endWrite then 1 else 0,
                  lost := s.lost + if c.clsWrite then c.outPos else 0);
      if ReadGone(c) && WriteGone(c) then t.(conn := Settled(c).(fd := -1), inUse := false)
      else t.(conn := Settled(c))
  }

  // ---- what is always so of a stream ------------------------------------------------

  /** Even in the middle of a callback. */
  predicate Sound(s: Stream) {
    && s.eofR <= 1 && s.eofW <= 1 && s.given == s.passed + s.conn.outPos + s.lost
    && (s.inUse ==>
          var c := s.conn;
          && (s.eofR > 0 ==> c.endRead) && (s.eofW > 0 ==> c.endWrite)
          && WINDOW_MIN <= c.window <= WINDOW_MAX && c.readBytes < 1024
          && !c.wantRead && !c.wantWrite
          && (s.acksGrow ==> c.readKb <= c.sentKb + WINDOW_MAX + READ_MAX / 1024))
    && (if s.inUse then s.conn.fd > 0 else s.conn.fd == -1)
  }

  /** Between callbacks. */
  predicate AtRest(s: Stream) {
    && Sound(s)
    && (s.inUse ==>
          var c := s.conn;
          && (c.clsRead <==> c.endRead) && (c.clsWrite <==> c.endWrite && c.outPos == 0)
          && !(c.clsRead && c.clsWrite)
          && (c.watchRead <==> !ReadGone(c) && !Blocked(c) && !c.tnlBlocked))
  }

  /** How a stream's slot may change over time. */
  predicate Later(a: Stream, b: Stream) {
    && a.gen <= b.gen
    && (a.gen == b.gen ==>
          && (b.inUse ==> a.inUse) && a.eofR <= b.eofR && a.eofW <= b.eofW
          && a.given <= b.given && a.passed <= b.passed && a.lost <= b.lost
          && (b.acksGrow ==> a.acksGrow) && a.tunnel == b.tunnel
          && (a.inUse && b.inUse ==>
                && (a.conn.fd > 0 ==> a.conn.fd == b.conn.fd) && a.conn.readKb <= b.conn.readKb
                && (a.conn.endRead ==> b.conn.endRead) && (a.conn.endWrite ==> b.conn.endWrite)
                && (a.conn.clsRead ==> b.conn.clsRead) && (a.conn.clsWrite ==> b.conn.clsWrite)))
  }

  /** One update leaves a stream at rest, and frees it exactly when both directions are gone. */
  lemma UpdateSettles(s: Stream)
    requires Sound(s) && s.inUse
    ensures AtRest(Updated(s)) && Later(s, Updated(s))
    ensures !Updated(s).inUse <==> ReadGone(s.conn) && WriteGone(s.conn)
    ensures Updated(Updated(s)) == Updated(s)
  {
  }

  lemma LaterOften(a: Stream, b: Stream, c: Stream)
    requires Later(a, b) && Later(b, c)
    ensures Later(a, c)
  {
  }

  lemma LaterItself(s: Stream)
    ensures Later(s, s)
  {
  }

  // ---- the window -------------------------------------------------------------------

  /** size_t from a negative int, and C's rounding towards zero. */
  function ToSize(v: int): nat {
    v % TWO_64
  }

  function Eighth(v: int): int {
    if v < 0 then -(-v / 8) else v / 8
  }

  function Clamp(w: nat): (r: nat)
    ensures WINDOW_MIN <= r <= WINDOW_MAX
  {
    if w > WINDOW_MAX then WINDOW_MAX else if w < WINDOW_MIN then WINDOW_MIN else w
  }

  /** Both places that shrink the window, in size_t arithmetic. */
  function LessAFifth(window: nat): nat {
    ToSize(window - (1 + window / 5))
  }

  function LessAThird(window: nat): nat {
    ToSize(window - (1 + window / 3))
  }

  /** They subtract no more than there is: neither wraps. */
  lemma ShrinkingIsSafe(window: nat)
    requires WINDOW_MIN <= window <= WINDOW_MAX
    ensures LessAFifth(window) == window - (1 + window / 5) < window
    ensures LessAThird(window) == window - (1 + window / 3) < window
  {
  }

  function Live(ss: seq<Stream>): nat {
    if ss == [] then 0 else Live(ss[..|ss| - 1]) + if ss[|ss| - 1].conn.fd > 0 then 1 else 0
  }

  lemma {:induction false} LiveUpdate(ss: seq<Stream>, i: nat, s: Stream)
    requires i < |ss|
    ensures Live(ss[i := s]) == Live(ss) - (if ss[i].conn.fd > 0 then 1 else 0) + if s.conn.fd > 0 then 1 else 0
  {
    var ts, n := ss[i := s], |ss| - 1;
    if i < n {
      assert ts[..n] == ss[..n][i := s];
      LiveUpdate(ss[..n], i, s);
    } else {
      assert ts[..n] == ss[..n];
    }
  }

  // ---- what a callback does to its stream before it updates it -----------------------

  /** `pkc_read` */
  function AfterRead(s: Stream, r: ReadResult): Stream {
    match r
    case Bytes(n) => s.(conn := s.conn.(readKb := s.conn.readKb + (s.conn.readBytes + n) / 1024,
                                        readBytes := (s.conn.readBytes + n) % 1024))
    case EndOfFile => s.(conn := s.conn.(clsRead := true))
    case Again => s
    case Fatal => s.(conn := s.conn.(clsRead := true, clsWrite := true))
  }

  /** The connection was only read because it was watched, so the window was not used up. */
  lemma ReadIsSound(s: Stream, r: ReadResult)
    requires AtRest(s) && s.inUse && s.conn.watchRead && (r.Bytes? ==> r.n <= READ_MAX)
    ensures Sound(AfterRead(s, r)) && Later(s, AfterRead(s, r)) && AfterRead(s, r).inUse
  {
  }

  /** `pkc_flush` of the stream's own buffer: n bytes at most are left. */
  function AfterFlush(s: Stream, left: nat, failed: bool): Stream {
    var still := if left < s.conn.outPos then left else s.conn.outPos;
    s.(conn := s.conn.(outPos := still, clsWrite := s.conn.clsWrite || failed),
       passed := s.passed + (s.conn.outPos - still))
  }

  lemma FlushIsSound(s: Stream, left: nat, failed: bool)
    requires AtRest(s) && s.inUse
    ensures Sound(AfterFlush(s, left, failed)) && Later(s, AfterFlush(s, left, failed))
    ensures AfterFlush(s, left, failed).inUse
  {
  }

  /** `pkc_write` takes its data to the kernel or the buffer, or else does not take it. */
  predicate Adds(s: Stream, load: Load) {
    load.Data? ==> load.untaken <= load.bytes && load.left + load.untaken <= s.conn.outPos + load.bytes
  }

  /** The payload of a chunk. Nobody looks at what `pkc_write` returns: what it did not take is
      gone. */
  function AfterLoad(s: Stream, load: Load): Stream
    requires Adds(s, load)
  {
    match load
    case Data(bytes, left, untaken, failed) =>
      s.(conn := s.conn.(outPos := left, clsWrite := s.conn.clsWrite || failed),
         given := s.given + bytes, passed := s.passed + (s.conn.outPos + bytes - untaken - left),
         lost := s.lost + untaken)
    case Eof(text) =>
      var (r, w) := EofMeans(text);
      s.(conn := s.conn.(endRead := s.conn.endRead || w, endWrite := s.conn.endWrite || r))
    case Noop => s
  }

  /** The window after the flow-control headers of a chunk. */
  function AckedWindow(window: nat, readKb: nat, throttled: bool, ack: int): (r: nat)
    ensures WINDOW_MIN <= r <= WINDOW_MAX
  {
    var w := if throttled then LessAFifth(window) else window;
    if ack <= 0 then Clamp(w)
    else if w == WINDOW_INITIAL then
      var ahead := ToSigned32(readKb - ack);
      Clamp(ToSize(ahead + Eighth(ahead)))
    else Clamp(w + 1)
  }

  function AfterAck(s: Stream, throttled: bool, ack: int): Stream {
    s.(conn := s.conn.(sentKb := if 0 < ack then ack else s.conn.sentKb,
                       window := AckedWindow(s.conn.window, s.conn.readKb, throttled, ack)),
       acksGrow := s.acksGrow && (ack <= 0 || ack >= s.conn.sentKb))
  }

  lemma LoadIsSound(s: Stream, load: Load)
    requires AtRest(s) && s.inUse && Adds(s, load)
    ensures Sound(AfterLoad(s, load)) && Later(s, AfterLoad(s, load)) && AfterLoad(s, load).inUse
  {
    hide EofMeans;
  }

  /** Whatever a chunk acknowledges, its stream stays in order. */
  lemma AckIsSound(s: Stream, throttled: bool, ack: int)
    requires Sound(s) && s.inUse
    ensures var t := AfterAck(s, throttled, ack);
            Sound(t) && Later(s, t) && t.inUse
  {
    hide AckedWindow;
  }

  /** An acknowledgement of more than was ever read makes a negative difference, which as a
      size_t is huge: the initial window jumps to the largest. */
  lemma AckAheadOpensWindow(s: Stream, ack: int)
    requires Sound(s) && s.inUse && s.conn.window == WINDOW_INITIAL && s.conn.readKb < ack < 0x4000_0000
    ensures AfterAck(s, false, ack).conn.window == WINDOW_MAX
  {
    hide ToSize, Eighth, ToSigned32, Clamp;
    var ahead := ToSigned32(s.conn.readKb - ack);
    AheadIsNegative(s.conn.readKb - ack);
    ClampBig(ToSize(ahead + Eighth(ahead)));
  }

  /** The bound on the backlog needs acknowledgements that do not go back: one that does is
      believed, and leaves more than the largest window and one read unacknowledged. */
  lemma AckGoingBackBreaksBound() returns (s: Stream)
    ensures AtRest(s) && s.inUse && s.acksGrow && s.conn.readKb <= s.conn.sentKb + s.conn.window
    ensures var t := Updated(AfterAck(s, false, 1));
            AtRest(t) && t.inUse && !t.acksGrow && t.conn.readKb > t.conn.sentKb + WINDOW_MAX + READ_MAX / 1024
  {
    s := BusyStream();
    AckIsSound(s, false, 1);
    UpdateSettles(AfterAck(s, false, 1));
    hide AtRest, Sound, Later, AckedWindow;
  }

  lemma BusyStream() returns (s: Stream)
    ensures AtRest(s) && s.inUse && s.acksGrow && s.conn.readKb == 1000 && s.conn.sentKb == 900
    ensures s.conn.window == WINDOW_INITIAL && !ReadGone(s.conn)
  {
    var c := NEW_CONN.(fd := 1, readKb := 1000, sentKb := 900, watchRead := true);
    s := Stream(c, true, 0, 1, 0, 0, 0, 0, 0, true);
  }

  lemma ClampBig(w: nat)
    requires w > WINDOW_MAX
    ensures Clamp(w) == WINDOW_MAX
  {
  }

  lemma AheadIsNegative(v: int)
    requires -0x4000_0000 < v < 0
    ensures ToSigned32(v) == v && ToSize(v + Eighth(v)) > WINDOW_MAX
  {
  }

  // ---- what a tunnel does to its streams --------------------------------------------

  datatype TunnelOp = NoOp | TunnelBlocked | TunnelUnblocked | TunnelGone

  /** What `pkm_update_io` on a tunnel comes to: one that cannot be read is not written either. */
  function OpOf(c: Conn): TunnelOp {
    var dead := c.clsWrite || ReadGone(c);
    if c.fd <= 0 then NoOp
    else if (c.clsRead && !c.endRead) || (dead && !c.endWrite) then TunnelGone
    else if dead then NoOp
    else if c.outPos > 0 || c.wantWrite then TunnelBlocked
    else if c.endWrite then NoOp
    else TunnelUnblocked
  }

  /** A tunnel that blocks takes a third off the window. */
  function Throttled(s: Stream, op: TunnelOp): Stream {
    var w := LessAThird(s.conn.window);
    s.(conn := s.conn.(tnlBlocked := op == TunnelBlocked,
                       window := if op != TunnelBlocked then s.conn.window
                                 else if w < WINDOW_MIN then WINDOW_MIN else w))
  }

  function Ended(s: Stream): Stream {
    s.(conn := s.conn.(endWrite := true, endRead := true))
  }

  function AfterTunnel(s: Stream, fe: int, op: TunnelOp): Stream {
    if s.tunnel != fe || !s.inUse || op == NoOp then s
    else if op == TunnelGone then Updated(Ended(s))
    else if s.conn.tnlBlocked <==> op == TunnelBlocked then s
    else Updated(Throttled(s, op))
  }

  /** Every stream of the tunnel, and no other. */
  ghost predicate TunnelDid(a: seq<Stream>, b: seq<Stream>, fe: int, op: TunnelOp) {
    |a| == |b| && forall k :: 0 <= k < |a| ==> b[k] == AfterTunnel(a[k], fe, op)
  }

  /** When the tunnel is gone its streams are closed for reading, and freed unless something is
      still to be written to the backend, which then is not thrown away. */
  lemma GoneClosesGracefully(s: Stream, fe: int)
    requires AtRest(s) && s.inUse && s.tunnel == fe
    ensures var t := AfterTunnel(s, fe, TunnelGone);
            && AtRest(t) && t.lost == s.lost
            && (t.inUse <==> s.conn.outPos > 0) && t.conn.outPos == s.conn.outPos
            && (t.inUse ==> t.conn.clsRead && t.conn.endWrite && !t.conn.clsWrite && t.conn.watchWrite)
  {
  }

  /** While the tunnel is blocked its streams are not read; afterwards those are that may be. */
  lemma BlockingStopsReading(s: Stream, fe: int, op: TunnelOp)
    requires AtRest(s) && s.inUse && s.tunnel == fe && (op == TunnelBlocked || op == TunnelUnblocked)
    ensures var t := AfterTunnel(s, fe, op);
            && AtRest(t) && t.inUse && t.conn.window <= s.conn.window
            && (t.conn.watchRead <==> op == TunnelUnblocked && !ReadGone(t.conn) && !Blocked(t.conn))
  {
  }

  // ---- all streams ------------------------------------------------------------------

  ghost predicate AllLater(a: seq<Stream>, b: seq<Stream>) {
    |a| == |b| && forall k :: 0 <= k < |a| ==> Later(a[k], b[k])
  }

  /** All streams are at rest but the one a callback works on, if any. */
  ghost predicate AllFine(ss: seq<Stream>, busy: Option<nat>) {
    forall k :: 0 <= k < |ss| ==> Sound(ss[k]) && (busy == Some(k) || AtRest(ss[k]))
  }

  lemma AllLaterItself(a: seq<Stream>)
    ensures AllLater(a, a)
  {
    hide Later;
    forall k | 0 <= k < |a|
      ensures Later(a[k], a[k])
    {
      LaterItself(a[k]);
    }
  }

  lemma AllLaterStep(a: seq<Stream>, b: seq<Stream>, i: nat, s: Stream)
    requires AllLater(a, b) && i < |b| && Later(b[i], s)
    ensures AllLater(a, b[i := s])
  {
    hide Later;
    LaterOften(a[i], b[i], s);
  }

  lemma AllLaterOften(a: seq<Stream>, b: seq<Stream>, c: seq<Stream>)
    requires AllLater(a, b) && AllLater(b, c)
    ensures AllLater(a, c)
  {
    hide Later;
    forall k | 0 <= k < |a|
      ensures Later(a[k], c[k])
    {
      LaterOften(a[k], b[k], c[k]);
    }
  }

  /** One stream is changed in the middle of a callback. */
  lemma FineStep(ss: seq<Stream>, i: nat, s: Stream)
    requires i < |ss| && (AllFine(ss, None) || AllFine(ss, Some(i))) && Sound(s)
    ensures AllFine(ss[i := s], Some(i)) && (AtRest(s) ==> AllFine(ss[i := s], None))
  {
    hide Sound, AtRest;
  }

  lemma FineUpdate(ss: seq<Stream>, i: nat)
    requires i < |ss| && AllFine(ss, Some(i))
    ensures AllFine(ss[i := Updated(ss[i])], None) && AllLater(ss, ss[i := Updated(ss[i])])
    ensures Live(ss[i := Updated(ss[i])]) ==
            Live(ss) - if ss[i].inUse && !Updated(ss[i]).inUse then 1 else 0
  {
    hide AtRest, Later, Live;
    var t := Updated(ss[i]);
    if ss[i].inUse {
      UpdateSettles(ss[i]);
    } else {
      LaterItself(ss[i]);
      FreeIsAtRest(ss[i]);
    }
    hide Updated;
    AllLaterItself(ss);
    AllLaterStep(ss, ss, i, t);
    assert Sound(t) by {
      RestIsSound(t);
    }
    FineStep(ss, i, t);
    LiveUpdate(ss, i, t);
  }

  lemma FreeIsAtRest(s: Stream)
    requires Sound(s) && !s.inUse
    ensures AtRest(s)
  {
  }

  lemma RestIsSound(s: Stream)
    requires AtRest(s)
    ensures Sound(s)
  {
  }

  // ---- runs -------------------------------------------------------------------------

  /** A stream that was just given its slot, connected (fd) or not (fd <= 0). */
  function NewStream(fe: int, gen: nat, fd: int): Stream {
    if 0 < fd then
      Stream(NEW_CONN.(fd := fd, watchRead := true, watchWrite := true), true, fe, gen, 0, 0, 0, 0, 0, true)
    else Stream(NEW_CONN, false, fe, gen, 0, 0, 0, 0, 0, true)
  }

  const FREE_STREAM := NewStream(-1, 0, -1)

  /** Eviction closes both directions. */
  function Dropped(s: Stream): Stream {
    s.(conn := s.conn.(clsWrite := true, clsRead := true))
  }

  function Chunked(s: Stream, load: Load, throttled: bool, ack: int): Stream
    requires Adds(s, load)
  {
    AfterAck(AfterLoad(s, load), throttled, ack)
  }

  /** What a callback did to the streams. */
  datatype Callback =
    | Opened(i: nat, fe: int, fd: int)
    | Evicted(i: nat)
    | WasRead(i: nat, result: ReadResult)
    | WasFlushed(i: nat, left: nat, failed: bool)
    | GotChunk(i: nat, load: Load, throttled: bool, ack: int)
    | OnTunnel(fe: int, op: TunnelOp)

  /** It happened to a table of streams a, which is b now. */
  ghost predicate Step(a: seq<Stream>, e: Callback, b: seq<Stream>) {
    match e
    case Opened(i, fe, fd) => i < |a| && !a[i].inUse && b == a[i := NewStream(fe, a[i].gen + 1, fd)]
    case Evicted(i) =>
      && i < |a| && (forall k :: 0 <= k < |a| ==> a[k].inUse) && b == a[i := Updated(Dropped(a[i]))]
    case WasRead(i, result) =>
      && i < |a| && a[i].inUse && a[i].conn.watchRead && (result.Bytes? ==> 0 < result.n <= READ_MAX)
      && b == a[i := Updated(AfterRead(a[i], result))]
    case WasFlushed(i, left, failed) => i < |a| && a[i].inUse && b == a[i := Updated(AfterFlush(a[i], left, failed))]
    case GotChunk(i, load, throttled, ack) =>
      i < |a| && a[i].inUse && Adds(a[i], load) && b == a[i := Updated(Chunked(a[i], load, throttled, ack))]
    case OnTunnel(fe, op) => TunnelDid(a, b, fe, op)
  }

  /** A manager's streams from its start on: before the first callback, and after each. */
  ghost predicate Run(tables: seq<seq<Stream>>, es: seq<Callback>) {
    && |tables| == |es| + 1 && (forall k :: 0 <= k < |tables[0]| ==> tables[0][k] == FREE_STREAM)
    && forall t :: 0 <= t < |es| ==> Step(tables[t], es[t], tables[t + 1])
  }

  /** One stream changes, and is settled: everything stays in order. */
  lemma OneSettles(a: seq<Stream>, i: nat, s: Stream)
    requires AllFine(a, None) && i < |a| && Sound(s) && s.inUse && Later(a[i], s)
    ensures AllFine(a[i := Updated(s)], None) && AllLater(a, a[i := Updated(s)])
  {
    UpdateSettles(s);
    OneReplaced(a, i, s, Updated(s));
  }

  lemma OneReplaced(a: seq<Stream>, i: nat, s: Stream, t: Stream)
    requires AllFine(a, None) && i < |a| && Later(a[i], s) && Later(s, t) && AtRest(t)
    ensures AllFine(a[i := t], None) && AllLater(a, a[i := t])
  {
    LaterOften(a[i], s, t);
    RestIsSound(t);
    hide Sound, AtRest, Later;
    AllLaterItself(a);
    AllLaterStep(a, a, i, t);
  }

  lemma NewIsAtRest(fe: int, fd: int, was: Stream)
    ensures AtRest(NewStream(fe, was.gen + 1, fd)) && Later(was, NewStream(fe, was.gen + 1, fd))
  {
  }

  lemma EvictionFrees(s: Stream)
    requires AtRest(s) && s.inUse
    ensures Dropped(s).inUse && Sound(Dropped(s)) && Later(s, Dropped(s))
    ensures !Updated(Dropped(s)).inUse && Updated(Dropped(s)).gen == s.gen
  {
  }

  lemma EndingIsSound(s: Stream)
    requires AtRest(s)
    ensures Sound(Ended(s)) && Later(s, Ended(s))
  {
  }

  lemma ThrottledIsSound(s: Stream, op: TunnelOp)
    requires AtRest(s) && s.inUse
    ensures Sound(Throttled(s, op)) && Later(s, Throttled(s, op)) && Throttled(s, op).inUse
  {
    ShrinkingIsSafe(s.conn.window);
    hide LessAThird;
  }

  lemma TunnelIsSound(s: Stream, fe: int, op: TunnelOp)
    requires AtRest(s)
    ensures AtRest(AfterTunnel(s, fe, op)) && Later(s, AfterTunnel(s, fe, op))
  {
    hide AtRest, Sound, Later, Updated, Throttled;
    LaterItself(s);
    if s.tunnel == fe && s.inUse && op == TunnelGone {
      EndingIsSound(s);
      UpdateSettles(Ended(s));
      LaterOften(s, Ended(s), Updated(Ended(s)));
    } else if s.tunnel == fe && s.inUse && op != NoOp {
      ThrottledIsSound(s, op);
      UpdateSettles(Throttled(s, op));
      LaterOften(s, Throttled(s, op), Updated(Throttled(s, op)));
    }
  }

  lemma ChunkIsSound(s: Stream, load: Load, throttled: bool, ack: int)
    requires AtRest(s) && s.inUse && Adds(s, load)
    ensures var t := Chunked(s, load, throttled, ack);
            Sound(t) && Later(s, t) && t.inUse
  {
    hide Sound, Later, AfterLoad, AfterAck;
    LoadIsSound(s, load);
    AckIsSound(AfterLoad(s, load), throttled, ack);
    LaterOften(s, AfterLoad(s, load), Chunked(s, load, throttled, ack));
  }

  lemma StreamIsAtRest(a: seq<Stream>, i: nat)
    requires AllFine(a, None) && i < |a|
    ensures AtRest(a[i]) && Sound(a[i])
  {
  }

  /** Every callback leaves all streams at rest, and no slot goes back in time. */
  lemma StepKeeps(a: seq<Stream>, e: Callback, b: seq<Stream>)
    requires AllFine(a, None) && Step(a, e, b)
    ensures AllFine(b, None) && AllLater(a, b)
  {
    hide AtRest, Sound, Later, Updated, AfterRead, AfterFlush, Chunked, AllFine, AllLater, AfterTunnel;
    match e {
      case Opened(i, fe, fd) =>
        NewIsAtRest(fe, fd, a[i]);
        LaterItself(a[i]);
        OneReplaced(a, i, a[i], b[i]);
      case Evicted(i) =>
        StreamIsAtRest(a, i);
        EvictionFrees(a[i]);
        OneSettles(a, i, Dropped(a[i]));
      case WasRead(i, result) =>
        StreamIsAtRest(a, i);
        ReadIsSound(a[i], result);
        OneSettles(a, i, AfterRead(a[i], result));
      case WasFlushed(i, left, failed) =>
        StreamIsAtRest(a, i);
        FlushIsSound(a[i], left, failed);
        OneSettles(a, i, AfterFlush(a[i], left, failed));
      case GotChunk(i, load, throttled, ack) =>
        StreamIsAtRest(a, i);
        ChunkIsSound(a[i], load, throttled, ack);
        OneSettles(a, i, Chunked(a[i], load, throttled, ack));
      case OnTunnel(fe, op) => TunnelKeeps(a, fe, op, b);
    }
  }

  lemma TunnelKeeps(a: seq<Stream>, fe: int, op: TunnelOp, b: seq<Stream>)
    requires AllFine(a, None) && TunnelDid(a, b, fe, op)
    ensures AllFine(b, None) && AllLater(a, b)
  {
    hide AtRest, Sound, Later, AfterTunnel;
    forall k | 0 <= k < |b|
      ensures Sound(b[k]) && AtRest(b[k]) && Later(a[k], b[k])
    {
      assert AtRest(a[k]);
      TunnelIsSound(a[k], fe, op);
      RestIsSound(b[k]);
    }
  }

  /** In every state of every run all streams are at rest, and between any two of them slots only
      went on in time. */
  lemma {:induction false} RunKeeps(tables: seq<seq<Stream>>, es: seq<Callback>, s: nat, t: nat)
    requires Run(tables, es) && s <= t < |tables|
    ensures AllFine(tables[t], None) && AllLater(tables[s], tables[t])
    decreases t
  {
    hide Step, AllFine, AllLater;
    if t == 0 {
      NoStreamsYet(tables[0]);
    } else {
      var u := t - 1;
      RunKeeps(tables, es, if s < t then s else u, u);
      StepKeeps(tables[u], es[u], tables[u + 1]);
      if s < t {
        AllLaterOften(tables[s], tables[u], tables[t]);
      } else {
        AllLaterItself(tables[t]);
      }
    }
  }

  lemma NoStreamsYet(ss: seq<Stream>)
    requires forall k :: 0 <= k < |ss| ==> ss[k] == FREE_STREAM
    ensures AllFine(ss, None) && AllLater(ss, ss)
  {
    AllLaterItself(ss);
  }

  lemma AllLaterAt(a: seq<Stream>, b: seq<Stream>, i: nat)
    requires AllLater(a, b) && i < |a|
    ensures |a| == |b| && Later(a[i], b[i])
  {
  }

  // ---- what is thrown away -----------------------------------------------------------

  /** How many bytes for the backend of stream i a callback throws away: what waits when the stream
      is evicted or fails, what comes for one that is closed for writing, and what a failed
      `pkc_write` does not take. */
  function Thrown(s: Stream, i: nat, e: Callback): nat {
    match e
    case Evicted(k) => if k == i then s.conn.outPos else 0
    case WasRead(k, result) => if k == i && result.Fatal? then s.conn.outPos else 0
    case WasFlushed(k, left, failed) =>
      if k != i || !failed then 0 else if left < s.conn.outPos then left else s.conn.outPos
    case GotChunk(k, Data(_, left, untaken, failed), _, _) =>
      if k == i then untaken + if s.conn.clsWrite || failed then left else 0 else 0
    case _ => 0
  }

  /** Each callback throws away exactly that. */
  lemma StepLoses(a: seq<Stream>, e: Callback, b: seq<Stream>, i: nat)
    requires AllFine(a, None) && Step(a, e, b) && i < |a| && a[i].gen == b[i].gen
    ensures b[i].lost == a[i].lost + Thrown(a[i], i, e)
  {
    hide AllFine, Updated, Chunked, AfterTunnel, AfterRead, AfterFlush, AtRest, Sound, Later;
    StreamIsAtRest(a, i);
    match e {
      case Opened(k, fe, fd) =>
      case Evicted(k) =>
        EvictionLoses(a[i]);
      case WasRead(k, result) =>
        ReadLoses(a[i], result);
      case WasFlushed(k, left, failed) =>
        FlushLoses(a[i], left, failed);
      case GotChunk(k, load, throttled, ack) =>
        if k == i {
          ChunkLoses(a[i], load, throttled, ack);
        }
      case OnTunnel(fe, op) =>
        TunnelLosesNothing(a[i], fe, op);
    }
  }

  lemma EvictionLoses(s: Stream)
    requires AtRest(s)
    ensures s.inUse ==> Updated(Dropped(s)).lost == s.lost + s.conn.outPos
  {
  }

  lemma ReadLoses(s: Stream, r: ReadResult)
    requires AtRest(s)
    ensures s.inUse ==> Updated(AfterRead(s, r)).lost == s.lost + if r.Fatal? then s.conn.outPos else 0
  {
  }

  lemma FlushLoses(s: Stream, left: nat, failed: bool)
    requires AtRest(s)
    ensures s.inUse ==>
              Updated(AfterFlush(s, left, failed)).lost ==
              s.lost + if !failed then 0 else if left < s.conn.outPos then left else s.conn.outPos
  {
  }

  lemma TunnelLosesNothing(s: Stream, fe: int, op: TunnelOp)
    requires AtRest(s)
    ensures AfterTunnel(s, fe, op).lost == s.lost
  {
  }

  /** A chunk's data is lost if and only if `pkc_write` does not take it whole, or the stream is
      closed for writing, by this very write at the latest, and not all of it went to the kernel. */
  lemma ChunkLoses(s: Stream, load: Load, throttled: bool, ack: int)
    requires AtRest(s) && s.inUse && Adds(s, load)
    ensures (s.conn.clsWrite <==> s.conn.endWrite && s.conn.outPos == 0)
    ensures var t := Updated(Chunked(s, load, throttled, ack));
            t.lost == s.lost + (if !load.Data? then 0
                                else load.untaken + if s.conn.clsWrite || load.failed then load.left else 0)
  {
    hide AckedWindow, EofMeans;
  }

  /** And so many altogether between two moments of a run. */
  function Losses(tables: seq<seq<Stream>>, es: seq<Callback>, s: nat, t: nat, i: nat): nat
    requires s <= t <= |es| < |tables| && forall u :: s <= u < t ==> i < |tables[u]|
  {
    if s == t then 0 else Losses(tables, es, s, t - 1, i) + Thrown(tables[t - 1][i], i, es[t - 1])
  }

  /** Over one allocation of a slot, nothing else is lost. */
  lemma {:induction false} RunLoses(tables: seq<seq<Stream>>, es: seq<Callback>, s: nat, t: nat, i: nat)
    requires Run(tables, es) && s <= t < |tables| && i < |tables[s]|
    ensures forall u :: s <= u <= t ==> |tables[u]| == |tables[s]|
    ensures tables[s][i].gen == tables[t][i].gen ==>
              tables[t][i].lost == tables[s][i].lost + Losses(tables, es, s, t, i)
    decreases t - s
  {
    hide Step, AllFine, Later, Thrown;
    if s < t {
      var u := t - 1;
      RunLoses(tables, es, s, u, i);
      RunKeeps(tables, es, s, u);
      RunKeeps(tables, es, u, t);
      AllLaterAt(tables[s], tables[u], i);
      AllLaterAt(tables[u], tables[t], i);
      GenGrows(tables[s][i], tables[u][i], tables[t][i]);
      if tables[s][i].gen == tables[t][i].gen {
        StepLoses(tables[u], es[u], tables[t], i);
      }
    }
  }

  lemma GenGrows(a: Stream, b: Stream, c: Stream)
    requires Later(a, b) && Later(b, c)
    ensures a.gen <= b.gen <= c.gen
  {
  }

  /** In every run, over one allocation of a slot: closed directions stay closed, a freed slot
      stays free, both directions closed means freed, at most one EOF of each kind is sent, every
      byte that chunks brought for the backend was taken by the kernel, waits or was thrown away,
      by the callbacks that `Thrown` names and no others, and the backlog is bounded if
      acknowledgements do not go back. */
  lemma OverOneAllocation(tables: seq<seq<Stream>>, es: seq<Callback>, s: nat, t: nat, i: nat)
    requires Run(tables, es) && s <= t < |tables| && i < |tables[s]|
    ensures forall u :: s <= u <= t ==> i < |tables[u]|
    ensures tables[s][i].gen <= tables[t][i].gen
    ensures var a, b := tables[s][i], tables[t][i];
            && (b.inUse ==> WINDOW_MIN <= b.conn.window <= WINDOW_MAX)
            && b.given == b.passed + b.conn.outPos + b.lost
            && (a.gen == b.gen ==>
                  && b.eofR <= 1 && b.eofW <= 1 && b.lost == a.lost + Losses(tables, es, s, t, i)
                  && (b.inUse ==>
                        && a.inUse && a.conn.fd == b.conn.fd && a.tunnel == b.tunnel
                        && (a.conn.clsRead ==> b.conn.clsRead)
                        && (a.conn.clsWrite ==> b.conn.clsWrite && b.conn.outPos == 0)
                        && !(b.conn.clsRead && b.conn.clsWrite))
                  && (b.inUse && b.acksGrow ==> b.conn.readKb <= b.conn.sentKb + WINDOW_MAX + READ_MAX / 1024))
  {
    hide Step, AllFine, AllLater, Thrown;
    RunLoses(tables, es, s, t, i);
    RunKeeps(tables, es, 0, s);
    RunKeeps(tables, es, s, t);
    var a, b := tables[s], tables[t];
    AllLaterAt(a, b, i);
    StreamIsAtRest(a, i);
    StreamIsAtRest(b, i);
  }

  // ---- the manager ------------------------------------------------------------------

  /** Which directions an EOF header closes: `1R`, `1W`, `1RW`, or, as old peers send it, neither
      letter for both. */
  function EofMeans(eof: string): (bool, bool) {
    var r, w := 'R' in eof || 'r' in eof, 'W' in eof || 'w' in eof;
    if !r && !w then (true, true) else (r, w)
  }

  datatype ReadResult = Bytes(n: nat) | EndOfFile | Again | Fatal

  /** What a chunk brings a stream: data, with what `pkc_write` then leaves in the output buffer,
      how much of the data it does not take and whether it marks the connection closed; an EOF
      header; or neither. */
  datatype Load = Data(bytes: nat, left: nat, untaken: nat, failed: bool) | Eof(text: string) | Noop

  /** The slot that is looked at j-th. */
  function Around(start: nat, j: nat, n: nat): (k: nat)
    requires start < n && j < n
    ensures k < n
  {
    if j + start < n then j + start else j + start - n
  }

  /** Slot k is free, and the slots looked at before it are not. */
  ghost predicate FirstFree(ss: seq<Stream>, start: nat, k: nat) {
    && start < |ss| && k < |ss| && !ss[k].inUse
    && exists i :: 0 <= i < |ss| && k == Around(start, i, |ss|) &&
                   forall j :: 0 <= j < i ==> ss[Around(start, j, |ss|)].inUse
  }

  lemma FirstIsFree(ss: seq<Stream>, start: nat, k: nat)
    requires FirstFree(ss, start, k)
    ensures k < |ss| && !ss[k].inUse
  {
  }

  /** Of the first `some` slots looked at, the least active one that may be evicted, and of equally
      active ones the last. */
  ghost predicate Idlest(start: nat, now: int, activity: seq<int>, pinned: seq<bool>, some: nat, at: Option<nat>) {
    && some <= |activity| == |pinned| && start < |activity|
    && var n := |activity|;
       match at
       case None => forall j :: 0 <= j < some ==> pinned[Around(start, j, n)] || activity[Around(start, j, n)] > now
       case Some(i) =>
         && i < some && !pinned[Around(start, i, n)] && activity[Around(start, i, n)] <= now
         && forall j :: 0 <= j < some && !pinned[Around(start, j, n)] ==>
              && activity[Around(start, i, n)] <= activity[Around(start, j, n)]
              && (j > i ==> activity[Around(start, i, n)] < activity[Around(start, j, n)])
  }

  lemma IdlestInRange(start: nat, now: int, activity: seq<int>, pinned: seq<bool>, at: Option<nat>)
    requires Idlest(start, now, activity, pinned, |activity|, at)
    ensures at.Some? ==> at.value < |activity|
  {
  }

  /** It is evicted if there is a limit and it has been idle for longer. */
  function Evictable(start: nat, later: int, idleLimit: int, activity: seq<int>, at: Option<nat>): (slot: Option<nat>)
    requires start < |activity| && (at.Some? ==> at.value < |activity|)
    ensures slot.Some? ==> slot.value < |activity|
  {
    if at.None? then None
    else
      var k := Around(start, at.value, |activity|);
      if idleLimit != 0 && idleLimit < later - activity[k] then Some(k) else None
  }

  /** An EOF frame: over which tunnel, of which stream, and which directions it ends. */
  datatype Goodbye = Goodbye(tunnel: nat, slot: nat, read: bool, write: bool)

  /** What an update tells the other end of a stream with this connection: each direction that is
      closed, if it was not known to be. */
  function Goodbyes(fe: nat, i: nat, c: Conn): seq<Goodbye> {
    if c.fd > 0 && ((c.clsRead && !c.endRead) || (c.clsWrite && !c.endWrite))
    then [Goodbye(fe, i, c.clsRead && !c.endRead, c.clsWrite && !c.endWrite)] else []
  }

  lemma GoodbyesAre(fe: nat, i: nat, c: Conn, read: bool, write: bool)
    requires c.fd > 0 && read == (c.clsRead && !c.endRead) && write == (c.clsWrite && !c.endWrite)
    ensures Goodbyes(fe, i, c) == if read || write then [Goodbye(fe, i, read, write)] else []
  {
  }

  /** A backend that is at its end, or fails. */
  lemma ReadingSays(fe: nat, i: nat, s: Stream, result: ReadResult)
    requires AtRest(s) && s.inUse && s.conn.watchRead
    ensures Goodbyes(fe, i, AfterRead(s, result).conn) ==
            match result
            case Bytes(_) => []
            case Again => []
            case EndOfFile => [Goodbye(fe, i, true, false)]
            case Fatal => [Goodbye(fe, i, true, !s.conn.endWrite)]
  {
  }

  lemma FlushingSays(fe: nat, i: nat, s: Stream, left: nat, failed: bool)
    requires AtRest(s) && s.inUse
    ensures Goodbyes(fe, i, AfterFlush(s, left, failed).conn) ==
            if failed && !s.conn.endWrite then [Goodbye(fe, i, false, true)] else []
  {
  }

  /** An EOF from the other end is not answered; only a write that fails is reported. */
  lemma LoadSays(fe: nat, i: nat, s: Stream, load: Load, throttled: bool, ack: int)
    requires AtRest(s) && s.inUse && Adds(s, load)
    ensures Goodbyes(fe, i, Chunked(s, load, throttled, ack).conn) ==
            if load.Data? && load.failed && !s.conn.endWrite then [Goodbye(fe, i, false, true)] else []
  {
    hide AckedWindow;
  }

  /** Nothing is left to say of a stream at rest, ended or throttled by its tunnel. */
  lemma NothingToSay(fe: nat, i: nat, s: Stream, op: TunnelOp)
    requires AtRest(s)
    ensures Goodbyes(fe, i, s.conn) == Goodbyes(fe, i, Ended(s).conn) == Goodbyes(fe, i, Throttled(s, op).conn) == []
  {
  }

  /** An evicted stream says so, for each direction that was not over. */
  lemma EvictionSays(fe: nat, i: nat, s: Stream)
    requires Sound(s) && s.inUse
    ensures Goodbyes(fe, i, Dropped(s).conn) ==
            if s.conn.endRead && s.conn.endWrite then [] else [Goodbye(fe, i, !s.conn.endRead, !s.conn.endWrite)]
  {
  }

  /** What an update makes of a tunnel. One that cannot be read is not written any more either. */
  predicate SettledTunnel(c: Conn, d: Conn) {
    var gone := c.clsRead || c.endRead;
    && d.fd == c.fd && d.endRead == d.clsRead == gone
    && (d.watchRead <==> !gone && (!(c.dstBlocked || c.tnlBlocked) || c.wantRead))
    && d.endWrite == (c.endWrite || c.clsWrite || gone) && d.outPos == (if c.clsWrite || gone then 0 else c.outPos)
    && (d.clsWrite <==> c.clsWrite || gone || (c.endWrite && c.outPos == 0 && !c.wantWrite))
    && (d.watchWrite <==> !d.clsWrite && (c.outPos > 0 || c.wantWrite))
  }

  ghost predicate SettledTunnels(a: seq<Conn>, b: seq<Conn>, fe: nat) {
    && fe < |a| == |b| && SettledTunnel(a[fe], b[fe])
    && forall k :: 0 <= k < |a| && k != fe ==> b[k] == a[k]
  }

  class Manager {
    const streams: array<Stream>
    const tunnels: array<Conn>
    /** pk_state.live_streams */
    var liveStreams: int
    /** Every EOF frame that was sent over a tunnel so far. */
    var goodbyes: seq<Goodbye>

    ghost predicate Ready(busy: Option<nat>)
      reads this, streams
    {
      liveStreams == Live(streams[..]) && AllFine(streams[..], busy)
    }

    ghost predicate Valid()
      reads this, streams
    {
      Ready(None)
    }

    /** `pkm_manager_init`: no stream is open, no tunnel is up. */
    constructor (conns: nat, tunnelCount: nat)
      ensures Valid() && streams.Length == conns && tunnels.Length == tunnelCount && fresh(streams) && fresh(tunnels)
      ensures goodbyes == [] && forall k :: 0 <= k < conns ==> streams[k] == FREE_STREAM
    {
      streams := new Stream[conns](_ => FREE_STREAM);
      tunnels := new Conn[tunnelCount](_ => NEW_CONN);
      liveStreams, goodbyes := 0, [];
      new;
      NoStreamsYet(streams[..]);
      NoneLive(streams[..]);
    }

    lemma {:induction false} NoneLive(ss: seq<Stream>)
      requires forall k :: 0 <= k < |ss| ==> ss[k] == FREE_STREAM
      ensures Live(ss) == 0
    {
      if ss != [] {
        NoneLive(ss[..|ss| - 1]);
      }
    }

    /** Anything may become of a tunnel's buffer and status when something is written to it. */
    method TunnelWrite(fe: nat)
      requires fe < tunnels.Length
      modifies tunnels
    {
      var left: nat := *;
      var failed: bool := *;
      tunnels[fe] := tunnels[fe].(outPos := left, clsWrite := tunnels[fe].clsWrite || failed);
    }

    /** An EOF frame is written to a tunnel and flushed. */
    method SendEof(fe: nat, i: nat, read: bool, write: bool)
      requires fe < tunnels.Length
      modifies this`goodbyes, tunnels
      ensures goodbyes == old(goodbyes) + [Goodbye(fe, i, read, write)]
    {
      goodbyes := goodbyes + [Goodbye(fe, i, read, write)];
      TunnelWrite(fe);
    }

    /** `pkm_yield`: others may reconnect or close tunnels; they leave streams alone. */
    method Yield()
      modifies tunnels
    {
      var k := 0;
      while k < tunnels.Length {
        var c: Conn := *;
        tunnels[k] := c;
        k := k + 1;
      }
    }

    /** The read half of `pkm_update_io`. */
    method ReadSide(c: Conn) returns (d: Conn, eof: bool, flows: int)
      ensures d == c.(endRead := ReadGone(c), clsRead := ReadGone(c),
                      watchRead := !ReadGone(c) && (!(c.dstBlocked || c.tnlBlocked) || c.wantRead))
      ensures eof == (c.clsRead && !c.endRead) && flows == if ReadGone(c) then 0 else 1
    {
      d, eof, flows := c, false, 1;
      if c.clsRead || c.endRead {
        if !c.endRead {
          eof := true;
        }
        d := d.(endRead := true, clsRead := true, watchRead := false);
        flows := flows - 1;
      } else if (c.dstBlocked || c.tnlBlocked) && !c.wantRead {
        d := d.(watchRead := false);
      } else {
        d := d.(watchRead := true);
      }
    }

    /** The write half. */
    method WriteSide(c: Conn) returns (d: Conn, eof: bool, flows: int, op: TunnelOp)
      ensures d == c.(endWrite := c.endWrite || c.clsWrite, clsWrite := WriteGone(c),
                      outPos := if c.clsWrite then 0 else c.outPos,
                      watchWrite := !WriteGone(c) && (c.outPos > 0 || c.wantWrite))
      ensures eof == (c.clsWrite && !c.endWrite) && flows == if WriteGone(c) then 0 else 1
      ensures op == if WriteGone(c) then NoOp
                    else if c.outPos > 0 || c.wantWrite then TunnelBlocked else TunnelUnblocked
    {
      d, eof, flows, op := c, false, 1, NoOp;
      if c.clsWrite {
        if !c.endWrite {
          eof := true;
        }
        d := d.(endWrite := true, clsWrite := true, outPos := 0, watchWrite := false);
        flows := flows - 1;
      } else if 0 < c.outPos || c.wantWrite {
        d := d.(watchWrite := true);
        op := TunnelBlocked;
      } else {
        if c.endWrite {
          d := d.(clsWrite := true);
          flows := flows - 1;
        } else {
          op := TunnelUnblocked;
        }
        d := d.(watchWrite := false);
      }
    }

    /** Both halves, for a stream. */
    method BothSides(conn: Conn) returns (c: Conn, eofRead: bool, eofWrite: bool, flows: int)
      ensures c == Settled(conn)
      ensures eofRead == (conn.clsRead && !conn.endRead) && eofWrite == (conn.clsWrite && !conn.endWrite)
      ensures flows <= 0 <==> ReadGone(conn) && WriteGone(conn)
    {
      c := conn.(dstBlocked := conn.readKb > conn.sentKb + conn.window);
      var rflows, wflows, op;
      c, eofRead, rflows := ReadSide(c);
      c, eofWrite, wflows, op := WriteSide(c);
      flows := rflows + wflows;
    }

    /** `pkm_update_io` on a stream that has a socket: progress is reported and EOFs are sent over
        the tunnel, and the stream is cleaned up when both directions are gone. */
    method Settle(fe: nat, i: nat, s: Stream) returns (t: Stream, flows: int)
      requires fe < tunnels.Length && s.conn.fd > 0
      modifies this`goodbyes, tunnels
      ensures t == Updated(s) && goodbyes == old(goodbyes) + Goodbyes(fe, i, s.conn)
      ensures flows <= 0 <==> ReadGone(s.conn) && WriteGone(s.conn)
    {
      hide Settled, ReadGone, WriteGone, Goodbyes;
      TunnelWrite(fe);
      var c, eofRead, eofWrite;
      c, eofRead, eofWrite, flows := BothSides(s.conn);
      var lost := if s.conn.clsWrite then s.conn.outPos else 0;
      t := s.(eofR := s.eofR + if eofRead then 1 else 0,
              eofW := s.eofW + if eofWrite then 1 else 0,
              lost := s.lost + lost);
      GoodbyesAre(fe, i, s.conn, eofRead, eofWrite);
      if eofRead || eofWrite {
        SendEof(fe, i, eofRead, eofWrite);
      }
      if flows <= 0 {
        t := t.(conn := c.(fd := -1), inUse := false);
      } else {
        t := t.(conn := c);
      }
    }

    /** `pkm_update_io` for a stream. */
    method UpdateStream(fe: nat, i: nat) returns (flows: int)
      requires fe < tunnels.Length && i < streams.Length && Ready(Some(i))
      modifies this`liveStreams, this`goodbyes, streams, tunnels
      ensures Valid() && streams[..] == old(streams[..])[i := Updated(old(streams[i]))]
      ensures AllLater(old(streams[..]), streams[..])
      ensures goodbyes == old(goodbyes) + Goodbyes(fe, i, old(streams[i].conn))
      ensures old(streams[i].inUse) ==> (flows <= 0 <==> !streams[i].inUse)
    {
      hide Sound, AtRest, Later, Live, ReadGone, WriteGone, AllFine, AllLater;
      ghost var was := streams[..];
      FineUpdate(was, i);
      BusyIsSound(was, i);
      var s := streams[i];
      if s.conn.fd <= 0 {
        assert was[i := s] == was;
        return 0;
      }
      s, flows := Settle(fe, i, s);
      if flows <= 0 {
        liveStreams := liveStreams - 1;
      }
      streams[i] := s;
      assert streams[..] == was[i := Updated(was[i])];
      Yield();
    }

    lemma BusyIsSound(ss: seq<Stream>, i: nat)
      requires i < |ss| && AllFine(ss, Some(i))
      ensures if ss[i].inUse then ss[i].conn.fd > 0 else ss[i].conn.fd == -1
    {
    }

    lemma FdInUse(s: Stream)
      requires Sound(s)
      ensures if s.inUse then s.conn.fd > 0 else s.conn.fd == -1
    {
    }

    /** `pkm_update_io`. A callback starts it at depth 0: the branch for too deep a recursion is
        dead. */
    method UpdateIo(fe: nat, pkb: Option<nat>, depth: nat) returns (flows: int)
      requires fe < tunnels.Length && (pkb.Some? ==> pkb.value < streams.Length) && Ready(pkb)
      requires depth <= if pkb.Some? then 1 else 0
      modifies this`liveStreams, this`goodbyes, streams, tunnels
      ensures Valid() && AllLater(old(streams[..]), streams[..])
      ensures pkb.Some? ==> streams[..] == old(streams[..])[pkb.value := Updated(old(streams[pkb.value]))]
      ensures pkb.Some? ==> goodbyes == old(goodbyes) + Goodbyes(fe, pkb.value, old(streams[pkb.value].conn))
      ensures pkb.None? ==> TunnelDid(old(streams[..]), streams[..], fe, OpOf(old(tunnels[fe])))
      ensures pkb.None? ==> goodbyes == old(goodbyes)
      ensures pkb.None? ==> (flows <= 0 <==> old(tunnels[fe].fd <= 0 || tunnels[fe].clsRead || tunnels[fe].endRead))
      decreases if pkb.Some? then 0 else 3, 0
    {
      hide Sound, AtRest, Later, Live, Updated;
      var recursion := depth + 1;
      if recursion > MAX_RECURSION {
        assert false;
      }
      if pkb.Some? {
        flows := UpdateStream(fe, pkb.value);
      } else {
        ghost var settled, left;
        flows, settled, left := UpdateTunnel(fe, recursion);
      }
    }

    /** Both halves, for a tunnel; `flows` is how many directions are left. */
    method TunnelSides(c: Conn) returns (d: Conn, eof: bool, flows: int, op: TunnelOp)
      requires c.fd > 0
      ensures SettledTunnel(c, d)
      ensures flows <= 0 <==> c.clsRead || c.endRead
      ensures op != TunnelGone && (if eof then TunnelGone else op) == OpOf(c)
    {
      var eofRead, eofWrite, rflows, wflows;
      d, eofRead, rflows := ReadSide(c);
      if rflows <= 0 {
        d := d.(clsWrite := true);
      }
      d, eofWrite, wflows, op := WriteSide(d);
      eof, flows := eofRead || eofWrite, rflows + wflows;
    }

    /** `pkm_update_io` for a tunnel. `settled` are the tunnels before any stream is looked at, `left`
        is what is left of this one before others are let in. */
    method UpdateTunnel(fe: nat, recursion: nat)
      returns (flows: int, ghost settled: seq<Conn>, ghost left: Conn)
      requires fe < tunnels.Length && Valid() && recursion <= 1
      modifies this`liveStreams, this`goodbyes, streams, tunnels
      ensures Valid() && AllLater(old(streams[..]), streams[..]) && goodbyes == old(goodbyes)
      ensures TunnelDid(old(streams[..]), streams[..], fe, OpOf(old(tunnels[fe])))
      ensures flows <= 0 <==> old(tunnels[fe].fd <= 0 || tunnels[fe].clsRead || tunnels[fe].endRead)
      ensures old(tunnels[fe].fd > 0) ==> SettledTunnels(old(tunnels[..]), settled, fe)
      ensures old(tunnels[fe].fd > 0) && flows <= 0 ==>
                && left.fd == -1 && left.outPos == 0 && !left.watchRead && !left.watchWrite
                && !left.clsRead && !left.clsWrite && !left.endRead && !left.endWrite
      ensures old(tunnels[fe].fd <= 0) ==> tunnels[..] == old(tunnels[..])
      decreases 2, 0
    {
      AllLaterItself(streams[..]);
      NothingDone(streams[..], fe);
      hide Sound, AtRest, Later, Live, Updated, AllLater, AllFine, TunnelDid, AfterTunnel, OpOf;
      settled, left := tunnels[..], tunnels[fe];
      if tunnels[fe].fd <= 0 {
        return 0, settled, left;
      }
      var c, eof, op;
      c, eof, flows, op := TunnelSides(tunnels[fe]);
      tunnels[fe] := c;
      settled := tunnels[..];
      if eof {
        EndStreams(fe, recursion);
        op := NoOp;
      }
      if flows <= 0 {
        tunnels[fe] := NEW_CONN;
      } else if op != NoOp {
        FlowControlTunnel(fe, op, recursion);
      }
      left := tunnels[fe];
      Yield();
    }

    lemma NothingDone(ss: seq<Stream>, fe: int)
      ensures TunnelDid(ss, ss, fe, NoOp)
    {
    }

    /** The tunnel is gone: its streams have nobody to talk to. */
    method EndStreams(fe: nat, recursion: nat)
      requires fe < tunnels.Length && Valid() && recursion <= 1
      modifies this`liveStreams, this`goodbyes, streams, tunnels
      ensures Valid() && AllLater(old(streams[..]), streams[..]) && goodbyes == old(goodbyes)
      ensures TunnelDid(old(streams[..]), streams[..], fe, TunnelGone)
      decreases 1, 0
    {
      hide Sound, AtRest, Later, Live, Updated, AllLater, AllFine, Goodbyes;
      ghost var was := streams[..];
      AllLaterItself(was);
      var i := 0;
      while i < streams.Length
        invariant i <= streams.Length && Valid() && AllLater(was, streams[..]) && goodbyes == old(goodbyes)
        invariant forall k :: 0 <= k < i ==> streams[k] == AfterTunnel(was[k], fe, TunnelGone)
        invariant forall k :: i <= k < streams.Length ==> streams[k] == was[k]
      {
        if streams[i].tunnel == fe && streams[i].inUse {
          ghost var before := streams[..];
          var s := streams[i];
          s := s.(conn := s.conn.(endWrite := true, endRead := true));
          FineIsSound(before, i);
          EndingIsSound(streams[i]);
          NothingToSay(fe, i, streams[i], TunnelGone);
          Change(fe, i, s, recursion);
          AllLaterOften(was, before, streams[..]);
        }
        i := i + 1;
      }
    }

    /** Changes a stream and updates it. */
    method Change(fe: nat, i: nat, s: Stream, recursion: nat)
      requires fe < tunnels.Length && i < streams.Length && Valid() && recursion <= 1
      requires Sound(s) && Later(streams[i], s) && (s.inUse <==> streams[i].inUse)
      modifies this`liveStreams, this`goodbyes, streams, tunnels
      ensures Valid() && AllLater(old(streams[..]), streams[..])
      ensures streams[..] == old(streams[..])[i := Updated(s)] && goodbyes == old(goodbyes) + Goodbyes(fe, i, s.conn)
      decreases 0, 1
    {
      hide Sound, AtRest, Later, Live, Updated, AllLater;
      ghost var was := streams[..];
      AllLaterItself(was);
      AllLaterStep(was, was, i, s);
      FdInUse(s);
      FineIsSound(was, i);
      Touch(i, s);
      var _ := UpdateIo(fe, Some(i), recursion);
      AllLaterOften(was, was[i := s], streams[..]);
      assert streams[..] == was[i := Updated(s)];
    }

    lemma FineIsSound(ss: seq<Stream>, i: nat)
      requires i < |ss| && AllFine(ss, None)
      ensures Sound(ss[i]) && AtRest(ss[i]) && if ss[i].inUse then ss[i].conn.fd > 0 else ss[i].conn.fd == -1
    {
    }

    /** Changes a stream in the middle of a callback; its socket stays. */
    method Touch(i: nat, s: Stream)
      requires i < streams.Length && Valid() && Sound(s) && (s.conn.fd > 0 <==> streams[i].conn.fd > 0)
      modifies streams
      ensures Ready(Some(i)) && streams[..] == old(streams[..])[i := s]
    {
      hide Sound, AtRest, Live;
      LiveUpdate(streams[..], i, s);
      FineStep(streams[..], i, s);
      streams[i] := s;
      assert streams[..] == old(streams[..])[i := s];
    }

    /** What `pkm_flow_control_tunnel` does to one of its streams before it updates it. */
    method Throttle(s: Stream, op: TunnelOp) returns (t: Stream)
      requires AtRest(s) && s.inUse && (op == TunnelBlocked || op == TunnelUnblocked)
      ensures t == if s.conn.tnlBlocked <==> op == TunnelBlocked then s else Throttled(s, op)
    {
      hide Sound, Later;
      WindowInRange(s);
      ShrinkingIsSafe(s.conn.window);
      hide LessAThird;
      var blocked, window := s.conn.tnlBlocked, s.conn.window;
      if blocked {
        if op == TunnelUnblocked {
          blocked := false;
        }
      } else if op == TunnelBlocked {
        blocked := true;
      }
      if blocked == s.conn.tnlBlocked {
        return s;
      }
      if op == TunnelBlocked {
        window := window - (1 + window / 3);
        if window < WINDOW_MIN {
          window := WINDOW_MIN;
        }
      }
      t := s.(conn := s.conn.(tnlBlocked := blocked, window := window));
    }

    lemma WindowInRange(s: Stream)
      requires Sound(s) && s.inUse
      ensures WINDOW_MIN <= s.conn.window <= WINDOW_MAX
    {
    }

    /** One turn of `pkm_flow_control_tunnel`. */
    method BlockStream(fe: nat, i: nat, op: TunnelOp, recursion: nat)
      requires fe < tunnels.Length && i < streams.Length && Valid() && recursion <= 1
      requires streams[i].inUse && streams[i].tunnel == fe && (op == TunnelBlocked || op == TunnelUnblocked)
      modifies this`liveStreams, this`goodbyes, streams, tunnels
      ensures Valid() && AllLater(old(streams[..]), streams[..]) && goodbyes == old(goodbyes)
      ensures streams[..] == old(streams[..])[i := AfterTunnel(old(streams[i]), fe, op)]
      decreases 0, 2
    {
      hide Sound, AtRest, Later, Live, Updated, AllLater, AllFine, Throttled, Goodbyes;
      ghost var was := streams[..];
      AllLaterItself(was);
      FineIsSound(was, i);
      var s := Throttle(streams[i], op);
      if s.conn.tnlBlocked != streams[i].conn.tnlBlocked {
        ThrottledIsSound(streams[i], op);
        NothingToSay(fe, i, streams[i], op);
        Change(fe, i, s, recursion);
      } else {
        NothingThrottled(was[i], op);
        assert was[i := was[i]] == was;
      }
    }

    lemma NothingThrottled(s: Stream, op: TunnelOp)
      ensures Throttled(s, op).conn.tnlBlocked <==> op == TunnelBlocked
    {
    }

    /** `pkm_flow_control_tunnel` */
    method FlowControlTunnel(fe: nat, op: TunnelOp, recursion: nat)
      requires fe < tunnels.Length && Valid() && recursion <= 1 && (op == TunnelBlocked || op == TunnelUnblocked)
      modifies this`liveStreams, this`goodbyes, streams, tunnels
      ensures Valid() && AllLater(old(streams[..]), streams[..]) && goodbyes == old(goodbyes)
      ensures TunnelDid(old(streams[..]), streams[..], fe, op)
      decreases 1, 0
    {
      hide Sound, AtRest, Later, Live, Updated, AllLater, AllFine, Throttled, Goodbyes;
      ghost var was := streams[..];
      AllLaterItself(was);
      var i := 0;
      while i < streams.Length
        invariant i <= streams.Length && Valid() && AllLater(was, streams[..]) && goodbyes == old(goodbyes)
        invariant forall k :: 0 <= k < i ==> streams[k] == AfterTunnel(was[k], fe, op)
        invariant forall k :: i <= k < streams.Length ==> streams[k] == was[k]
      {
        FineIsSound(streams[..], i);
        if streams[i].tunnel == fe && streams[i].conn.fd >= 0 {
          ghost var before := streams[..];
          BlockStream(fe, i, op, recursion);
          AllLaterOften(was, before, streams[..]);
        }
        i := i + 1;
      }
    }

    // ---- the callbacks --------------------------------------------------------------

    /** The counters of `pkc_read`. */
    method CountRead(kb: nat, bytes: nat, n: nat) returns (readKb: nat, readBytes: nat)
      ensures readKb == kb + (bytes + n) / 1024 && readBytes == (bytes + n) % 1024
    {
      readKb, readBytes := kb, bytes + n;
      while readBytes >= 1024
        invariant readKb * 1024 + readBytes == kb * 1024 + bytes + n
      {
        readKb, readBytes := readKb + 1, readBytes - 1024;
      }
    }

    /** `pkm_parse_eof`: the letters in an EOF header. */
    method ParseEof(eof: string) returns (r: bool, w: bool)
      ensures (r, w) == EofMeans(eof)
    {
      r, w := false, false;
      var p := 0;
      while p < |eof|
        invariant p <= |eof|
        invariant r == ('R' in eof[..p] || 'r' in eof[..p])
        invariant w == ('W' in eof[..p] || 'w' in eof[..p])
      {
        assert eof[..p + 1] == eof[..p] + [eof[p]];
        if eof[p] == 'R' || eof[p] == 'r' {
          r := true;
        } else if eof[p] == 'W' || eof[p] == 'w' {
          w := true;
        }
        p := p + 1;
      }
      assert eof[..p] == eof;
      if !w && !r {
        r, w := true, true;
      }
    }

    /** `pkm_be_conn_readable_cb`: called when the stream is watched and its backend has sent. */
    method StreamReadable(fe: nat, i: nat, result: ReadResult)
      requires fe < tunnels.Length && i < streams.Length && Valid()
      requires streams[i].inUse && streams[i].conn.watchRead && (result.Bytes? ==> 0 < result.n <= READ_MAX)
      modifies this`liveStreams, this`goodbyes, streams, tunnels
      ensures Valid() && AllLater(old(streams[..]), streams[..])
      ensures Step(old(streams[..]), WasRead(i, result), streams[..])
      ensures goodbyes == old(goodbyes) + match result
                case Bytes(_) => []
                case Again => []
                case EndOfFile => [Goodbye(fe, i, true, false)]
                case Fatal => [Goodbye(fe, i, true, old(!streams[i].conn.endWrite))]
    {
      hide Sound, Later, Live, Updated, AllLater, AllFine, ReadGone, Blocked, Goodbyes;
      FineIsSound(streams[..], i);
      var s := streams[i];
      ReadIsSound(s, result);
      ReadingSays(fe, i, s, result);
      assert !s.conn.tnlBlocked;
      match result {
        case Bytes(n) =>
          var kb, bytes := CountRead(s.conn.readKb, s.conn.readBytes, n);
          s := s.(conn := s.conn.(readKb := kb, readBytes := bytes));
        case EndOfFile => s := s.(conn := s.conn.(clsRead := true));
        case Again =>
        case Fatal => s := s.(conn := s.conn.(clsRead := true, clsWrite := true));
      }
      if result != EndOfFile {
        TunnelWrite(fe);
      }
      assert s == AfterRead(streams[i], result);
      Change(fe, i, s, 0);
    }

    /** `pkm_be_conn_writable_cb` */
    method StreamWritable(fe: nat, i: nat, left: nat, failed: bool)
      requires fe < tunnels.Length && i < streams.Length && Valid() && streams[i].inUse
      modifies this`liveStreams, this`goodbyes, streams, tunnels
      ensures Valid() && AllLater(old(streams[..]), streams[..])
      ensures Step(old(streams[..]), WasFlushed(i, left, failed), streams[..])
      ensures goodbyes == old(goodbyes) +
                if failed && old(!streams[i].conn.endWrite) then [Goodbye(fe, i, false, true)] else []
    {
      hide Sound, AtRest, Later, Live, Updated, AllLater, AllFine;
      FineIsSound(streams[..], i);
      FlushIsSound(streams[i], left, failed);
      FlushingSays(fe, i, streams[i], left, failed);
      Change(fe, i, AfterFlush(streams[i], left, failed), 0);
    }

    /** The payload part of `pkm_chunk_cb`. */
    method TakeLoad(s: Stream, load: Load) returns (t: Stream)
      requires Adds(s, load)
      ensures t == AfterLoad(s, load)
    {
      match load {
        case Data(bytes, left, untaken, failed) =>
          t := s.(conn := s.conn.(outPos := left, clsWrite := s.conn.clsWrite || failed),
                  given := s.given + bytes, passed := s.passed + (s.conn.outPos + bytes - untaken - left),
                  lost := s.lost + untaken);
        case Eof(text) =>
          var r, w := ParseEof(text);
          t := s.(conn := s.conn.(endRead := s.conn.endRead || w, endWrite := s.conn.endWrite || r));
        case Noop =>
          t := s;
      }
    }

    /** `pkm_chunk_cb` for a chunk of a stream that exists. */
    method Chunk(fe: nat, i: nat, load: Load, throttled: bool, ack: int)
      requires fe < tunnels.Length && i < streams.Length && Valid() && streams[i].inUse && Adds(streams[i], load)
      modifies this`liveStreams, this`goodbyes, streams, tunnels
      ensures Valid() && AllLater(old(streams[..]), streams[..])
      ensures Step(old(streams[..]), GotChunk(i, load, throttled, ack), streams[..])
      ensures goodbyes == old(goodbyes) +
                if load.Data? && load.failed && old(!streams[i].conn.endWrite) then [Goodbye(fe, i, false, true)]
                else []
    {
      hide Sound, AtRest, Later, Live, Updated, AllLater, AllFine, AckedWindow, AfterLoad, Goodbyes;
      FineIsSound(streams[..], i);
      LoadIsSound(streams[i], load);
      LoadSays(fe, i, streams[i], load, throttled, ack);
      var s := TakeLoad(streams[i], load);
      AckIsSound(s, throttled, ack);
      LaterOften(streams[i], s, AfterAck(s, throttled, ack));
      WindowInRange(s);
      var window, sentKb := Ramp(s.conn, throttled, ack);
      s := s.(conn := s.conn.(sentKb := sentKb, window := window),
              acksGrow := s.acksGrow && (ack <= 0 || ack >= s.conn.sentKb));
      Change(fe, i, s, 0);
    }

    /** The end of `pkm_chunk_cb`: the sending window. */
    method Ramp(c: Conn, throttled: bool, ack: int) returns (window: nat, sentKb: nat)
      requires WINDOW_MIN <= c.window <= WINDOW_MAX
      ensures window == AckedWindow(c.window, c.readKb, throttled, ack)
      ensures sentKb == if 0 < ack then ack else c.sentKb
    {
      hide ToSize, Eighth, ToSigned32;
      ShrinkingIsSafe(c.window);
      window, sentKb := c.window, c.sentKb;
      if throttled {
        window := window - (1 + window / 5);
      }
      if 0 < ack {
        sentKb := ack;
        if window == WINDOW_INITIAL {
          var ahead := ToSigned32(c.readKb - sentKb);
          window := ToSize(ahead + Eighth(ahead));
        } else {
          window := window + 1;
        }
      }
      if window > WINDOW_MAX {
        window := WINDOW_MAX;
      } else if window < WINDOW_MIN {
        window := WINDOW_MIN;
      }
    }

    /** The tunnel's own callbacks, and a tick that finds it dead: c is what reading, parsing and
        flushing made of its connection. */
    method TunnelEvent(fe: nat, c: Conn)
      requires fe < tunnels.Length && Valid()
      modifies this`liveStreams, this`goodbyes, streams, tunnels
      ensures Valid() && AllLater(old(streams[..]), streams[..])
      ensures Step(old(streams[..]), OnTunnel(fe, OpOf(c)), streams[..]) && goodbyes == old(goodbyes)
    {
      hide Sound, AtRest, Later, Live, Updated, AllLater, AllFine;
      tunnels[fe] := c;
      var _ := UpdateIo(fe, None, 0);
    }

    /** The search of `pkm_alloc_be_conn`: the first free slot from `start` on and around, or how far
        round the idlest stream is, if there is one. */
    method FindSlot(start: nat, now: int, activity: seq<int>, pinned: seq<bool>)
      returns (slot: Option<nat>, at: Option<nat>)
      requires start < streams.Length == |activity| == |pinned|
      ensures slot.Some? ==> FirstFree(streams[..], start, slot.value)
      ensures slot.None? ==>
                && (forall k :: 0 <= k < streams.Length ==> streams[k].inUse)
                && Idlest(start, now, activity, pinned, streams.Length, at)
    {
      var n := streams.Length;
      var i, oldest := 0, now;
      at := None;
      while i < n
        invariant i <= n && forall j :: 0 <= j < i ==> streams[Around(start, j, n)].inUse
        invariant Idlest(start, now, activity, pinned, i, at)
        invariant oldest == if at.Some? then activity[Around(start, at.value, n)] else now
      {
        var k := Around(start, i, n);
        if !streams[k].inUse {
          return Some(k), at;
        }
        if activity[k] <= oldest && !pinned[k] {
          oldest, at := activity[k], Some(i);
        }
        i := i + 1;
      }
      forall k | 0 <= k < n
        ensures streams[k].inUse
      {
        assert Around(start, if k >= start then k - start else k + n - start, n) == k;
      }
      return None, at;
    }

    /** `pkm_connect_be`: the first free slot is taken, or else the idlest stream, if it is idle for
        long enough to be evicted, is closed and freed, and the connection to the backend made
        (fd) or not (fd <= 0). The clock is read twice; streams that are being changed or listened
        on are pinned. `mid` is the table when the slot is free. */
    method Connect(fe: nat, start: nat, now: int, later: int, idleLimit: int, activity: seq<int>, pinned: seq<bool>,
                   oldFe: nat, fd: int)
      returns (slot: Option<nat>, ghost at: Option<nat>, ghost mid: seq<Stream>)
      requires fe < tunnels.Length && oldFe < tunnels.Length && Valid()
      requires start < streams.Length == |activity| == |pinned|
      modifies this`liveStreams, this`goodbyes, streams, tunnels
      ensures Valid() && AllLater(old(streams[..]), streams[..])
      ensures var was, n := old(streams[..]), streams.Length;
              if exists k :: 0 <= k < n && !was[k].inUse then
                slot.Some? && FirstFree(was, start, slot.value) && mid == was
              else
                && Idlest(start, now, activity, pinned, n, at)
                && slot == Evictable(start, later, idleLimit, activity, at)
                && (slot.Some? ==> Step(was, Evicted(slot.value), mid))
      ensures if slot.Some? then Step(mid, Opened(slot.value, fe, fd), streams[..]) else streams[..] == old(streams[..])
      ensures slot.None? || !old(streams[..])[slot.value].inUse ==> goodbyes == old(goodbyes)
      ensures slot.Some? && old(streams[..])[slot.value].inUse ==>
                var c := old(streams[..])[slot.value].conn;
                goodbyes == old(goodbyes) + if c.endRead && c.endWrite then []
                                            else [Goodbye(oldFe, slot.value, !c.endRead, !c.endWrite)]
    {
      hide Sound, AtRest, Later, Live, Updated, AllLater, AllFine, Idlest, FirstFree, Goodbyes, Dropped;
      ghost var was := streams[..];
      AllLaterItself(was);
      var idlest;
      slot, idlest := FindSlot(start, now, activity, pinned);
      at, mid := idlest, was;
      if slot.Some? {
        FirstIsFree(was, start, slot.value);
      } else {
        IdlestInRange(start, now, activity, pinned, idlest);
        slot := Evictable(start, later, idleLimit, activity, idlest);
        if slot.None? {
          return;
        }
        var i := slot.value;
        FineIsSound(was, i);
        EvictionFrees(was[i]);
        EvictionSays(oldFe, i, was[i]);
        Change(oldFe, i, Dropped(streams[i]), 0);
        mid := streams[..];
      }
      Place(slot.value, fe, fd);
      AllLaterOften(was, mid, streams[..]);
    }

    /** A free slot is reset for a new stream. */
    method Place(i: nat, fe: nat, fd: int)
      requires i < streams.Length && Valid() && !streams[i].inUse
      modifies this`liveStreams, streams
      ensures Valid() && AllLater(old(streams[..]), streams[..])
      ensures Step(old(streams[..]), Opened(i, fe, fd), streams[..])
    {
      ghost var was := streams[..];
      var s := NewStream(fe, streams[i].gen + 1, fd);
      if 0 < fd {
        liveStreams := liveStreams + 1;
      }
      FineIsSound(was, i);
      NewIsAtRest(fe, fd, was[i]);
      RestIsSound(s);
      hide Sound, AtRest, Later, Live;
      LiveUpdate(was, i, s);
      FineStep(was, i, s);
      AllLaterItself(was);
      AllLaterStep(was, was, i, s);
      streams[i] := s;
      assert streams[..] == was[i := s];
    }
  }
}
