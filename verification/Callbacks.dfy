/** What the callbacks of pkmanager.c come to for one stream, said without the functions that
    compute it. */
module Callbacks {
  import opened Text
  import opened Streams

  /** May be read: neither closed nor throttled. */
  predicate IsRead(c: Conn) {
    !c.endRead && !c.tnlBlocked && c.readKb <= c.sentKb + c.window
  }

  /** Between callbacks a stream in use is watched for reading exactly if it may be read, and for
      writing exactly if something waits; it is closed for writing when the peer is done and
      nothing waits. */
  lemma RestSays(s: Stream)
    requires AtRest(s) && s.inUse
    ensures var c := s.conn;
            && (c.watchRead <==> IsRead(c)) && (c.clsRead <==> c.endRead)
            && (c.clsWrite <==> c.endWrite && c.outPos == 0) && !(c.clsRead && c.clsWrite)
  {
  }

  /** What an update does with a stream. */
  lemma UpdateSays(s: Stream)
    requires Sound(s) && s.inUse
    ensures var c, t := s.conn, Updated(s);
            && (!t.inUse <==> (c.clsRead || c.endRead) && (c.clsWrite || (c.endWrite && c.outPos == 0)))
            && (t.inUse ==>
                  && (t.conn.endRead <==> c.clsRead || c.endRead)
                  && (t.conn.endWrite <==> c.clsWrite || c.endWrite)
                  && t.conn.outPos == (if c.clsWrite then 0 else c.outPos)
                  && (t.conn.dstBlocked <==> t.conn.readKb > t.conn.sentKb + t.conn.window)
                  && (t.conn.watchRead <==> IsRead(t.conn)) && (t.conn.watchWrite <==> t.conn.outPos > 0))
  {
  }

  // ---- data and EOF from the tunnel -------------------------------------------------

  predicate SaysR(text: string) {
    'R' in text || 'r' in text
  }

  predicate SaysW(text: string) {
    'W' in text || 'w' in text
  }

  /** The stream after a chunk. */
  ghost predicate Got(s: Stream, load: Load, throttled: bool, ack: int, t: Stream) {
    Adds(s, load) && t == Updated(Chunked(s, load, throttled, ack))
  }

  /** An EOF of the reading side of the other end ends writing to the backend, once everything was
      written that waits; the backend is still read. */
  lemma EofReadEndsWriting(s: Stream, text: string, throttled: bool, ack: int, t: Stream)
    requires AtRest(s) && s.inUse && Got(s, Eof(text), throttled, ack, t) && SaysR(text) && !SaysW(text)
    ensures t.conn.outPos == s.conn.outPos && t.lost == s.lost
    ensures t.inUse <==> !s.conn.endRead || s.conn.outPos > 0
    ensures t.inUse ==>
              && t.conn.endWrite && (t.conn.clsWrite <==> s.conn.outPos == 0) && t.conn.endRead == s.conn.endRead
              && (t.conn.watchRead <==> IsRead(t.conn)) && (t.conn.watchWrite <==> s.conn.outPos > 0)
  {
    hide AckedWindow;
  }

  /** One of the writing side ends reading from the backend; what waits is still written, and more
      may come. */
  lemma EofWriteEndsReading(s: Stream, text: string, throttled: bool, ack: int, t: Stream)
    requires AtRest(s) && s.inUse && Got(s, Eof(text), throttled, ack, t) && !SaysR(text) && SaysW(text)
    ensures t.conn.outPos == s.conn.outPos && t.lost == s.lost
    ensures t.inUse <==> !s.conn.clsWrite
    ensures t.inUse ==>
              && t.conn.endRead && t.conn.clsRead && !t.conn.watchRead && t.conn.endWrite == s.conn.endWrite
              && (t.conn.watchWrite <==> s.conn.outPos > 0)
  {
    hide AckedWindow;
  }

  /** Both letters, or neither, end both: the stream is only kept until what waits was written. */
  lemma EofEndsBoth(s: Stream, text: string, throttled: bool, ack: int, t: Stream)
    requires AtRest(s) && s.inUse && Got(s, Eof(text), throttled, ack, t) && (SaysR(text) <==> SaysW(text))
    ensures t.conn.outPos == s.conn.outPos && t.lost == s.lost
    ensures t.inUse <==> s.conn.outPos > 0
    ensures t.inUse ==> t.conn.endRead && t.conn.endWrite && !t.conn.clsWrite && !t.conn.watchRead && t.conn.watchWrite
  {
    hide AckedWindow;
  }

  /** Data ends nothing, unless its write fails for good: then the stream is closed for writing and
      nothing waits any more. */
  lemma DataEndsNothing(s: Stream, bytes: nat, left: nat, untaken: nat, failed: bool, throttled: bool, ack: int,
                        t: Stream)
    requires AtRest(s) && s.inUse && Got(s, Data(bytes, left, untaken, failed), throttled, ack, t)
    ensures !s.conn.clsWrite && !failed ==>
              && (t.inUse <==> !s.conn.endRead || !s.conn.endWrite || left > 0)
              && t.conn.outPos == left && t.conn.endRead == s.conn.endRead && t.conn.endWrite == s.conn.endWrite
              && (t.inUse ==> (t.conn.watchRead <==> IsRead(t.conn)) && (t.conn.watchWrite <==> left > 0))
    ensures s.conn.clsWrite || failed ==>
              && t.conn.outPos == 0 && (t.inUse <==> !s.conn.endRead)
              && (t.inUse ==> t.conn.endWrite && t.conn.clsWrite && t.conn.endRead == s.conn.endRead
                              && (t.conn.watchRead <==> IsRead(t.conn)))
  {
    hide AckedWindow;
  }

  // ---- the backend ------------------------------------------------------------------

  /** What is read of a backend is counted, to the byte. */
  lemma ReadCounts(s: Stream, n: nat)
    requires AtRest(s) && s.inUse && s.conn.watchRead
    ensures var t := Updated(AfterRead(s, Bytes(n)));
            && t.inUse && t.conn.readKb * 1024 + t.conn.readBytes == s.conn.readKb * 1024 + s.conn.readBytes + n
            && t.conn.outPos == s.conn.outPos && t.conn.endRead == s.conn.endRead && t.conn.endWrite == s.conn.endWrite
            && (t.conn.watchRead <==> IsRead(t.conn))
  {
  }

  /** The end of its data ends reading, and an error both; neither is sent twice. */
  lemma ReadEnds(s: Stream)
    requires AtRest(s) && s.inUse && s.conn.watchRead
    ensures var t := Updated(AfterRead(s, EndOfFile));
            && t.eofR == s.eofR + 1 && t.eofW == s.eofW && t.conn.outPos == s.conn.outPos
            && (t.inUse <==> !s.conn.clsWrite)
            && (t.inUse ==> t.conn.endRead && t.conn.clsRead && !t.conn.watchRead && t.conn.endWrite == s.conn.endWrite)
    ensures var t := Updated(AfterRead(s, Fatal));
            && !t.inUse && t.eofR == s.eofR + 1 && t.eofW == s.eofW + if s.conn.endWrite then 0 else 1
    ensures var c, t := s.conn, Updated(AfterRead(s, Again));
            && t.inUse && t.eofR == s.eofR && t.eofW == s.eofW && t.conn.outPos == c.outPos
            && t.conn.endRead == c.endRead && t.conn.endWrite == c.endWrite && t.conn.watchRead
            && t.conn.readKb == c.readKb && t.conn.readBytes == c.readBytes
  {
  }

  /** What is flushed no longer waits, and a stream that only waited for that is closed. */
  lemma FlushSays(s: Stream, left: nat, failed: bool)
    requires AtRest(s) && s.inUse && left <= s.conn.outPos
    ensures var t := Updated(AfterFlush(s, left, failed));
            && t.conn.outPos == (if failed then 0 else left) && t.conn.endRead == s.conn.endRead
            && (t.inUse <==> !s.conn.endRead || !(failed || (s.conn.endWrite && left == 0)))
            && (t.inUse ==>
                  && (t.conn.clsWrite <==> failed || (s.conn.endWrite && left == 0))
                  && (t.conn.watchRead <==> IsRead(t.conn)) && (t.conn.watchWrite <==> t.conn.outPos > 0))
  {
  }

  // ---- the window -------------------------------------------------------------------

  /** Flow control: what an acknowledgement and a request to slow down make of the window. */
  lemma WindowSays(s: Stream, throttled: bool, ack: int)
    requires Sound(s) && s.inUse
    ensures var w, t := s.conn.window, AfterAck(s, throttled, ack).conn;
            && t.readKb == s.conn.readKb && t.sentKb == (if ack > 0 then ack else s.conn.sentKb)
            && (!throttled && ack <= 0 ==> t.window == w)
            && (!throttled && ack > 0 && w != 128 ==> t.window == if w < 384 then w + 1 else 384)
            && (throttled && ack <= 0 ==> t.window == if w - (1 + w / 5) < 4 then 4 else w - (1 + w / 5))
            && (throttled && ack > 0 && w - (1 + w / 5) != 128 ==>
                  t.window == if w - (1 + w / 5) + 1 < 4 then 4 else w - (1 + w / 5) + 1)
  {
    ShrinkingIsSafe(s.conn.window);
    hide ToSize, Eighth, ToSigned32;
  }

  /** The first acknowledgement sets it to what is on its way and an eighth more. */
  lemma FirstAckSays(s: Stream, ack: int)
    requires Sound(s) && s.inUse && s.conn.window == 128 && 0 < ack <= s.conn.readKb
    requires s.conn.readKb - ack < 0x4000_0000
    ensures var d := s.conn.readKb - ack;
            var w := d + d / 8;
            AfterAck(s, false, ack).conn.window == if w < 4 then 4 else if w > 384 then 384 else w
  {
    SmallStaysSmall(s.conn.readKb - ack);
    hide ToSize, ToSigned32, Eighth;
  }

  lemma SmallStaysSmall(d: nat)
    requires d < 0x4000_0000
    ensures ToSigned32(d) == d && Eighth(d) == d / 8 && ToSize(d + d / 8) == d + d / 8
  {
  }

  // ---- tunnels ----------------------------------------------------------------------

  /** A tunnel that is up and has output waiting: its streams are not read until that is gone, and
      their windows shrink. */
  lemma BlockedTunnel(c: Conn, a: seq<Stream>, b: seq<Stream>, fe: int, i: nat)
    requires c.fd > 0 && !c.clsWrite && !c.clsRead && !c.endRead && c.outPos > 0
    requires AllFine(a, None) && Step(a, OnTunnel(fe, OpOf(c)), b) && i < |a| && a[i].inUse && a[i].tunnel == fe
    ensures |b| == |a| && b[i].inUse && b[i].conn.tnlBlocked && !b[i].conn.watchRead
    ensures var w := a[i].conn.window;
            b[i].conn.window == if a[i].conn.tnlBlocked then w else if w - (1 + w / 3) < 4 then 4 else w - (1 + w / 3)
  {
    StreamIsAtRest(a, i);
    ShrinkingIsSafe(a[i].conn.window);
    hide LessAThird;
  }

  /** One with nothing waiting: they are read again. */
  lemma FreeTunnel(c: Conn, a: seq<Stream>, b: seq<Stream>, fe: int, i: nat)
    requires c.fd > 0 && !c.clsWrite && !c.clsRead && !c.endRead && !c.endWrite && c.outPos == 0 && !c.wantWrite
    requires AllFine(a, None) && Step(a, OnTunnel(fe, OpOf(c)), b) && i < |a| && a[i].inUse && a[i].tunnel == fe
    ensures |b| == |a| && b[i].inUse && !b[i].conn.tnlBlocked && b[i].conn.window == a[i].conn.window
    ensures b[i].conn.watchRead <==> IsRead(b[i].conn)
  {
    StreamIsAtRest(a, i);
  }

  /** One that just ended or failed, in either direction: they are closed for reading, and kept only
      while something is to be written to their backends. */
  lemma LostTunnel(c: Conn, a: seq<Stream>, b: seq<Stream>, fe: int, i: nat)
    requires c.fd > 0 && ((c.clsRead && !c.endRead) || ((c.clsWrite || c.endRead) && !c.endWrite))
    requires AllFine(a, None) && Step(a, OnTunnel(fe, OpOf(c)), b) && i < |a| && a[i].inUse && a[i].tunnel == fe
    ensures |b| == |a| && (b[i].inUse <==> a[i].conn.outPos > 0) && b[i].conn.outPos == a[i].conn.outPos
    ensures b[i].lost == a[i].lost && !b[i].conn.watchRead
    ensures b[i].inUse ==> b[i].conn.clsRead && b[i].conn.endWrite && b[i].conn.watchWrite
  {
    StreamIsAtRest(a, i);
  }

  /** One that is not connected: they are left alone. */
  lemma NoTunnel(c: Conn, a: seq<Stream>, b: seq<Stream>, fe: int)
    requires c.fd <= 0 && Step(a, OnTunnel(fe, OpOf(c)), b)
    ensures b == a
  {
  }

  /** Other tunnels' streams are left alone. */
  lemma OtherTunnel(a: seq<Stream>, b: seq<Stream>, fe: int, op: TunnelOp, i: nat)
    requires Step(a, OnTunnel(fe, op), b) && i < |a| && (!a[i].inUse || a[i].tunnel != fe)
    ensures |b| == |a| && b[i] == a[i]
  {
  }

  // ---- new and old streams ----------------------------------------------------------

  /** A stream that is connected is read and written from the start, with a window of 128. */
  lemma NewSays(fe: int, gen: nat, fd: int)
    ensures var s := NewStream(fe, gen, fd);
            && s.tunnel == fe && s.gen == gen && (s.inUse <==> fd > 0)
            && (fd > 0 ==>
                  && s.conn.fd == fd && s.conn.watchRead && s.conn.watchWrite
                  && s.conn.outPos == 0 && s.conn.window == 128
                  && !s.conn.endRead && !s.conn.endWrite && !s.conn.clsRead && !s.conn.clsWrite)
  {
  }

  /** The j-th slot from `start` on, around the end of the table. */
  function SlotAt(start: nat, j: nat, n: nat): nat
    requires 0 < n
  {
    (start + j) % n
  }

  lemma Twice(q: nat, n: nat)
    requires 2 <= q
    ensures 2 * n <= q * n
  {
  }

  lemma SlotAtIs(start: nat, j: nat, n: nat)
    requires start < n && j < n
    ensures SlotAt(start, j, n) == if start + j < n then start + j else start + j - n
  {
    var x := start + j;
    var q := x / n;
    assert x == q * n + x % n;
    if q > 1 {
      Twice(q, n);
    }
  }

  lemma AroundIs(start: nat, j: nat, n: nat)
    requires start < n && j < n
    ensures Around(start, j, n) == SlotAt(start, j, n)
  {
    SlotAtIs(start, j, n);
    hide SlotAt;
  }

  /** A slot that is taken is free, and none that was looked at before it is. */
  lemma FirstFreeSays(ss: seq<Stream>, start: nat, k: nat) returns (i: nat)
    requires FirstFree(ss, start, k)
    ensures i < |ss| && k == SlotAt(start, i, |ss|) && !ss[k].inUse
    ensures forall j :: 0 <= j < i ==> SlotAt(start, j, |ss|) < |ss| && ss[SlotAt(start, j, |ss|)].inUse
  {
    i :| 0 <= i < |ss| && k == Around(start, i, |ss|) && forall j :: 0 <= j < i ==> ss[Around(start, j, |ss|)].inUse;
    AroundIs(start, i, |ss|);
    forall j | 0 <= j < i
      ensures SlotAt(start, j, |ss|) < |ss| && ss[SlotAt(start, j, |ss|)].inUse
    {
      AroundIs(start, j, |ss|);
    }
    hide Around, SlotAt;
  }

  /** The idlest stream is not pinned, and of the others that are not none was idle for longer, nor,
      behind it, for as long; there is none if all are pinned or were active after `now`. */
  lemma IdlestSays(start: nat, now: int, activity: seq<int>, pinned: seq<bool>, at: Option<nat>, j: nat)
    requires Idlest(start, now, activity, pinned, |activity|, at) && j < |activity|
    ensures var n := |activity|;
            var l := SlotAt(start, j, n);
            l < n &&
            match at
            case None => pinned[l] || activity[l] > now
            case Some(i) =>
              var k := SlotAt(start, i, n);
              && i < n && k < n && !pinned[k] && activity[k] <= now
              && (pinned[l] || activity[k] < activity[l] || (activity[k] == activity[l] && j <= i))
  {
    AroundIs(start, j, |activity|);
    if at.Some? {
      AroundIs(start, at.value, |activity|);
    }
    hide Around, SlotAt;
  }

  /** The idlest stream is evicted when there is a limit and it was idle for longer, not when it was
      active since. */
  lemma EvictionSays(start: nat, later: int, idleLimit: int, activity: seq<int>, at: nat)
    requires start < |activity| && at < |activity|
    ensures var k := if start + at < |activity| then start + at else start + at - |activity|;
            && (idleLimit != 0 && activity[k] + idleLimit < later ==>
                  Evictable(start, later, idleLimit, activity, Some(at)) == Some(k))
            && (idleLimit == 0 || activity[k] + idleLimit >= later ==>
                  Evictable(start, later, idleLimit, activity, Some(at)) == None)
  {
  }
}
