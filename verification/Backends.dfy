/** A stream of the manager together with the connection it writes its chunks to: what
    `pkm_chunk_cb` and `pkm_be_conn_writable_cb` do to both of them. */
module Backends {
  import opened Text
  import opened Streams
  import Writing = Conn

  /** What a chunk's data comes to when the write took so much of it. */
  function Written(bytes: nat, took: nat, left: nat, failed: bool): Load
    requires took <= bytes
  {
    Data(bytes, left, bytes - took, failed)
  }

  /** Closed for writing before the write, or by it. */
  ghost predicate Closed(marked: bool, why: Writing.Reason) {
    marked || Writing.Marks(why)
  }

  /** The counters of a stream at rest after a chunk of data. */
  lemma ChunkCounts(s: Stream, load: Load, throttled: bool, ack: int)
    requires AtRest(s) && s.inUse && load.Data? && Adds(s, load)
    ensures var t, closed := Updated(Chunked(s, load, throttled, ack)), s.conn.clsWrite || load.failed;
            && t.given == s.given + load.bytes
            && t.passed == s.passed + (s.conn.outPos + load.bytes - load.untaken - load.left)
            && t.lost == s.lost + load.untaken + (if closed then load.left else 0)
            && t.conn.outPos == (if closed then 0 else load.left)
            && (t.inUse <==> !ReadGone(s.conn) || !WriteGone(Chunked(s, load, throttled, ack).conn))
            && (t.inUse ==> t.conn.fd == s.conn.fd && (closed ==> t.conn.clsWrite))
            && (t.conn.clsWrite ==> closed || (s.conn.endWrite && load.left == 0))
            && (ReadGone(t.conn) ==> ReadGone(s.conn))
  {
    hide AckedWindow;
  }

  /** And after a flush. */
  lemma FlushCounts(s: Stream, left: nat, failed: bool)
    requires AtRest(s) && s.inUse && left <= s.conn.outPos
    ensures var t := Updated(AfterFlush(s, left, failed));
            && t.given == s.given && t.passed == s.passed + (s.conn.outPos - left)
            && t.lost == s.lost + (if failed then left else 0)
            && t.conn.outPos == (if failed then 0 else left)
            && (t.inUse ==> t.conn.fd == s.conn.fd)
  {
  }

  class Backend {
    const manager: Manager
    const i: nat
    const conn: Writing.PkConn
    /** The data of all chunks, in order. */
    ghost var given: string

    /** The two see the same struct pk_conn. */
    ghost predicate Same()
      reads manager.streams, conn`outPos, conn`clsWrite, conn`sockfd
    {
      && i < manager.streams.Length
      && var c := manager.streams[i].conn;
         c.outPos == conn.outPos && c.clsWrite == conn.clsWrite && c.fd == conn.sockfd
    }

    /** The manager's counters are those of the bytes, and as long as nothing was lost the backend
        got, or will get, the data of the chunks in order. */
    ghost predicate Told(s: Stream)
      reads this`given, conn`outPos, conn`wroteBytes, conn`reportedKb, conn`accepted, conn.out
    {
      && conn.Valid() && |given| == s.given && |conn.accepted| == s.passed
      && (s.lost == 0 ==> conn.Stream() == given)
    }

    ghost predicate Valid()
      reads this`given, manager, manager.streams
      reads conn`outPos, conn`clsWrite, conn`sockfd, conn`wroteBytes, conn`reportedKb, conn`accepted, conn.out
    {
      manager.Valid() && Same() && Told(manager.streams[i])
    }

    constructor (manager: Manager, i: nat, conn: Writing.PkConn)
      requires manager.Valid() && i < manager.streams.Length && conn.Valid() && conn.Stream() == "" && conn.sockfd > 0
      requires !conn.clsWrite
      requires manager.streams[i] == NewStream(manager.streams[i].tunnel, manager.streams[i].gen, conn.sockfd)
      ensures Valid() && this.manager == manager && this.i == i && this.conn == conn && given == ""
    {
      this.manager, this.i, this.conn, given := manager, i, conn, "";
    }

    /** What `pkm_update_io` made of the connection. */
    method Refresh()
      requires conn.Valid() && i < manager.streams.Length
      requires var p := manager.streams[i].conn.outPos; p == 0 || p == conn.outPos
      modifies conn`outPos, conn`clsWrite, conn`sockfd
      ensures conn.Valid() && Same() && conn.outPos == manager.streams[i].conn.outPos
      ensures conn.Stream() == if conn.outPos == old(conn.outPos) then old(conn.Stream()) else conn.accepted
    {
      var c := manager.streams[i].conn;
      conn.outPos, conn.clsWrite, conn.sockfd := c.outPos, c.clsWrite, c.fd;
      assert conn.outPos == 0 ==> conn.accepted + conn.out[..0] == conn.accepted;
    }

    /** The end of `pkm_chunk_cb`, after the write. */
    method AfterChunk(fe: nat, load: Load, throttled: bool, ack: int)
      requires manager.Valid() && i < manager.streams.Length && fe < manager.tunnels.Length && conn.Valid()
      requires manager.streams[i].inUse && load.Data? && Adds(manager.streams[i], load)
      requires load.left == conn.outPos && load.failed == conn.clsWrite
      requires manager.streams[i].conn.clsWrite ==> conn.clsWrite
      requires var s := manager.streams[i];
               && |given| == s.given + load.bytes
               && |conn.accepted| == s.passed + (s.conn.outPos + load.bytes - load.untaken - load.left)
               && (s.lost == 0 && load.untaken == 0 ==> conn.Stream() == given)
      modifies manager`liveStreams, manager`goodbyes, manager.streams, manager.tunnels
      modifies conn`outPos, conn`clsWrite, conn`sockfd
      ensures Valid()
      ensures Step(old(manager.streams[..]), GotChunk(i, load, throttled, ack), manager.streams[..])
      ensures manager.streams[i].lost ==
              old(manager.streams[i]).lost + load.untaken + if load.failed then load.left else 0
      ensures conn.outPos == if load.failed then 0 else load.left
      ensures conn.Stream() == if load.failed then conn.accepted else old(conn.Stream())
    {
      hide AtRest, Sound, Updated, Chunked, Writing.PkConn.Stream;
      ghost var stream := conn.Stream();
      manager.FineIsSound(manager.streams[..], i);
      hide Manager.Valid;
      ChunkCounts(manager.streams[i], load, throttled, ack);
      manager.Chunk(fe, i, load, throttled, ack);
      assert conn.Stream() == stream;
      Refresh();
      NothingWaits();
    }

    lemma NothingWaits()
      requires conn.Valid()
      ensures conn.outPos == 0 ==> conn.Stream() == conn.accepted
    {
      assert conn.outPos == 0 ==> conn.accepted + conn.out[..0] == conn.accepted;
    }

    /** `pkm_chunk_cb` with data for the stream. Some of it is lost if and only if the write failed
        (what it did not take, whether or not that marks the connection closed), or the connection
        is closed for writing and something was left to be written. */
    method Chunk(fe: nat, data: string, throttled: bool, ack: int)
      returns (took: nat, left: nat, closed: bool, ghost why: Writing.Reason)
      requires Valid() && fe < manager.tunnels.Length && manager.streams[i].inUse
      modifies this`given, manager`liveStreams, manager`goodbyes, manager.streams, manager.tunnels, conn.out
      modifies conn`errno, conn`wroteBytes, conn`kernel, conn`accepted, conn`outPos, conn`clsWrite, conn`sockfd
      ensures Valid() && given == old(given) + data && took <= |data| && old(conn.accepted) <= conn.accepted
      ensures (took < |data| <==> why != Writing.Sent) && closed == Closed(old(Marked()), why)
      ensures Writing.Because(why, old(conn.sockfd), old(conn.kernel), conn.kernel)
      ensures |conn.accepted| + left == |old(conn.Stream())| + took
      ensures Step(old(manager.streams[..]), GotChunk(i, Written(|data|, took, left, closed), throttled, ack),
                   manager.streams[..])
      ensures var s, t := old(manager.streams[i]), manager.streams[i];
              && t.lost == s.lost + (|data| - took) + (if closed then left else 0)
              && (t.lost > s.lost <==> why != Writing.Sent || (closed && left > 0))
      ensures conn.outPos == if closed then 0 else left
      ensures conn.Stream() == if closed then conn.accepted else old(conn.Stream()) + data[..took]
      ensures old(conn.kernel) == [] ==>
                && conn.kernel == [] && conn.accepted == old(conn.accepted)
                && (took < |data| <==> |data| > old(conn.Free()))
                && (took < |data| ==> took == 0 && why == Writing.Error(Writing.Eagain))
    {
      RestingStream();
      StreamLength();
      hide Writing.Because, Writing.Marks, Writing.PkConn.FirstReason, Writing.PkConn.Stream, Marked, Closed;
      hide Manager.Valid, AtRest, Sound, Step;
      took, left, why := TakeData(data);
      closed := conn.clsWrite;
      given := given + data;
      AfterChunk(fe, Written(|data|, took, left, closed), throttled, ack);
    }

    /** `pkc_write` of it. */
    method TakeData(data: string) returns (took: nat, left: nat, ghost why: Writing.Reason)
      requires conn.Valid()
      modifies conn`errno, conn`wroteBytes, conn`kernel, conn`accepted, conn`outPos, conn`clsWrite, conn.out
      ensures conn.Valid() && took <= |data| && left == conn.outPos && old(conn.accepted) <= conn.accepted
      ensures conn.Stream() == old(conn.Stream()) + data[..took]
      ensures took == |data| ==> conn.Stream() == old(conn.Stream()) + data
      ensures |conn.accepted| + left == |old(conn.Stream())| + took
      ensures (took < |data| <==> why != Writing.Sent) && conn.clsWrite == Closed(old(Marked()), why)
      ensures Writing.Because(why, old(conn.sockfd), old(conn.kernel), conn.kernel)
      ensures old(conn.kernel) == [] ==>
                && conn.kernel == [] && conn.accepted == old(conn.accepted)
                && (took < |data| <==> |data| > old(conn.Free()))
                && (took < |data| && 0 <= conn.sockfd ==> took == 0 && why == Writing.Error(Writing.Eagain))
    {
      hide Writing.Because, Writing.Marks, Writing.PkConn.FirstReason, Writing.PkConn.Stream;
      var r;
      r, took, why := conn.Write(data);
      StreamLength();
      left := conn.outPos;
      assert took == |data| ==> data[..took] == data;
    }

    lemma StreamLength()
      requires conn.Valid()
      ensures |conn.Stream()| == |conn.accepted| + conn.outPos
    {
    }

    /** Closed for writing before, or by a flush of what waits. */
    ghost predicate Marked()
      reads conn`outPos, conn`sockfd, conn`kernel, conn`clsWrite
    {
      conn.clsWrite || Writing.Marks(conn.FirstReason())
    }

    lemma RestingStream()
      requires Valid() && manager.streams[i].inUse
      ensures AtRest(manager.streams[i]) && conn.sockfd > 0
    {
      manager.FineIsSound(manager.streams[..], i);
    }

    /** The end of `pkm_be_conn_writable_cb`, after the flush. */
    method AfterFlushing(fe: nat)
      requires manager.Valid() && i < manager.streams.Length && fe < manager.tunnels.Length && conn.Valid()
      requires var s := manager.streams[i];
               && s.inUse && conn.outPos <= s.conn.outPos && (s.conn.clsWrite ==> conn.clsWrite)
               && |given| == s.given && |conn.accepted| == s.passed + (s.conn.outPos - conn.outPos)
               && (s.lost == 0 ==> conn.Stream() == given)
      modifies manager`liveStreams, manager`goodbyes, manager.streams, manager.tunnels
      modifies conn`outPos, conn`clsWrite, conn`sockfd
      ensures Valid()
      ensures Step(old(manager.streams[..]), WasFlushed(i, old(conn.outPos), old(conn.clsWrite)), manager.streams[..])
      ensures manager.streams[i].lost ==
              old(manager.streams[i]).lost + if old(conn.clsWrite) then old(conn.outPos) else 0
      ensures conn.outPos == if old(conn.clsWrite) then 0 else old(conn.outPos)
      ensures conn.Stream() == if old(conn.clsWrite) then conn.accepted else old(conn.Stream())
    {
      hide AtRest, Sound, Updated, AfterFlush, Writing.PkConn.Stream;
      ghost var stream := conn.Stream();
      manager.FineIsSound(manager.streams[..], i);
      hide Manager.Valid;
      FlushCounts(manager.streams[i], conn.outPos, conn.clsWrite);
      manager.StreamWritable(fe, i, conn.outPos, conn.clsWrite);
      assert conn.Stream() == stream;
      Refresh();
      NothingWaits();
    }

    /** `pkm_be_conn_writable_cb`: what is lost, if anything, is what could not be flushed when that
        closes the connection. */
    method Writable(fe: nat) returns (left: nat, ghost why: Writing.Reason)
      requires Valid() && fe < manager.tunnels.Length && manager.streams[i].inUse
      modifies this`given, manager`liveStreams, manager`goodbyes, manager.streams, manager.tunnels, conn.out
      modifies conn`errno, conn`wroteBytes, conn`kernel, conn`accepted, conn`outPos, conn`clsWrite, conn`sockfd
      ensures Valid() && given == old(given) && old(conn.accepted) <= conn.accepted
      ensures |conn.accepted| + left == |old(conn.Stream())|
      ensures old(conn.outPos) > 0 ==> why == old(conn.FirstReason())
      ensures var s, t, closed := old(manager.streams[i]), manager.streams[i], old(conn.clsWrite) || Writing.Marks(why);
              && Step(old(manager.streams[..]), WasFlushed(i, left, closed), manager.streams[..])
              && t.lost == s.lost + (if closed then left else 0)
              && conn.outPos == (if closed then 0 else left)
              && conn.Stream() == if closed then conn.accepted else old(conn.Stream())
    {
      RestingStream();
      StreamLength();
      hide Writing.Because, Writing.Marks, Writing.PkConn.FirstReason, Writing.PkConn.Stream;
      hide Manager.Valid, AtRest, Sound, Step;
      ghost var stream := conn.Stream();
      var _, _, w := conn.Flush(None, Writing.NonBlocking);
      assert stream + "" == stream;
      StreamLength();
      why, left := w, conn.outPos;
      AfterFlushing(fe);
    }

    ghost predicate Open()
      reads manager.streams
    {
      && i < manager.streams.Length
      && var s := manager.streams[i];
         s.inUse && !ReadGone(s.conn) && !s.conn.clsWrite && !s.conn.endWrite
    }

    /** Of a chunk for a backend that takes nothing for now all is buffered, or all is lost. */
    method ChunkWhileBlocked(data: string)
      requires Valid() && Open() && 0 < manager.tunnels.Length && conn.kernel == []
      modifies this`given, manager`liveStreams, manager`goodbyes, manager.streams, manager.tunnels, conn.out
      modifies conn`errno, conn`wroteBytes, conn`kernel, conn`accepted, conn`outPos, conn`clsWrite, conn`sockfd
      ensures Valid() && Open() && conn.kernel == [] && given == old(given) + data
      ensures var fits := |data| <= old(conn.Free());
              && conn.Stream() == old(conn.Stream()) + (if fits then data else "")
              && manager.streams[i].lost == old(manager.streams[i]).lost + (if fits then 0 else |data|)
              && |conn.Stream()| - |old(conn.Stream())| == old(conn.Free()) - conn.Free()
    {
      hide Writing.Because, Manager.Valid, AtRest, Sound, Updated, Chunked;
      RestingStream();
      ghost var s := manager.streams[i];
      NoMark();
      var took, left, closed;
      ghost var why;
      took, left, closed, why := Chunk(0, data, false, 0);
      var load := Written(|data|, took, left, false);
      ChunkCounts(s, load, false, 0);
      OpenStays(s, load);
      assert data[..took] == if took == |data| then data else "";
    }

    lemma OpenStays(s: Stream, load: Load)
      requires AtRest(s) && s.inUse && load.Data? && Adds(s, load) && !load.failed
      requires !ReadGone(s.conn) && !s.conn.clsWrite && !s.conn.endWrite
      ensures var t := Updated(Chunked(s, load, false, 0));
              t.inUse && !ReadGone(t.conn) && !t.conn.clsWrite && !t.conn.endWrite
    {
      hide AckedWindow;
    }

    lemma NoMark()
      requires conn.kernel == [] && !conn.clsWrite
      ensures !Marked() && !Writing.Marks(Writing.Sent) && !Writing.Marks(Writing.Error(Writing.Eagain))
    {
    }
  }

  /** Three chunks for a backend that takes nothing for now, the first and third of which fit the
      buffer together: the second is thrown away, and the stream goes on with a hole in it, open
      in both directions. */
  method Hole(first: string, second: string, third: string) returns (b: Backend)
    requires |first| + |third| <= Writing.IO_BUFFER_SIZE < |first| + |second|
    ensures b.Valid() && b.Open() && b.given == first + second + third && b.conn.Stream() == first + third
    ensures b.manager.streams[b.i].lost == |second|
  {
    hide Backend.Valid, Backend.Open, Writing.PkConn.Stream;
    assert "" + first == first == first + "";
    b := NewBackend();
    b.ChunkWhileBlocked(first);
    b.ChunkWhileBlocked(second);
    b.ChunkWhileBlocked(third);
  }

  /** A stream that was just connected, whose backend takes nothing. */
  method NewBackend() returns (b: Backend)
    ensures b.Valid() && b.Open() && b.given == "" && b.conn.Stream() == "" && b.conn.outPos == 0 && b.conn.kernel == []
    ensures b.manager.tunnels.Length == 1 && b.manager.streams[b.i].lost == 0
    ensures fresh(b) && fresh(b.manager) && fresh(b.manager.streams) && fresh(b.manager.tunnels)
    ensures fresh(b.conn) && fresh(b.conn.out)
  {
    hide Manager.Valid, AtRest, Sound, Updated, AllLater, Idlest, FirstFree;
    var manager := NewManager();
    var conn := new Writing.PkConn(1, []);
    NothingBuffered(conn);
    b := new Backend(manager, 0, conn);
  }

  lemma NothingBuffered(conn: Writing.PkConn)
    requires conn.Valid() && conn.Stream() == ""
    ensures conn.outPos == 0
  {
    assert |conn.out[..conn.outPos]| == conn.outPos;
  }

  /** With one stream, which was just opened. */
  method NewManager() returns (manager: Manager)
    ensures manager.Valid() && manager.streams.Length == manager.tunnels.Length == 1
    ensures manager.streams[0] == NewStream(0, 1, 1)
    ensures fresh(manager) && fresh(manager.streams) && fresh(manager.tunnels)
  {
    hide Manager.Valid, AllLater, Idlest, Evictable, Updated, AllFine;
    manager := new Manager(1, 1);
    assert !manager.streams[..][0].inUse;
    ghost var was := manager.streams[..];
    var slot;
    ghost var at, mid;
    slot, at, mid := manager.Connect(0, 0, 0, 0, 0, [0], [false], 0, 1);
    FirstIsFree(was, 0, slot.value);
    hide FirstFree;
    assert manager.streams[..] == was[0 := NewStream(0, 1, 1)];
  }
}
