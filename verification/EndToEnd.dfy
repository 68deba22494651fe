/** The wire from end to end: the callbacks that write frames to a tunnel on one side, whatever
    the kernel takes cut into reads anyhow, and `pk_parser_parse` on the other side. */
module EndToEnd {
  import opened Text
  import opened Wire
  import opened ParserSpec
  import opened SplitInvariance
  import opened Printers
  import opened Conn
  import opened Parser
  import opened Items
  import opened Torn

  // ---- what was written -------------------------------------------------------------

  /** A write of an item, and how many bytes of its frame found their way to the kernel or the
      buffer. */
  datatype Entry = Entry(item: Item, took: nat)

  predicate Proper(e: Entry) {
    e.took <= |FrameOf(e.item)|
  }

  predicate Complete(e: Entry) {
    e.took == |FrameOf(e.item)|
  }

  /** A part of the frame went out, and the rest did not. */
  predicate Broken(e: Entry) {
    0 < e.took < |FrameOf(e.item)|
  }

  function Cut(e: Entry): string {
    if Proper(e) then FrameOf(e.item)[..e.took] else FrameOf(e.item)
  }

  /** The stream that these writes make. */
  function Output(log: seq<Entry>): string {
    if log == [] then "" else Output(log[..|log| - 1]) + Cut(log[|log| - 1])
  }

  /** The items that were written whole. */
  function Whole(log: seq<Entry>): seq<Item> {
    if log == [] then []
    else
      var e := log[|log| - 1];
      Whole(log[..|log| - 1]) + if Complete(e) then [e.item] else []
  }

  /** The data of one stream among those. */
  function DataOf(log: seq<Entry>, sid: string): string {
    if log == [] then ""
    else
      var e := log[|log| - 1];
      DataOf(log[..|log| - 1], sid) + if Complete(e) && e.item.Chunk? && e.item.sid == sid then e.item.data else ""
  }

  /** The first write that was broken off, or the end. */
  function FirstBroken(log: seq<Entry>): (n: nat)
    ensures n <= |log|
  {
    if log == [] then 0
    else
      var n := FirstBroken(log[..|log| - 1]);
      if n < |log| - 1 || Broken(log[|log| - 1]) then n else |log|
  }

  lemma {:induction false} FirstBrokenIs(log: seq<Entry>)
    ensures FirstBroken(log) < |log| ==> Broken(log[FirstBroken(log)])
  {
    hide Broken;
    if log != [] {
      FirstBrokenIs(log[..|log| - 1]);
    }
  }

  lemma LogSnoc(log: seq<Entry>, e: Entry)
    ensures Output(log + [e]) == Output(log) + Cut(e)
    ensures Whole(log + [e]) == Whole(log) + if Complete(e) then [e.item] else []
    ensures forall sid ::
              DataOf(log + [e], sid) ==
              DataOf(log, sid) + if Complete(e) && e.item.Chunk? && e.item.sid == sid then e.item.data else ""
  {
    assert (log + [e])[..|log|] == log;
  }

  lemma OneMoreFrame(log: seq<Entry>, e: Entry)
    requires Proper(e) && !Broken(e) && Output(log) == Concat(Frames(Whole(log)))
    ensures Output(log + [e]) == Concat(Frames(Whole(log + [e])))
  {
    hide FrameOf, Frames, Concat, Output, Whole;
    var out, whole := Output(log), Whole(log);
    LogSnoc(log, e);
    if Complete(e) {
      FramesSnoc(whole, e.item);
      assert Cut(e) == FrameOf(e.item);
    } else {
      assert Cut(e) == "" && whole + [] == whole && out + "" == out;
    }
  }

  /** Up to the first broken write the stream is the frames of the items that were written. */
  lemma {:induction false} OutputIsFrames(log: seq<Entry>, n: nat)
    requires n <= FirstBroken(log) && forall i :: 0 <= i < |log| ==> Proper(log[i])
    ensures Output(log[..n]) == Concat(Frames(Whole(log[..n])))
    decreases |log|, n
  {
    hide Frames, Concat, Output, Whole, Proper, Broken;
    if n == 0 {
      NoFrames();
      assert log[..0] == [];
    } else if n < |log| {
      var before := log[..|log| - 1];
      OutputIsFrames(before, n);
      assert before[..n] == log[..n];
    } else {
      var before, e := log[..n - 1], log[n - 1];
      OutputIsFrames(before, n - 1);
      assert log[..n] == log == before + [e] && before[..n - 1] == before;
      OneMoreFrame(before, e);
    }
  }

  lemma NoFrames()
    ensures Output([]) == Concat(Frames(Whole([])))
  {
  }

  lemma {:induction false} OutputGrows(log: seq<Entry>, n: nat)
    requires n <= |log|
    ensures Output(log[..n]) <= Output(log)
  {
    hide FrameOf;
    if n < |log| {
      OutputGrows(log[..|log| - 1], n);
      assert log[..|log| - 1][..n] == log[..n];
    } else {
      assert log[..n] == log;
    }
  }

  /** Every item can be taken by the other end, and a chunk is cut behind its header or not
      written at all. */
  ghost predicate GoodEntry(e: Entry, cap: nat) {
    && Proper(e) && Sendable(e.item, cap)
    && (e.item.Chunk? ==> e.took == 0 || |ReplyHeader(e.item.sid, |e.item.data|)| <= e.took)
  }

  ghost predicate GoodLog(log: seq<Entry>, cap: nat) {
    forall i :: 0 <= i < |log| ==> GoodEntry(log[i], cap)
  }

  lemma {:induction false} WholeIsSendable(log: seq<Entry>, cap: nat)
    requires GoodLog(log, cap)
    ensures AllSendable(Whole(log), cap)
  {
    hide Sendable, FrameOf;
    if log != [] {
      assert GoodEntry(log[|log| - 1], cap);
      WholeIsSendable(log[..|log| - 1], cap);
    }
  }

  // ---- the writing end --------------------------------------------------------------

  /** What `pkc_read` says. */
  datatype Reading = Bytes(bytes: string) | AtEnd | ReadError

  /** What makes the front end write: a backend that can be read, one of the other frames, or a
      tunnel that can be written. */
  datatype Turn = Readable(k: nat, reading: Reading) | Control(item: Item) | Flushing(mode: Mode)

  /** How much of a frame a turn got written, and how its write ended. */
  datatype Result = Result(took: nat, why: Reason)

  lemma HeaderFits(sid: string, n: nat)
    requires |sid| <= SID_MAX && n <= IO_BUFFER_SIZE
    ensures |ReplyHeader(sid, n)| <= 32
  {
    var m := 5 + |sid| + 4 + n;
    assert Hex(m) == Hex(m / 16) + [HexDigit(m % 16)] || |Hex(m)| == 1;
    HexLength(m);
  }

  lemma HexLength(m: nat)
    requires m < 0x10_0000
    ensures |Hex(m)| <= 5
  {
    if m >= 16 {
      assert |Hex(m)| == |Hex(m / 16)| + 1;
      assert m / 16 >= 16 ==> |Hex(m / 16)| == |Hex(m / 16 / 16)| + 1;
      var q := m / 256;
      assert m / 16 / 16 == q;
      assert q >= 16 ==> |Hex(q)| == |Hex(q / 16)| + 1;
      assert q / 16 >= 16 ==> |Hex(q / 16)| == |Hex(q / 16 / 16)| + 1;
    }
  }

  /** What every backend was read of, what was written, and what waits in every stream's
      buffer. */
  datatype Books = Books(read: seq<string>, log: seq<Entry>, waiting: seq<string>)

  /** What a read adds: as much as there is place for. */
  function ReadFrom(a: Books, k: nat, reading: Reading): string
    requires k < |a.waiting| && |a.waiting[k]| <= IO_BUFFER_SIZE
  {
    var free := IO_BUFFER_SIZE - |a.waiting[k]|;
    if !reading.Bytes? then "" else if |reading.bytes| > free then reading.bytes[..free] else reading.bytes
  }

  /** All of the bytes that were there, up to what 16 kilobytes leave free; nothing at the end or after
      an error. */
  lemma ReadSays(a: Books, k: nat, bytes: string)
    requires k < |a.waiting| && |a.waiting[k]| <= 16384
    ensures var free := 16384 - |a.waiting[k]|;
            ReadFrom(a, k, Bytes(bytes)) == if |bytes| <= free then bytes else bytes[..free]
    ensures ReadFrom(a, k, AtEnd) == ReadFrom(a, k, ReadError) == ""
  {
  }

  function WasRead(a: Books, k: nat, reading: Reading): Books
    requires k < |a.waiting| == |a.read| && |a.waiting[k]| <= IO_BUFFER_SIZE
  {
    var more := ReadFrom(a, k, reading);
    a.(read := a.read[k := a.read[k] + more], waiting := a.waiting[k := a.waiting[k] + more])
  }

  /** A write ended like this: well if and only if all of the frame was written. */
  ghost predicate Ended(item: Item, r: Result) {
    r.took <= |FrameOf(item)| && (r.why == Sent <==> r.took == |FrameOf(item)|)
  }

  /** All that waits in stream k was written, or not. */
  function WasWritten(sids: seq<string>, a: Books, k: nat, r: Result): Books
    requires k < |a.waiting| == |sids|
  {
    a.(log := a.log + [Entry(Chunk(sids[k], a.waiting[k]), r.took)],
       waiting := if r.why == Sent then a.waiting[k := ""] else a.waiting)
  }

  /** One turn. */
  ghost predicate Turned(sids: seq<string>, a: Books, turn: Turn, r: Result, b: Books) {
    match turn
    case Readable(k, reading) =>
      && k < |sids| == |a.waiting| == |a.read| && |a.waiting[k]| <= IO_BUFFER_SIZE
      && var c := WasRead(a, k, reading);
         if ReadFrom(a, k, reading) != "" || reading.ReadError? then
           Ended(Chunk(sids[k], c.waiting[k]), r) && b == WasWritten(sids, c, k, r)
         else b == c && r == Result(0, Sent)
    case Control(item) => Ended(item, r) && b == a.(log := a.log + [Entry(item, r.took)])
    case Flushing(_) => b == a && r == Result(0, Sent)
  }

  /** A read that gets something: it is written together with what waited, and nothing waits when all
      of that frame was written; otherwise all of it does. One that gets nothing changes nothing. */
  lemma ReadTurnSays(sids: seq<string>, a: Books, k: nat, bytes: string, r: Result, b: Books)
    requires Turned(sids, a, Readable(k, Bytes(bytes)), r, b)
    ensures k < |sids| == |a.read| == |a.waiting| && |a.waiting[k]| <= 16384
    ensures var got := if |bytes| <= 16384 - |a.waiting[k]| then bytes else bytes[..16384 - |a.waiting[k]|];
            if got == "" then b == a
            else
              var frame := Reply(sids[k], a.waiting[k] + got);
              && b.read == a.read[k := a.read[k] + got] && r.took <= |frame|
              && b.log == a.log + [Entry(Chunk(sids[k], a.waiting[k] + got), r.took)]
              && b.waiting == a.waiting[k := if r.took == |frame| then "" else a.waiting[k] + got]
  {
    hide Reply;
    ReadSays(a, k, bytes);
    hide ReadFrom;
    if ReadFrom(a, k, Bytes(bytes)) == "" {
      NothingMore(a, k);
    }
  }

  /** The end of the data changes nothing; after an error what waited is written. */
  lemma NoReadTurnSays(sids: seq<string>, a: Books, k: nat, r: Result, b: Books)
    requires k < |sids|
    ensures Turned(sids, a, Readable(k, AtEnd), r, b) ==> b == a
    ensures Turned(sids, a, Readable(k, ReadError), r, b) ==>
              && k < |a.waiting| && b.read == a.read
              && b.log == a.log + [Entry(Chunk(sids[k], a.waiting[k]), r.took)]
              && b.waiting == a.waiting[k := if r.took == |Reply(sids[k], a.waiting[k])| then "" else a.waiting[k]]
  {
    hide Reply;
    if k < |a.waiting| == |a.read| {
      NothingMore(a, k);
    }
  }

  lemma NothingMore(a: Books, k: nat)
    requires k < |a.waiting| == |a.read|
    ensures a.(read := a.read[k := a.read[k] + ""], waiting := a.waiting[k := a.waiting[k] + ""]) == a
  {
    assert a.waiting[k] + "" == a.waiting[k] && a.read[k] + "" == a.read[k];
    assert a.waiting[k := a.waiting[k]] == a.waiting && a.read[k := a.read[k]] == a.read;
  }

  lemma FlushTurned(sids: seq<string>, a: Books, mode: Mode)
    ensures Turned(sids, a, Flushing(mode), Result(0, Sent), a)
  {
  }

  ghost predicate History(sids: seq<string>, turns: seq<Turn>, books: seq<Books>, results: seq<Result>) {
    && |books| == |turns| + 1 && |results| == |turns|
    && forall t :: 0 <= t < |turns| ==> Turned(sids, books[t], turns[t], results[t], books[t + 1])
  }

  lemma HistorySnoc(sids: seq<string>, turns: seq<Turn>, done: nat, books: seq<Books>, results: seq<Result>,
                    r: Result, b: Books)
    requires done < |turns| && History(sids, turns[..done], books, results)
    requires Turned(sids, books[done], turns[done], r, b)
    ensures History(sids, turns[..done + 1], books + [b], results + [r])
  {
    hide Turned;
    var bs, rs := books + [b], results + [r];
    forall t | 0 <= t < done + 1
      ensures Turned(sids, bs[t], turns[..done + 1][t], rs[t], bs[t + 1])
    {
      if t < done {
        assert Turned(sids, books[t], turns[..done][t], results[t], books[t + 1]);
      }
    }
  }

  lemma DataOfWrite(log: seq<Entry>, item: Item, took: nat, other: string)
    ensures DataOf(log + [Entry(item, took)], other) ==
            if took == |FrameOf(item)| && item.Chunk? && item.sid == other then DataOf(log, other) + item.data
            else DataOf(log, other)
  {
    hide FrameOf;
    LogSnoc(log, Entry(item, took));
    assert DataOf(log, other) + "" == DataOf(log, other);
  }

  /** The callbacks that write to one tunnel, with what each backend has been read of and not
      yet written. */
  class Frontend {
    const tunnel: PkConn
    const sids: seq<string>
    /** in_buffer[..in_buffer_pos] of every stream */
    const inBuffers: array<string>
    /** Everything that was ever read of each backend, and every write. */
    ghost var read: seq<string>
    ghost var log: seq<Entry>

    /** No data is lost or made up: what was read was written whole, or waits. */
    ghost predicate Kept(log: seq<Entry>)
      reads this`read, inBuffers
    {
      && |sids| == inBuffers.Length == |read|
      && (forall j, k :: 0 <= j < k < |sids| ==> sids[j] != sids[k])
      && forall k :: 0 <= k < |sids| ==>
           && GoodSid(sids[k]) && |inBuffers[k]| <= IO_BUFFER_SIZE
           && read[k] == DataOf(log, sids[k]) + inBuffers[k]
    }

    /** The stream is what was written, and nothing else. */
    ghost predicate Written()
      reads this`log, tunnel`outPos, tunnel`wroteBytes, tunnel`reportedKb, tunnel`accepted, tunnel.out
    {
      tunnel.Valid() && tunnel.Stream() == Output(log)
    }

    ghost predicate Valid(cap: nat)
      reads this, inBuffers, tunnel`outPos, tunnel`wroteBytes, tunnel`reportedKb, tunnel`accepted, tunnel.out
    {
      32 < cap && Kept(log) && GoodLog(log, cap) && Written()
    }

    ghost function Now(): Books
      reads this, inBuffers
    {
      Books(read, log, inBuffers[..])
    }

    constructor (tunnel: PkConn, sids: seq<string>)
      requires tunnel.Valid() && tunnel.Stream() == "" && (forall k :: 0 <= k < |sids| ==> GoodSid(sids[k]))
      requires forall j, k :: 0 <= j < k < |sids| ==> sids[j] != sids[k]
      ensures this.tunnel == tunnel && this.sids == sids && log == [] && fresh(inBuffers)
      ensures forall cap :: 32 < cap ==> Valid(cap)
    {
      this.tunnel, this.sids := tunnel, sids;
      inBuffers := new string[|sids|](_ => "");
      read, log := seq(|sids|, _ => ""), [];
    }

    /** `pkc_read` into what is free of a stream's buffer; reading into no space looks like the
        end of the data. The number of bytes is a size_t, so that an error counts as some. */
    method ReadMore(k: nat, reading: Reading) returns (some: bool)
      requires Kept(log) && k < |sids|
      modifies this`read, inBuffers
      ensures Kept(log) && some == (ReadFrom(old(Now()), k, reading) != "" || reading.ReadError?)
      ensures Now() == WasRead(old(Now()), k, reading)
    {
      hide DataOf, GoodSid;
      some := reading.ReadError?;
      ghost var was := Now();
      if reading.Bytes? {
        var free := IO_BUFFER_SIZE - |inBuffers[k]|;
        var n := if |reading.bytes| > free then free else |reading.bytes|;
        some := n > 0;
        ghost var more := reading.bytes[..n];
        assert more == ReadFrom(was, k, reading);
        assert read[k] + more == DataOf(log, sids[k]) + (inBuffers[k] + more);
        inBuffers[k] := inBuffers[k] + reading.bytes[..n];
        read := read[k := read[k] + more];
        assert inBuffers[..] == was.waiting[k := was.waiting[k] + more];
      } else {
        NothingRead(was, k, reading);
      }
    }

    lemma NothingRead(a: Books, k: nat, reading: Reading)
      requires k < |a.waiting| == |a.read| && |a.waiting[k]| <= IO_BUFFER_SIZE && !reading.Bytes?
      ensures ReadFrom(a, k, reading) == "" && WasRead(a, k, reading) == a
    {
      assert a.waiting[k] + "" == a.waiting[k] && a.read[k] + "" == a.read[k];
      assert a.waiting[k := a.waiting[k]] == a.waiting && a.read[k := a.read[k]] == a.read;
    }

    lemma ChunkIsSendable(sid: string, data: string, cap: nat)
      requires GoodSid(sid) && |data| <= IO_BUFFER_SIZE && 32 < cap
      ensures Sendable(Chunk(sid, data), cap) && |ReplyHeader(sid, |data|)| <= IO_BUFFER_SIZE
    {
      hide ReplyHeader;
      HeaderFits(sid, |data|);
    }

    /** Took so many bytes of an item. */
    ghost method Note(e: Entry, cap: nat)
      requires tunnel.Valid() && GoodLog(log, cap) && GoodEntry(e, cap)
      requires tunnel.Stream() == Output(log) + Cut(e)
      modifies this`log
      ensures log == old(log) + [e] && GoodLog(log, cap) && Written()
    {
      hide PkConn.Stream, FrameOf, GoodEntry;
      LogSnoc(log, e);
      log := log + [e];
    }

    /** The books when a write was no chunk, or was not whole. */
    lemma KeptAnyway(was: seq<Entry>, item: Item, took: nat)
      requires Kept(was) && (!item.Chunk? || took < |FrameOf(item)|)
      ensures Kept(was + [Entry(item, took)])
    {
      hide DataOf, FrameOf;
      forall k | 0 <= k < |sids|
        ensures DataOf(was + [Entry(item, took)], sids[k]) == DataOf(was, sids[k])
      {
        DataOfWrite(was, item, took, sids[k]);
      }
    }

    lemma DataOfOthers(was: seq<Entry>, k: nat, data: string)
      requires k < |sids| && forall i, j :: 0 <= i < j < |sids| ==> sids[i] != sids[j]
      ensures var item := Chunk(sids[k], data);
              forall j :: 0 <= j < |sids| ==>
                var d := DataOf(was, sids[j]);
                DataOf(was + [Entry(item, |FrameOf(item)|)], sids[j]) == if j == k then d + data else d
    {
      hide DataOf, FrameOf;
      var item := Chunk(sids[k], data);
      forall j | 0 <= j < |sids|
        ensures var d := DataOf(was, sids[j]);
                DataOf(was + [Entry(item, |FrameOf(item)|)], sids[j]) == if j == k then d + data else d
      {
        assert j < k ==> sids[j] != sids[k];
        assert k < j ==> sids[k] != sids[j];
        DataOfWrite(was, item, |FrameOf(item)|, sids[j]);
      }
    }

    /** And when stream k's chunk was. */
    method Empty(k: nat, ghost was: seq<Entry>)
      requires k < |sids| && Kept(was)
      modifies inBuffers
      ensures var item := Chunk(sids[k], old(inBuffers[k]));
              Kept(was + [Entry(item, |FrameOf(item)|)]) && inBuffers[..] == old(inBuffers[..])[k := ""]
    {
      hide DataOf, FrameOf;
      ghost var data := inBuffers[k];
      DataOfOthers(was, k, data);
      inBuffers[k] := "";
      assert forall j :: 0 <= j < |sids| && j != k ==> inBuffers[j] == old(inBuffers[j]);
      assert DataOf(was, sids[k]) + data + "" == DataOf(was, sids[k]) + data;
    }

    /** `pkm_be_conn_readable_cb`: if all that waits could be written, nothing waits any more;
        otherwise it stays, to be written once more behind a header of its own. */
    method Readable(k: nat, reading: Reading, ghost cap: nat) returns (ghost r: Result)
      requires Valid(cap) && k < |sids|
      modifies this`read, this`log, inBuffers, tunnel, tunnel.out
      ensures Valid(cap) && Turned(sids, old(Now()), Turn.Readable(k, reading), r, Now())
      ensures Because(r.why, tunnel.sockfd, old(tunnel.kernel), tunnel.kernel)
    {
      hide PkConn.Stream, ReplyHeader, Reply, Sendable, GoodSid, Because, GoodLog, Output, FrameOf;
      var some := ReadMore(k, reading);
      r := Result(0, Sent);
      tunnel.NoReason(tunnel.kernel);
      if some {
        r := WriteBuffered(k, cap);
      }
    }

    lemma KeptHere(log: seq<Entry>, k: nat)
      requires Kept(log) && k < |sids|
      ensures |sids| == inBuffers.Length && GoodSid(sids[k]) && |inBuffers[k]| <= IO_BUFFER_SIZE
    {
    }

    lemma CutIs(item: Item, took: nat)
      requires took <= |FrameOf(item)|
      ensures Cut(Entry(item, took)) == FrameOf(item)[..took]
    {
    }

    lemma ChunkFrame(sid: string, data: string)
      ensures FrameOf(Chunk(sid, data)) == Reply(sid, data)
    {
    }

    /** `pkm_write_chunked` of everything that waits. */
    method WriteBuffered(k: nat, ghost cap: nat) returns (ghost r: Result)
      requires Valid(cap) && k < |sids| == inBuffers.Length
      modifies this`log, inBuffers, tunnel, tunnel.out
      ensures Valid(cap) && Ended(Chunk(sids[k], old(inBuffers[k])), r) && Now() == WasWritten(sids, old(Now()), k, r)
      ensures Because(r.why, tunnel.sockfd, old(tunnel.kernel), tunnel.kernel)
    {
      hide PkConn.Stream, PkConn.Behind, ReplyHeader, Reply, Sendable, GoodSid, Marks, Because, Failure;
      hide GoodLog, Output, FrameOf, Cut;
      var sid, data := sids[k], inBuffers[k];
      ghost var was, item := log, Chunk(sid, data);
      KeptHere(was, k);
      hide Kept;
      ChunkIsSendable(sid, data, cap);
      ChunkFrame(sid, data);
      ghost var whys;
      var n, took;
      n, took, whys := tunnel.WriteChunked(sid, data);
      r := Result(took, Failure(whys));
      CutIs(item, took);
      Note(Entry(item, took), cap);
      if n >= 0 {
        Empty(k, was);
      } else {
        KeptAnyway(was, item, took);
      }
    }

    /** One of the other frames: what was not written is not tried again. */
    method WriteControl(item: Item, ghost cap: nat) returns (ghost r: Result)
      requires Valid(cap) && Sendable(item, cap) && !item.Chunk?
      modifies this`log, tunnel, tunnel.out
      ensures Valid(cap) && Turned(sids, old(Now()), Control(item), r, Now())
      ensures Because(r.why, tunnel.sockfd, old(tunnel.kernel), tunnel.kernel)
    {
      hide PkConn.Stream, PkConn.Behind, Sendable, FrameOf, Because, Marks, GoodLog, Output, Kept, Cut;
      var n, took;
      ghost var why, was := Sent, log;
      n, took, why := tunnel.Write(FrameOf(item));
      r := Result(took, why);
      CutIs(item, took);
      Note(Entry(item, took), cap);
      KeptAnyway(was, item, took);
    }

    /** Flushing leaves the stream as it is. */
    method Flush(mode: Mode, ghost cap: nat)
      requires Valid(cap)
      modifies tunnel, tunnel.out
      ensures Valid(cap)
    {
      hide PkConn.Stream, Because, GoodLog, Output, Kept;
      ghost var stream := tunnel.Stream();
      var _, _, _ := tunnel.Flush(None, mode);
      assert stream + "" == stream;
    }

    /** One tunnel's writes, until it is marked closed: the books after each turn, and how its
        write ended. A write that was broken off does not stop them. */
    method Run(turns: seq<Turn>, ghost cap: nat)
      returns (done: nat, ghost books: seq<Books>, ghost results: seq<Result>)
      requires Valid(cap)
      requires forall t :: 0 <= t < |turns| ==>
                 && (turns[t].Readable? ==> turns[t].k < |sids|)
                 && (turns[t].Control? ==> Sendable(turns[t].item, cap) && !turns[t].item.Chunk?)
      modifies this`read, this`log, inBuffers, tunnel, tunnel.out
      ensures Valid(cap) && |books| == done + 1 <= |turns| + 1 && (done < |turns| ==> tunnel.clsWrite)
      ensures History(sids, turns[..done], books, results) && books[0] == old(Now()) && books[done] == Now()
    {
      hide Valid, Sendable, Because, Turned;
      done, books, results := 0, [Now()], [];
      while done < |turns| && !tunnel.clsWrite
        invariant |books| == done + 1 <= |turns| + 1 && Valid(cap)
        invariant History(sids, turns[..done], books, results) && books[0] == old(Now()) && books[done] == Now()
        decreases |turns| - done
      {
        ghost var was, r := Now(), Result(0, Sent);
        match turns[done] {
          case Readable(k, reading) =>
            r := Readable(k, reading, cap);
          case Control(item) =>
            r := WriteControl(item, cap);
          case Flushing(mode) =>
            Flush(mode, cap);
            FlushTurned(sids, was, mode);
        }
        HistorySnoc(sids, turns, done, books, results, r, Now());
        books, results := books + [Now()], results + [r];
        done := done + 1;
      }
    }
  }

  /** Feeding the first piece, when `before` was reported already. */
  lemma OneParsed(cap: nat, st: State, pieces: seq<string>, before: seq<Event>, total: Step)
    requires Sane(st) && Used(st) <= cap && pieces != []
    requires var t := FeedAll(cap, st, pieces);
             total == Step(t.st, before + t.events, t.code)
    ensures var s := Feed(cap, st, pieces[0]);
            if s.code == Fine && s.st != Lost then
              var u := FeedAll(cap, s.st, pieces[1..]);
              total == Step(u.st, before + s.events + u.events, u.code)
            else total.events == before + s.events && (total.code != Fine || total.st == Lost)
  {
    hide Feed;
    var s := Feed(cap, st, pieces[0]);
    if s.code == Fine {
      var u := FeedAll(cap, s.st, pieces[1..]);
      assert before + (s.events + u.events) == before + s.events + u.events;
      if s.st == Lost {
        AllLost(cap, pieces[1..]);
        assert s.events + [] == s.events;
      }
    }
  }

  /** The reads of the other end, one `pk_parser_parse` each, up to the first error. */
  method ParseAll(parser: PkParser, pieces: seq<string>)
    requires parser.Valid() && !parser.lost && parser.delivered == []
    modifies parser, parser.buf
    ensures parser.Valid()
    ensures var s := FeedAll(parser.buf.Length, old(parser.Abs()), pieces);
            && s.events <= parser.delivered
            && (s.code == Fine && s.st != Lost ==> parser.delivered == s.events && parser.Abs() == s.st)
  {
    hide PkParser.Valid, PkParser.Abs, Feed;
    ghost var cap, st := parser.buf.Length, parser.Abs();
    ghost var total := FeedAll(cap, st, pieces);
    var i, code := 0, Fine;
    assert pieces[0..] == pieces;
    while i < |pieces| && code == Fine
      invariant i <= |pieces| && parser.Valid()
      invariant if code == Fine && !parser.lost then
                  var t := FeedAll(cap, parser.Abs(), pieces[i..]);
                  total == Step(t.st, parser.delivered + t.events, t.code)
                else total.events <= parser.delivered && (total.code != Fine || total.st == Lost)
    {
      ghost var rest, before, lost := pieces[i..], parser.delivered, parser.lost;
      ghost var now := parser.Abs();
      assert rest[0] == pieces[i] && rest[1..] == pieces[i + 1..];
      var parsed;
      code, parsed := parser.Parse(pieces[i]);
      if !lost {
        OneParsed(cap, now, rest, before, total);
      }
      i := i + 1;
    }
    if code == Fine && !parser.lost {
      assert pieces[i..] == [] && parser.delivered + [] == parser.delivered;
    }
  }

  /** What was received when s.events are only the first of what was reported. */
  lemma ReceiveMore(a: seq<Event>, b: seq<Event>)
    requires a <= b
    ensures Receive(Nothing, a).messages <= Receive(Nothing, b).messages
  {
    ReceiveAppend(Nothing, a, b[|a|..]);
    assert a + b[|a|..] == b;
  }

  /** The stream with its first broken write filled up, and what was written before. */
  lemma UpToBroken(log: seq<Entry>, cap: nat)
    requires GoodLog(log, cap)
    ensures var n := FirstBroken(log);
            var good := Whole(log[..n]);
            && AllSendable(good, cap) && Concat(Frames(good)) <= Output(log)
            && (n == |log| ==> good == Whole(log) && Output(log) == Concat(Frames(good)))
  {
    hide FrameOf, Sendable, Frames, Concat, Output;
    var n := FirstBroken(log);
    ProperLog(log, cap);
    OutputIsFrames(log, n);
    OutputGrows(log, n);
    assert GoodLog(log[..n], cap);
    WholeIsSendable(log[..n], cap);
    if n == |log| {
      assert log[..n] == log;
    }
  }

  lemma ProperLog(log: seq<Entry>, cap: nat)
    requires GoodLog(log, cap)
    ensures forall i :: 0 <= i < |log| ==> Proper(log[i])
  {
    forall i | 0 <= i < |log|
      ensures Proper(log[i])
    {
      assert GoodEntry(log[i], cap);
    }
  }

  /** The remote end of a stream of writes some of which were broken off: whatever part of it
      arrives, what was written before the first of those is reported first and in order, and
      nothing else before it is complete. */
  lemma Reported(cap: nat, log: seq<Entry>, pieces: seq<string>) returns (done: nat)
    requires 0 < cap && GoodLog(log, cap) && Concat(pieces) <= Output(log)
    ensures var good := Whole(log[..FirstBroken(log)]);
            var s := FeedAll(cap, Hold(""), pieces);
            if |Concat(pieces)| <= |Concat(Frames(good))| then
              s.code == Fine && s.st != Lost && Has(Receive(Nothing, s.events), good, done)
            else AllCarried(good) <= Receive(Nothing, s.events).messages
  {
    hide FrameOf, Frames, Concat, Output, FeedAll, Receive, Has, AllCarried, AllDelivered, GoodLog;
    var good := Whole(log[..FirstBroken(log)]);
    UpToBroken(log, cap);
    var frames := Concat(Frames(good));
    done := 0;
    if |Concat(pieces)| <= |frames| {
      assert Concat(pieces) == Output(log)[..|Concat(pieces)|] == frames[..|Concat(pieces)|];
      done := Delivery(cap, good, pieces);
    } else {
      assert frames == Output(log)[..|frames|] == Concat(pieces)[..|frames|];
      FramesAreSendable(good, cap);
      FirstMessages(cap, Frames(good), pieces);
    }
  }

  lemma {:induction false} OutputAt(log: seq<Entry>, n: nat)
    requires n < |log|
    ensures Output(log) == Output(log[..n]) + Cut(log[n]) + Output(log[n + 1..])
  {
    hide FrameOf, Cut;
    var before, e := log[..|log| - 1], log[|log| - 1];
    if n < |log| - 1 {
      OutputAt(before, n);
      var rest := log[n + 1..];
      assert before[..n] == log[..n] && rest[..|rest| - 1] == before[n + 1..] && rest[|rest| - 1] == e;
      var a, b, c := Output(log[..n]), Cut(log[n]), Output(before[n + 1..]);
      assert a + b + c + Cut(e) == a + b + (c + Cut(e));
    } else {
      assert before == log[..n] && log[n + 1..] == [];
      assert Output(before) + Cut(e) + "" == Output(before) + Cut(e);
    }
  }

  lemma BrokenChunk(e: Entry, cap: nat)
    requires GoodEntry(e, cap) && Broken(e) && e.item.Chunk?
    ensures var header, data := ReplyHeader(e.item.sid, |e.item.data|), e.item.data;
            var k := e.took - |header|;
            && 0 <= k < |data| && Sendable(Chunk(e.item.sid, data), cap)
            && 0 < |header| && |FrameOf(e.item)| == |header| + |data|
            && Cut(e) == header + data[..k]
  {
    hide Sendable;
    var header, data := ReplyHeader(e.item.sid, |e.item.data|), e.item.data;
    assert |header| > 0;
    hide ReplyHeader;
    assert FrameOf(e.item) == header + data;
    assert (header + data)[..e.took] == header + data[..e.took - |header|];
  }

  /** A chunk of which a part went out, filled up with what comes next. */
  function FilledUp(e: Entry, rest: string): (made: Item)
    requires e.item.Chunk? && |ReplyHeader(e.item.sid, |e.item.data|)| <= e.took <= |FrameOf(e.item)|
    requires |FrameOf(e.item)| <= e.took + |rest|
  {
    var data, k := e.item.data, e.took - |ReplyHeader(e.item.sid, |e.item.data|)|;
    Chunk(e.item.sid, data[..k] + rest[..|data| - k])
  }

  /** When the first write that was broken off was one of a chunk, and enough was written behind
      it, the remote end reports a chunk that nobody wrote in its place: the part that went out,
      filled up with the bytes of whatever the later turns wrote. */
  lemma MadeUp(cap: nat, log: seq<Entry>, n: nat, rest: string, pieces: seq<string>)
    requires 0 < cap && GoodLog(log, cap) && n == FirstBroken(log) < |log| && rest == Output(log[n + 1..])
    requires log[n].item.Chunk? && |FrameOf(log[n].item)| <= log[n].took + |rest| && Concat(pieces) == Output(log)
    ensures 0 < |ReplyHeader(log[n].item.sid, |log[n].item.data|)| <= log[n].took < |FrameOf(log[n].item)|
    ensures AllCarried(Whole(log[..n])) + [Carried(FilledUp(log[n], rest))]
            <= Receive(Nothing, FeedAll(cap, Hold(""), pieces).events).messages
  {
    hide Frames, Concat, Output, FeedAll, Receive, AllCarried, ReplyHeader, Sendable, Carried, FrameOf, Cut, Whole;
    hide Proper, GoodEntry, FirstBroken;
    var e := log[n];
    FirstBrokenIs(log);
    BrokenChunk(e, cap) by {
      assert GoodEntry(e, cap);
    }
    UpToBroken(log, cap);
    ProperLog(log, cap);
    OutputIsFrames(log, n);
    OutputAt(log, n);
    var k := e.took - |ReplyHeader(e.item.sid, |e.item.data|)|;
    TornChunkIsFilledUp(cap, Whole(log[..n]), e.item.sid, e.item.data, k, rest, pieces);
  }

  /** One direction of a tunnel: a front end, a new parser, and a network that hands over some of
      what the kernel took, in pieces of its choosing. What was written before the first write
      that was broken off is reported in order, first, and, if there was none, all and nothing
      else when everything arrives. What a backend was read of and was not written waits. */
  method Transfer(front: Frontend, turns: seq<Turn>, network: string -> seq<string>, parser: PkParser)
    returns (ghost done: nat, ghost books: seq<Books>, ghost results: seq<Result>)
    requires parser.Valid() && parser.Abs() == Hold("") && parser.delivered == []
    requires front.Valid(parser.buf.Length) && parser.buf != front.tunnel.out
    requires forall t :: 0 <= t < |turns| ==>
               && (turns[t].Readable? ==> turns[t].k < |front.sids|)
               && (turns[t].Control? ==> Sendable(turns[t].item, parser.buf.Length) && !turns[t].item.Chunk?)
    requires forall s :: Concat(network(s)) <= s
    modifies front, front.inBuffers, front.tunnel, front.tunnel.out, parser, parser.buf
    ensures front.Valid(parser.buf.Length) && parser.Valid()
    ensures 1 <= |books| <= |turns| + 1 && History(front.sids, turns[..|books| - 1], books, results)
    ensures books[0] == old(front.Now()) && books[|books| - 1] == front.Now()
    ensures var good, arrived := Whole(front.log[..FirstBroken(front.log)]), Concat(network(front.tunnel.accepted));
            if |arrived| <= |Concat(Frames(good))| then Has(Receive(Nothing, parser.delivered), good, done)
            else AllCarried(good) <= Receive(Nothing, parser.delivered).messages
    ensures var sent := front.tunnel.accepted;
            && FirstBroken(front.log) == |front.log| && front.tunnel.outPos == 0 && Concat(network(sent)) == sent ==>
              Receive(Nothing, parser.delivered) == Received(AllCarried(Whole(front.log)), Nothing)
  {
    hide PkParser.Valid, PkParser.Abs, Frontend.Kept;
    hide Sendable, FeedAll, Receive, Has, FrameOf, Frames, AllCarried, Concat, History, GoodLog, Output;
    ghost var cap := parser.buf.Length;
    var n;
    n, books, results := front.Run(turns, cap);
    ghost var log := front.log;
    UpToBroken(log, cap);
    assert front.tunnel.accepted <= front.tunnel.Stream() == Output(log);
    var pieces := network(front.tunnel.accepted);
    done := Reported(cap, log, pieces);
    ParseAll(parser, pieces);
    ReceiveMore(FeedAll(cap, Hold(""), pieces).events, parser.delivered);
    if FirstBroken(log) == |log| && Concat(pieces) == Output(log) {
      var _ := Delivery(cap, Whole(log), pieces);
    }
  }

  /** A chunk that needs more than the buffer, and a kernel that would block: the write fails with
      the header taken, and the connection is not marked closed. */
  method TornUnmarked(sid: string, data: string) returns (r: int, took: nat, marked: bool)
    requires GoodSid(sid) && |data| <= IO_BUFFER_SIZE < |Reply(sid, data)|
    ensures r == -1 && took == |ReplyHeader(sid, |data|)| && 0 < took < |Reply(sid, data)| && !marked
  {
    HeaderFits(sid, |data|);
    hide ReplyHeader, PkConn.Stream;
    var conn := new PkConn(1, []);
    conn.HeaderNotEmpty(sid, |data|);
    ghost var whys;
    r, took, whys := conn.WriteChunked(sid, data);
    marked := conn.clsWrite;
  }
}
