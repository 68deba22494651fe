/** The frames that one side of a tunnel writes, and that the other side gets them whatever way
    they are cut up. */
module Items {
  import opened Text
  import opened Wire
  import opened ParserSpec
  import opened SplitInvariance
  import opened Printers

  const SID_MAX := 8

  /** What is written to a tunnel: data of a stream, its end, how much of it was passed on, and
      the two frames that keep the tunnel alive. */
  datatype Item =
    | Chunk(sid: string, data: string)
    | Ending(sid: string, read: bool, write: bool)
    | Progress(sid: string, kilobytes: int)
    | Pinging
    | Ponging

  function FrameOf(i: Item): string {
    match i
    case Chunk(sid, data) => Reply(sid, data)
    case Ending(sid, read, write) => EofFrame(sid, read, write)
    case Progress(sid, kilobytes) => SkbFrame(sid, kilobytes)
    case Pinging => PING_FRAME
    case Ponging => PONG_FRAME
  }

  /** The message as the receiving end should see it. */
  function Carried(i: Item): Message {
    match i
    case Chunk(sid, data) => Message(Headers(map[Sid := sid], map[], []), data)
    case Ending(sid, read, write) => Message(EofHeaders(sid, read, write), "")
    case Progress(sid, kilobytes) => Message(SkbHeaders(sid, kilobytes), "")
    case Pinging => Message(PING_HEADERS, "")
    case Ponging => Message(PONG_HEADERS, "")
  }

  /** A stream id that came in through the parser (`Printers.SidIsOneLine`) and was kept. */
  ghost predicate GoodSid(sid: string) {
    NUL !in sid && NoCrlf(sid) && |sid| <= SID_MAX
  }

  /** An item that a parser with cap bytes of buffer can take. */
  ghost predicate Sendable(i: Item, cap: nat) {
    && |FrameOf(i)| <= INT_MAX && (i.Chunk? || |FrameOf(i)| <= cap)
    && match i
       case Chunk(sid, data) => GoodSid(sid) && |ReplyHeader(sid, |data|)| < cap
       case Ending(sid, _, _) => GoodSid(sid)
       case Progress(sid, kilobytes) => GoodSid(sid) && -TWO_63 <= kilobytes < TWO_63
       case _ => true
  }

  lemma ItemReads(i: Item, cap: nat)
    requires Sendable(i, cap)
    ensures WellFormed(FrameOf(i), cap) && MessageOf(FrameOf(i), cap) == Carried(i)
  {
    hide WellFormed, MessageOf, Reply, ReplyHeader, EofFrame, SkbFrame, EofHeaders, SkbHeaders, DataStart, NoCrlf;
    match i {
      case Chunk(sid, data) => ReplyReads(sid, data, cap);
      case Ending(sid, read, write) => EofReads(sid, read, write, cap);
      case Progress(sid, kilobytes) => SkbReads(sid, kilobytes, cap);
      case Pinging => PingReads(cap);
      case Ponging => PongReads(cap);
    }
  }

  function Frames(items: seq<Item>): (fs: seq<string>)
    ensures |fs| == |items|
  {
    if items == [] then [] else [FrameOf(items[0])] + Frames(items[1..])
  }

  function AllCarried(items: seq<Item>): (ms: seq<Message>)
    ensures |ms| == |items|
  {
    if items == [] then [] else [Carried(items[0])] + AllCarried(items[1..])
  }

  ghost predicate AllSendable(items: seq<Item>, cap: nat) {
    forall i :: 0 <= i < |items| ==> Sendable(items[i], cap)
  }

  /** The receiver has exactly the first `done` items, and of the next one at most its headers
      (without an EOF) and an exact prefix of its data. */
  ghost predicate Has(got: Received, items: seq<Item>, done: nat) {
    && done <= |items| && got.messages == AllCarried(items[..done])
    && match got.partial
       case Nothing => true
       case Part(h, data) =>
         done < |items| && h == KeepBackEof(Carried(items[done]).headers) && data <= Carried(items[done]).data
  }

  lemma {:induction false} FramesTake(items: seq<Item>, n: nat)
    requires n <= |items|
    ensures Frames(items[..n]) == Frames(items)[..n] && Frames(items[n..]) == Frames(items)[n..]
  {
    hide FrameOf;
    if n > 0 {
      assert items[..n][0] == items[0] && items[..n][1..] == items[1..][..n - 1];
      assert items[n..] == items[1..][n - 1..];
      FramesTake(items[1..], n - 1);
    } else {
      assert items[..0] == [] && items[0..] == items;
    }
  }

  lemma {:induction false} FrameAt(items: seq<Item>, i: nat)
    requires i < |items|
    ensures Frames(items)[i] == FrameOf(items[i])
  {
    hide FrameOf;
    if i > 0 {
      FrameAt(items[1..], i - 1);
    }
  }

  lemma {:induction false} FramesAreSendable(items: seq<Item>, cap: nat)
    requires AllSendable(items, cap)
    ensures AllWellFormed(Frames(items), cap)
    ensures AllDelivered(Frames(items), cap) == AllCarried(items)
  {
    hide WellFormed, MessageOf, FrameOf, Carried, Sendable;
    if items != [] {
      ItemReads(items[0], cap);
      FramesAreSendable(items[1..], cap);
      var fs := Frames(items);
      assert fs[1..] == Frames(items[1..]);
      forall i | 0 <= i < |fs|
        ensures WellFormed(fs[i], cap)
      {
        assert i > 0 ==> fs[i] == fs[1..][i - 1];
      }
    }
  }

  /** Whatever part of the stream arrives, in whatever pieces, the remote parser raises no error
      and reports exactly what was written, in order; all of it when all of it arrives. */
  lemma Delivery(cap: nat, items: seq<Item>, pieces: seq<string>) returns (done: nat)
    requires 0 < cap && AllSendable(items, cap)
    requires Concat(pieces) <= Concat(Frames(items))
    ensures var s := FeedAll(cap, Hold(""), pieces);
            && s.code == Fine && s.st != Lost && Has(Receive(Nothing, s.events), items, done)
            && (Concat(pieces) == Concat(Frames(items)) ==>
                  s.st == Hold("") && Receive(Nothing, s.events) == Received(AllCarried(items), Nothing))
  {
    hide WellFormed, MessageOf, Sendable, FeedAll, Receive, FrameOf, Carried, AllCarried, AllDelivered, Concat;
    var frames := Frames(items);
    FramesAreSendable(items, cap);
    var r;
    done, r := PrefixDelivery(cap, frames, pieces);
    FramesTake(items, done);
    FramesAreSendable(items[..done], cap);
    assert AllDelivered(frames[..done], cap) == AllCarried(items[..done]);
    if done < |items| {
      FrameAt(items, done);
      ItemReads(items[done], cap);
      assert MessageOf(frames[done], cap) == Carried(items[done]);
    }
    if Concat(pieces) == Concat(frames) {
      SplitInvariance.SplitInvariance(cap, frames, pieces);
    }
  }

  lemma FramesSnoc(items: seq<Item>, i: Item)
    ensures Frames(items + [i]) == Frames(items) + [FrameOf(i)]
    ensures Concat(Frames(items + [i])) == Concat(Frames(items)) + FrameOf(i)
  {
    hide FrameOf;
    var all := items + [i];
    FramesTake(all, |items|);
    FrameAt(all, |items|);
    assert all[..|items|] == items && Frames(all) == Frames(all)[..|items|] + [Frames(all)[|items|]];
    ConcatAppend(Frames(items), [FrameOf(i)]);
    assert [FrameOf(i)][1..] == [] && FrameOf(i) + "" == FrameOf(i);
  }
}
