/** The printers of pkproto.c, and that the parser reads back what they print. */
module Printers {
  import opened Text
  import opened Wire
  import opened Fields
  import opened ParserSpec
  import opened SplitInvariance
  import opened Acceptance

  /** What `pk_format_frame` prints for a format with one %s between `before` and `after`, when
      `bytes` bytes of data are to follow. */
  function FrameText(before: string, sid: string, after: string, bytes: nat): string {
    Hex(|before| + |sid| + |after| + bytes) + CRLF + before + sid + after
  }

  function ReplyHeader(sid: string, bytes: nat): string {
    FrameText("SID: ", sid, "\r\n\r\n", bytes)
  }

  /** `pk_format_reply` with its data behind it. */
  function Reply(sid: string, data: string): string {
    ReplyHeader(sid, |data|) + data
  }

  function EofText(read: bool, write: bool): string {
    "1" + (if read then "R" else "") + (if write then "W" else "")
  }

  function EofFrame(sid: string, read: bool, write: bool): string {
    FrameText("SID: ", sid, "\r\nEOF: " + EofText(read, write) + "\r\n\r\n", 0)
  }

  function SkbFrame(sid: string, kilobytes: int): string {
    FrameText("NOOP: 1\r\nSID: ", sid, "\r\nSKB: " + Dec(kilobytes) + "\r\n\r\n", 0)
  }

  const PONG_FRAME := FrameText("NOOP: 1", "", "\r\n\r\n", 0)
  const PING_FRAME := FrameText("NOOP: 1", "", "\r\nPING: 1\r\n\r\n", 0)

  // ---- printing into a caller's buffer ----------------------------------------------

  /** `pk_format_frame`: two calls of `sprintf`, whose NUL takes one more byte than is counted. */
  method FormatFrame(buf: array<char>, at: nat, before: string, sid: string, after: string, bytes: nat) returns (n: nat)
    requires at + |FrameText(before, sid, after, bytes)| < buf.Length
    modifies buf
    ensures n == |FrameText(before, sid, after, bytes)|
    ensures buf[..at] == old(buf[..at]) && buf[at..at + n] == FrameText(before, sid, after, bytes) && buf[at + n] == NUL
    ensures buf[at + n + 1..] == old(buf[at + n + 1..])
  {
    var hlen := |sid| + |before| + |after|;
    hide Hex;
    ghost var b0 := buf[..];
    var line, text := Hex(hlen + bytes) + CRLF, before + sid + after;
    assert FrameText(before, sid, after, bytes) == line + text;
    Sprintf(buf, at, line);
    ghost var b1 := buf[..];
    Sprintf(buf, at + |line|, text);
    n := |line| + |text|;
    Twice(b0, b1, buf[..], at, line, text);
  }

  /** One string was printed behind another, each with a NUL. */
  lemma Twice(b0: string, b1: string, b2: string, at: nat, line: string, text: string)
    requires |b0| == |b1| == |b2| && at + |line| + |text| < |b0|
    requires b1[..at] == b0[..at] && b1[at..at + |line|] == line && b1[at + |line| + 1..] == b0[at + |line| + 1..]
    requires var m := at + |line|;
             b2[..m] == b1[..m] && b2[m..m + |text|] == text && b2[m + |text| + 1..] == b1[m + |text| + 1..]
    ensures var n := at + |line| + |text|;
            b2[..at] == b0[..at] && b2[at..n] == line + text && b2[n + 1..] == b0[n + 1..]
  {
    var m := at + |line|;
    var n := m + |text|;
    TailOf(b1, b0, m + 1, n + 1, |b0|);
    HeadOf(b2, b1, m, 0, at);
    HeadOf(b2, b1, m, at, m);
    assert b2[at..n] == b2[at..m] + b2[m..n];
    assert b0[0..at] == b0[..at] && b1[0..at] == b1[..at] && b2[0..at] == b2[..at];
    assert b1[n + 1..] == b1[n + 1..|b0|] && b0[n + 1..] == b0[n + 1..|b0|];
  }

  /** `pk_reply_overhead`: how long the header will be. */
  method ReplyOverhead(sid: string, bytes: nat) returns (n: nat)
    ensures n == |ReplyHeader(sid, bytes)|
  {
    var chunkHdr := 5 + |sid| + 4;
    var hexLen, b: nat := 0, bytes + chunkHdr;
    while true
      invariant hexLen + |Hex(b)| == |Hex(bytes + chunkHdr)|
      decreases b
    {
      hexLen := hexLen + 1;
      b := b / 16;
      if b == 0 {
        break;
      }
    }
    n := hexLen + 2 + chunkHdr;
  }

  // ---- reading back -----------------------------------------------------------------

  /** Header lines as they stand in a chunk, with the empty line that closes them. */
  function Render(lines: seq<string>): (s: string)
    ensures 2 <= |s|
  {
    if lines == [] then CRLF else lines[0] + CRLF + Render(lines[1..])
  }

  ghost predicate Lines(lines: seq<string>) {
    forall i :: 0 <= i < |lines| ==> lines[i] != "" && NoCrlf(lines[i])
  }

  lemma CrlfAfterLine(line: string, rest: string)
    requires NoCrlf(line)
    ensures CrlfEnd(line + CRLF + rest) == |line| + 2
  {
    var s := line + CRLF + rest;
    var t := s[..|line| + 1];
    forall i | 0 <= i < |t| - 1
      ensures !(t[i] == '\r' && t[i + 1] == '\n')
    {
      assert t[i] == line[i] && (i + 1 < |line| ==> t[i + 1] == line[i + 1]);
    }
    CrlfEndUnique(s, |line|);
  }

  /** The header scan finds exactly the lines that were printed, whatever data follows. */
  lemma {:induction false} RenderScans(lines: seq<string>, data: string)
    requires Lines(lines)
    ensures HeaderEnd(Render(lines) + data) == |Render(lines)|
    ensures HeaderLines(Render(lines) + data) == lines
    decreases |lines|
  {
    hide CrlfEnd, HeaderEnd, HeaderLines, NoCrlf;
    var s := Render(lines) + data;
    if lines == [] {
      assert s == "" + CRLF + data;
      assert NoCrlf("") by {
        NoCrlfEmpty();
      }
      CrlfAfterLine("", data);
      HeaderEndUnfold(s);
      HeaderLinesEnd(s);
    } else {
      var rest := Render(lines[1..]) + data;
      assert s == lines[0] + CRLF + rest;
      CrlfAfterLine(lines[0], rest);
      assert s[|lines[0]| + 2..] == rest && s[..|lines[0]|] == lines[0];
      RenderScans(lines[1..], data);
      HeaderEndUnfold(s);
      HeaderLinesUnfold(s);
    }
  }

  lemma NoCrlfEmpty()
    ensures NoCrlf("")
  {
  }

  lemma NoCrNoCrlf(s: string)
    requires '\r' !in s
    ensures NoCrlf(s)
  {
  }

  /** A printed length line, header lines and data make a well-formed frame with that message. */
  lemma FrameReads(lines: seq<string>, data: string, frame: string, cap: nat)
    requires Lines(lines)
    requires frame == Hex(|Render(lines) + data|) + CRLF + (Render(lines) + data) && |frame| <= INT_MAX
    requires |frame| <= cap || |frame| - |data| < cap
    ensures WellFormed(frame, cap) && DataStart(frame, cap) == |frame| - |data|
    ensures MessageOf(frame, cap) == Message(ApplyAll(NO_HEADERS, lines), data)
  {
    hide CrlfEnd, HeaderEnd, HeaderLines, ApplyAll, ScanHex, Hex, Render, UpToNul;
    var body := Render(lines) + data;
    var hex := Hex(|body|);
    ScanHexOfHex(|body|);
    NoCrNoCrlf(hex);
    CrlfAfterLine(hex, body);
    UpToNulNone(hex);
    assert frame[..|hex|] == hex && frame[|hex| + 2..] == body;
    assert FrameHeadOf(frame) == Head(|hex| + 2, |body|);
    RenderScans(lines, data);
    assert frame[|frame| - |data|..] == data;
  }

  /** A frame that fits the buffer, fed to an idle parser, is one callback. */
  lemma OneEvent(frame: string, cap: nat)
    requires WellFormed(frame, cap) && |frame| <= cap
    ensures var m := MessageOf(frame, cap);
            Feed(cap, Hold(""), frame) == Step(Hold(""), [Event(m.headers, m.data, |m.data|, |m.data|)], Fine)
  {
    hide FrameHeadOf, HeaderEnd, HeaderLines, ApplyAll, CrlfEnd, NewData, Whole, Feed;
    var f := FrameHeadOf(frame);
    assert "" + frame == frame && frame[..|frame|] == frame && frame[|frame|..] == "";
    HeldIs(cap, Hold(""), frame);
    var body := frame[f.hdr..];
    assert frame[f.hdr..f.hdr + f.length] == body;
    assert body[HeaderEnd(body)..] == frame[DataStart(frame, cap)..];
    WholeIs(cap, frame, f.hdr, f.length, body, "");
    NothingNew(cap, Hold(""));
    FeedIs(cap, Hold(""), frame);
    FeedEmpty(cap);
  }

  lemma FeedEmpty(cap: nat)
    ensures Feed(cap, Hold(""), "") == Step(Hold(""), [], Fine)
  {
  }

  // ---- the five printers ------------------------------------------------------------

  /** `pk_format_reply` and the parser: a reply comes back with its stream id and its data,
      whatever the data, exactly when the stream id holds no CRLF. */
  lemma ReplyRoundTrip(sid: string, data: string, cap: nat)
    requires NUL !in sid && |Reply(sid, data)| <= INT_MAX
    requires |Reply(sid, data)| <= cap || |ReplyHeader(sid, |data|)| < cap
    ensures (WellFormed(Reply(sid, data), cap)
             && MessageOf(Reply(sid, data), cap) == Message(Headers(map[Sid := sid], map[], []), data))
            <==> NoCrlf(sid)
  {
    hide WellFormed, MessageOf, Reply, ReplyHeader, NoCrlf;
    if NoCrlf(sid) {
      ReplyReads(sid, data, cap);
    } else if WellFormed(Reply(sid, data), cap) {
      SidIsOneLine(Reply(sid, data), cap);
      assert map[Sid := sid][Sid] == sid;
    }
  }

  /** A reply that fits the buffer is one callback with its stream id and data, under the same
      condition. */
  lemma ReplyOneCallback(sid: string, data: string, cap: nat)
    requires NUL !in sid && |Reply(sid, data)| <= cap <= INT_MAX
    ensures Feed(cap, Hold(""), Reply(sid, data)) ==
            Step(Hold(""), [Event(Headers(map[Sid := sid], map[], []), data, |data|, |data|)], Fine)
            <==> NoCrlf(sid)
  {
    hide WellFormed, MessageOf, Reply, ReplyHeader, NoCrlf, Feed;
    var frame := Reply(sid, data);
    var e := Event(Headers(map[Sid := sid], map[], []), data, |data|, |data|);
    assert e.headers.strs[Sid] == sid;
    if NoCrlf(sid) {
      ReplyReads(sid, data, cap);
      OneEvent(frame, cap);
    } else if Feed(cap, Hold(""), frame) == Step(Hold(""), [e], Fine) {
      FeedAllOne(cap, frame);
      var frames := OnlyFrames(cap, [frame]);
      ReceiveOne(e);
      OneFrame(frames, frame, cap);
      SidIsOneLine(frame, cap);
    }
  }

  lemma FeedAllOne(cap: nat, frame: string)
    ensures FeedAll(cap, Hold(""), [frame]) == Feed(cap, Hold(""), frame)
  {
    hide Feed;
    var s := Feed(cap, Hold(""), frame);
    assert [frame][1..] == [] && s.events + [] == s.events;
  }

  lemma ReceiveOne(e: Event)
    requires e.offset == e.total
    ensures Receive(Nothing, [e]) == Received([Message(e.headers, e.data)], Nothing)
  {
    assert [e][1..] == [] && "" + e.data == e.data;
  }

  lemma OneFrame(frames: seq<string>, frame: string, cap: nat)
    requires AllWellFormed(frames, cap) && |AllDelivered(frames, cap)| == 1 && Concat(frames) == Concat([frame])
    ensures WellFormed(frame, cap) && AllDelivered(frames, cap) == [MessageOf(frame, cap)]
  {
    hide WellFormed, MessageOf;
    assert frames == [frames[0]] && frames[1..] == [] && [frame][1..] == [];
    assert frames[0] + "" == frames[0] && frame + "" == frame;
    assert WellFormed(frames[0], cap);
  }

  lemma ReplyReads(sid: string, data: string, cap: nat)
    requires NUL !in sid && NoCrlf(sid) && |Reply(sid, data)| <= INT_MAX
    requires |Reply(sid, data)| <= cap || |ReplyHeader(sid, |data|)| < cap
    ensures WellFormed(Reply(sid, data), cap)
    ensures DataStart(Reply(sid, data), cap) == |ReplyHeader(sid, |data|)|
    ensures MessageOf(Reply(sid, data), cap) == Message(Headers(map[Sid := sid], map[], []), data)
  {
    hide WellFormed, MessageOf, Apply, ApplyAll, Hex, DataStart, NoCrlf, Render;
    var line := "SID: " + sid;
    var lines := [line];
    LiteralFront("SID: ", sid);
    RenderOne(line);
    assert Reply(sid, data) == Hex(|Render(lines) + data|) + CRLF + (Render(lines) + data);
    FrameReads(lines, data, Reply(sid, data), cap);
    SidLine(NO_HEADERS, "SID: ", sid);
    ApplyAllCons(NO_HEADERS, line, []);
    ApplyAllCons(Apply(NO_HEADERS, line), "", []);
    assert [line] + [] == lines;
  }

  /** Putting a field name in front of a value adds no CRLF. */
  lemma LiteralFront(name: string, value: string)
    requires '\r' !in name && NoCrlf(value)
    ensures NoCrlf(name + value)
  {
    var s := name + value;
    forall i | 0 <= i < |s| - 1
      ensures !(s[i] == '\r' && s[i + 1] == '\n')
    {
      assert i < |name| ==> s[i] == name[i];
      assert i >= |name| ==> s[i] == value[i - |name|] && s[i + 1] == value[i - |name| + 1];
    }
  }

  // A parsed string never spans two lines.

  ghost predicate OneLine(h: Headers) {
    forall f :: f in h.strs ==> NoCrlf(h.strs[f])
  }

  lemma {:induction false} UpToNulPrefix(s: string)
    ensures UpToNul(s) <= s
  {
    if s != "" && s[0] != NUL {
      UpToNulPrefix(s[1..]);
    }
  }

  lemma NoCrlfPart(s: string, i: nat, j: nat)
    requires NoCrlf(s) && i <= j <= |s|
    ensures NoCrlf(s[i..j])
  {
    var t := s[i..j];
    forall m | 0 <= m < |t| - 1
      ensures !(t[m] == '\r' && t[m + 1] == '\n')
    {
      assert t[m] == s[i + m] && t[m + 1] == s[i + m + 1];
    }
  }

  lemma ApplyOneLine(h: Headers, line: string)
    requires OneLine(h) && NoCrlf(line)
    ensures OneLine(Apply(h, line))
  {
    hide Classify, ScanField, UpToNul;
    var k := Classify(line);
    if k.Str? {
      var t := line[k.skip..];
      UpToNulPrefix(t);
      var u := UpToNul(t);
      NoCrlfPart(line, k.skip, k.skip + |u|);
      assert u == line[k.skip..k.skip + |u|];
    }
  }

  lemma {:induction false} LinesOneLine(s: string, h: Headers)
    requires HeaderEnd(s) != 0 && OneLine(h)
    ensures OneLine(ApplyAll(h, HeaderLines(s)))
    decreases |s|
  {
    hide HeaderEnd, HeaderLines, CrlfEnd, Apply, OneLine;
    HeaderEndUnfold(s);
    var n := CrlfEnd(s);
    if n == 2 {
      HeaderLinesEnd(s);
    } else {
      HeaderLinesUnfold(s);
      CrlfEndFinds(s);
      NoCrlfPart(s[..n - 1], 0, n - 2);
      assert s[..n - 1][0..n - 2] == s[..n - 2];
      ApplyOneLine(h, s[..n - 2]);
      LinesOneLine(s[n..], Apply(h, s[..n - 2]));
      ApplyAllCons(h, s[..n - 2], HeaderLines(s[n..]));
    }
  }

  lemma SidIsOneLine(frame: string, cap: nat)
    requires WellFormed(frame, cap)
    ensures OneLine(MessageOf(frame, cap).headers)
  {
    LinesOneLine(frame[FrameHeadOf(frame).hdr..], NO_HEADERS);
  }

  // The printed lines are one line each.

  lemma EofIsOneLine(read: bool, write: bool)
    ensures NUL !in EofText(read, write) && NoCrlf("EOF: " + EofText(read, write))
  {
  }

  lemma OneIsOneLine()
    ensures NUL !in "1" && NoCrlf("NOOP: 1") && NoCrlf("PING: 1")
    ensures "NOOP: 1" == "NOOP: " + "1" && "PING: 1" == "PING: " + "1"
  {
  }

  lemma SkbIsOneLine(kilobytes: int)
    requires -TWO_63 <= kilobytes < TWO_63
    ensures NoCrlf("SKB: " + Dec(kilobytes))
  {
    hide Dec, ScanDec, NoCrlf;
    ScanDecOfDec(kilobytes);
    NoCrNoCrlf("SKB: " + Dec(kilobytes));
  }

  lemma RenderTwo(l1: string, l2: string)
    ensures Render([l1, l2]) == l1 + CRLF + l2 + CRLF + CRLF
  {
    assert [l1, l2][1..] == [l2] && [l2][1..] == [];
    assert Render([l2]) == l2 + CRLF + CRLF;
  }

  lemma ApplyTwo(h: Headers, l1: string, l2: string)
    ensures ApplyAll(h, [l1, l2]) == Apply(Apply(h, l1), l2)
  {
    hide Apply, ApplyAll;
    assert [l1, l2] == [l1] + [l2] && [l2] == [l2] + [];
    ApplyAllCons(h, l1, [l2]);
    ApplyAllCons(Apply(h, l1), l2, []);
    ApplyAllCons(Apply(Apply(h, l1), l2), "", []);
  }

  lemma ApplyThree(h: Headers, l1: string, l2: string, l3: string)
    ensures ApplyAll(h, [l1, l2, l3]) == Apply(Apply(Apply(h, l1), l2), l3)
  {
    hide Apply, ApplyAll;
    assert [l1, l2, l3] == [l1] + [l2, l3];
    ApplyAllCons(h, l1, [l2, l3]);
    ApplyTwo(Apply(h, l1), l2, l3);
  }

  lemma RenderOne(l1: string)
    ensures Render([l1]) == l1 + CRLF + CRLF
  {
    assert [l1][1..] == [];
  }

  lemma RenderThree(l1: string, l2: string, l3: string)
    ensures Render([l1, l2, l3]) == l1 + CRLF + l2 + CRLF + l3 + CRLF + CRLF
  {
    assert [l1, l2, l3][1..] == [l2, l3];
    RenderTwo(l2, l3);
  }

  /** What the printers of frames without data print: a well-formed frame with headers h. */
  ghost predicate Carries(frame: string, h: Headers, cap: nat) {
    WellFormed(frame, cap) && MessageOf(frame, cap) == Message(h, "")
  }

  lemma DatalessReads(lines: seq<string>, frame: string, h: Headers, cap: nat)
    requires Lines(lines) && frame == Hex(|Render(lines)|) + CRLF + Render(lines)
    requires ApplyAll(NO_HEADERS, lines) == h && |frame| <= cap && |frame| <= INT_MAX
    ensures Carries(frame, h, cap)
  {
    hide WellFormed, MessageOf, Apply, ApplyAll, Hex, Render, Lines;
    assert Render(lines) + "" == Render(lines);
    FrameReads(lines, "", frame, cap);
  }

  lemma DatalessCallback(frame: string, h: Headers, cap: nat)
    requires Carries(frame, h, cap) && |frame| <= cap
    ensures Feed(cap, Hold(""), frame) == Step(Hold(""), [Event(h, "", 0, 0)], Fine)
  {
    hide WellFormed, MessageOf, Feed;
    OneEvent(frame, cap);
  }

  function EofHeaders(sid: string, read: bool, write: bool): Headers {
    Headers(map[Sid := sid, Eof := EofText(read, write)], map[], [])
  }

  function SkbHeaders(sid: string, kilobytes: int): Headers {
    Headers(map[Noop := "1", Sid := sid], map[Skb := kilobytes], [])
  }

  const PONG_HEADERS := Headers(map[Noop := "1"], map[], [])
  const PING_HEADERS := Headers(map[Noop := "1", Ping := "1"], map[], [])

  lemma EofReads(sid: string, read: bool, write: bool, cap: nat)
    requires NUL !in sid && NoCrlf(sid)
    requires |EofFrame(sid, read, write)| <= cap && |EofFrame(sid, read, write)| <= INT_MAX
    ensures Carries(EofFrame(sid, read, write), EofHeaders(sid, read, write), cap)
  {
    hide Apply, ApplyAll, Hex, NoCrlf, Render, EofText, Carries;
    var l1, l2 := "SID: " + sid, "EOF: " + EofText(read, write);
    LiteralFront("SID: ", sid);
    EofIsOneLine(read, write);
    EofLine(Headers(map[Sid := sid], map[], []), "EOF: ", EofText(read, write));
    RenderTwo(l1, l2);
    assert Render([l1, l2]) == "SID: " + sid + ("\r\nEOF: " + EofText(read, write) + "\r\n\r\n");
    SidLine(NO_HEADERS, "SID: ", sid);
    ApplyTwo(NO_HEADERS, l1, l2);
    DatalessReads([l1, l2], EofFrame(sid, read, write), EofHeaders(sid, read, write), cap);
  }

  lemma SkbText(sid: string, number: string)
    ensures Render(["NOOP: 1", "SID: " + sid, "SKB: " + number])
            == "NOOP: 1\r\nSID: " + sid + ("\r\nSKB: " + number + "\r\n\r\n")
  {
    hide Render;
    RenderThree("NOOP: 1", "SID: " + sid, "SKB: " + number);
  }

  lemma SkbReads(sid: string, kilobytes: int, cap: nat)
    requires NUL !in sid && NoCrlf(sid) && |SkbFrame(sid, kilobytes)| <= cap && |SkbFrame(sid, kilobytes)| <= INT_MAX
    requires -TWO_63 <= kilobytes < TWO_63
    ensures Carries(SkbFrame(sid, kilobytes), SkbHeaders(sid, kilobytes), cap)
  {
    hide Apply, ApplyAll, Hex, Dec, NoCrlf, Render, Carries;
    var l1, l2, l3 := "NOOP: 1", "SID: " + sid, "SKB: " + Dec(kilobytes);
    OneIsOneLine();
    NoopLine(NO_HEADERS, "NOOP: ", "1");
    LiteralFront("SID: ", sid);
    SidLine(Headers(map[Noop := "1"], map[], []), "SID: ", sid);
    SkbIsOneLine(kilobytes);
    SkbLine(Headers(map[Noop := "1", Sid := sid], map[], []), "SKB: ", kilobytes);
    SkbText(sid, Dec(kilobytes));
    ApplyThree(NO_HEADERS, l1, l2, l3);
    DatalessReads([l1, l2, l3], SkbFrame(sid, kilobytes), SkbHeaders(sid, kilobytes), cap);
  }

  lemma PongReads(cap: nat)
    requires |PONG_FRAME| <= cap && |PONG_FRAME| <= INT_MAX
    ensures Carries(PONG_FRAME, PONG_HEADERS, cap)
  {
    hide Apply, ApplyAll, Hex, Render, NoCrlf, Carries;
    OneIsOneLine();
    NoopLine(NO_HEADERS, "NOOP: ", "1");
    RenderOne("NOOP: 1");
    assert Render(["NOOP: 1"]) == "NOOP: 1" + "" + "\r\n\r\n";
    ApplyAllCons(NO_HEADERS, "NOOP: 1", []);
    ApplyAllCons(Apply(NO_HEADERS, "NOOP: 1"), "", []);
    assert ["NOOP: 1"] + [] == ["NOOP: 1"];
    DatalessReads(["NOOP: 1"], PONG_FRAME, PONG_HEADERS, cap);
  }

  lemma PingReads(cap: nat)
    requires |PING_FRAME| <= cap && |PING_FRAME| <= INT_MAX
    ensures Carries(PING_FRAME, PING_HEADERS, cap)
  {
    hide Apply, ApplyAll, Hex, Render, NoCrlf, Carries;
    OneIsOneLine();
    NoopLine(NO_HEADERS, "NOOP: ", "1");
    PingLine(Headers(map[Noop := "1"], map[], []), "PING: ", "1");
    RenderTwo("NOOP: 1", "PING: 1");
    assert Render(["NOOP: 1", "PING: 1"]) == "NOOP: 1" + "" + "\r\nPING: 1\r\n\r\n";
    ApplyTwo(NO_HEADERS, "NOOP: 1", "PING: 1");
    DatalessReads(["NOOP: 1", "PING: 1"], PING_FRAME, PING_HEADERS, cap);
  }

  /** `pk_format_eof`: one callback with the stream id and the EOF text, and no data. */
  lemma EofRoundTrip(sid: string, read: bool, write: bool, cap: nat)
    requires NUL !in sid && NoCrlf(sid) && |EofFrame(sid, read, write)| <= cap <= INT_MAX
    ensures Feed(cap, Hold(""), EofFrame(sid, read, write)) ==
            Step(Hold(""), [Event(EofHeaders(sid, read, write), "", 0, 0)], Fine)
  {
    hide Carries, Feed, EofFrame;
    EofReads(sid, read, write, cap);
    DatalessCallback(EofFrame(sid, read, write), EofHeaders(sid, read, write), cap);
  }

  /** `pk_format_skb`: one NOOP callback with the stream id and the number that was printed. */
  lemma SkbRoundTrip(sid: string, kilobytes: int, cap: nat)
    requires NUL !in sid && NoCrlf(sid) && |SkbFrame(sid, kilobytes)| <= cap <= INT_MAX
    requires -TWO_63 <= kilobytes < TWO_63
    ensures Feed(cap, Hold(""), SkbFrame(sid, kilobytes)) ==
            Step(Hold(""), [Event(SkbHeaders(sid, kilobytes), "", 0, 0)], Fine)
  {
    hide Carries, Feed, SkbFrame;
    SkbReads(sid, kilobytes, cap);
    DatalessCallback(SkbFrame(sid, kilobytes), SkbHeaders(sid, kilobytes), cap);
  }

  /** `pk_format_pong`: one NOOP callback without a stream id. */
  lemma PongRoundTrip(cap: nat)
    requires |PONG_FRAME| <= cap <= INT_MAX
    ensures Feed(cap, Hold(""), PONG_FRAME) == Step(Hold(""), [Event(PONG_HEADERS, "", 0, 0)], Fine)
  {
    hide Carries, Feed;
    PongReads(cap);
    DatalessCallback(PONG_FRAME, PONG_HEADERS, cap);
  }

  /** `pk_format_ping`: the same, asking for traffic. */
  lemma PingRoundTrip(cap: nat)
    requires |PING_FRAME| <= cap <= INT_MAX
    ensures Feed(cap, Hold(""), PING_FRAME) == Step(Hold(""), [Event(PING_HEADERS, "", 0, 0)], Fine)
  {
    hide Carries, Feed;
    PingReads(cap);
    DatalessCallback(PING_FRAME, PING_HEADERS, cap);
  }
}
