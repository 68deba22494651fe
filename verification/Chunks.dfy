/** `pk_format_chunk`, the printer of chunks with any of the fields, and that the parser reads all of
    them back. */
module Chunks {
  import opened Text
  import opened Wire
  import opened Fields
  import opened ParserSpec
  import opened Printers

  /** The fields of struct pk_chunk that are printed; a number that is not given is negative. */
  datatype Outgoing = Outgoing(sid: string, eof: Option<string>, noop: Option<string>, ping: Option<string>,
                               host: Option<string>, port: int, proto: Option<string>, rip: Option<string>,
                               rport: int, rtls: Option<string>, skb: int, qdays: int, qconns: int, quota: int,
                               data: string)

  function StrField(name: string, v: Option<string>): seq<string> {
    if v.None? then [] else [name + ": " + v.value]
  }

  function NumField(name: string, v: int): seq<string> {
    if v < 0 then [] else [name + ": " + Dec(v)]
  }

  /** The header lines, in the order in which they are printed. */
  function FirstFields(c: Outgoing): seq<string> {
    StrField("EOF", c.eof) + StrField("NOOP", c.noop) + StrField("PING", c.ping) + StrField("Host", c.host)
    + NumField("Port", c.port) + StrField("Proto", c.proto)
  }

  function LastFields(c: Outgoing): seq<string> {
    StrField("RIP", c.rip) + NumField("RPort", c.rport) + StrField("RTLS", c.rtls) + NumField("SKB", c.skb)
    + NumField("QDays", c.qdays) + NumField("QConns", c.qconns) + NumField("Quota", c.quota)
  }

  function ChunkLines(c: Outgoing): seq<string> {
    ["SID: " + c.sid] + FirstFields(c) + LastFields(c)
  }

  function ChunkFrame(c: Outgoing): string {
    Hex(|Render(ChunkLines(c)) + c.data|) + CRLF + (Render(ChunkLines(c)) + c.data)
  }

  // ---- reading it back --------------------------------------------------------------

  ghost predicate Plain(v: string) {
    NUL !in v && NoCrlf(v)
  }

  ghost predicate PlainIfGiven(v: Option<string>) {
    v.Some? ==> Plain(v.value)
  }

  /** All strings are one line each, and all numbers are in the range of their C types. */
  ghost predicate Printable(c: Outgoing) {
    && Plain(c.sid) && PlainIfGiven(c.eof) && PlainIfGiven(c.noop) && PlainIfGiven(c.ping) && PlainIfGiven(c.host)
    && PlainIfGiven(c.proto) && PlainIfGiven(c.rip) && PlainIfGiven(c.rtls)
    && c.port <= INT_MAX && c.rport <= INT_MAX && c.qdays <= INT_MAX && c.qconns <= INT_MAX && c.quota <= INT_MAX
    && c.skb < TWO_63
  }

  function Given<K, V>(m: map<K, V>, k: K): Option<V> {
    if k in m then Some(m[k]) else None
  }

  /** Every field is what was printed, and there is nothing else. */
  ghost predicate Says(h: Headers, c: Outgoing) {
    && h.others == [] && Given(h.strs, Sid) == Some(c.sid)
    && Given(h.strs, Eof) == c.eof && Given(h.strs, Noop) == c.noop && Given(h.strs, Ping) == c.ping
    && Given(h.strs, Host) == c.host && Given(h.strs, Proto) == c.proto
    && Given(h.strs, Rip) == c.rip && Given(h.strs, Rtls) == c.rtls
    && SaysNumber(h, Port, c.port) && SaysNumber(h, RPort, c.rport) && SaysNumber(h, Skb, c.skb)
    && SaysNumber(h, QDays, c.qdays) && SaysNumber(h, QConns, c.qconns) && SaysNumber(h, Quota, c.quota)
    && SaysNumber(h, Spd, -1)
  }

  ghost predicate SaysNumber(h: Headers, f: Wire.NumField, v: int) {
    Given(h.nums, f) == if v < 0 then None else Some(v)
  }

  lemma {:induction false} ApplyAppend(h: Headers, a: seq<string>, b: seq<string>)
    ensures ApplyAll(h, a + b) == ApplyAll(ApplyAll(h, a), b)
    decreases |a|
  {
    hide Apply;
    if a == [] {
      assert a + b == b;
    } else {
      assert (a + b)[0] == a[0] && (a + b)[1..] == a[1..] + b;
      ApplyAppend(Apply(h, a[0]), a[1..], b);
    }
  }

  lemma ApplyOne(h: Headers, line: string)
    ensures ApplyAll(h, [line]) == Apply(h, line)
  {
    hide Apply;
    assert [line][1..] == [];
  }

  function WithStr(h: Headers, f: Wire.StrField, v: Option<string>): Headers {
    if v.None? then h else h.(strs := h.strs[f := v.value])
  }

  function WithNum(h: Headers, f: Wire.NumField, v: int): Headers {
    if v < 0 then h else h.(nums := h.nums[f := v])
  }

  /** A string field, printed, is that field. */
  lemma StrRead(h: Headers, f: Wire.StrField, name: string, v: Option<string>)
    requires PlainIfGiven(v)
    requires (f, name) in {(Eof, "EOF"), (Noop, "NOOP"), (Ping, "PING"), (Host, "Host"), (Proto, "Proto"),
                           (Rip, "RIP"), (Rtls, "RTLS")}
    ensures ApplyAll(h, StrField(name, v)) == WithStr(h, f, v)
  {
    hide Apply, Classify;
    if v.Some? {
      var n := name + ": ";
      ApplyOne(h, n + v.value);
      match f {
        case Eof => EofLine(h, n, v.value);
        case Noop => NoopLine(h, n, v.value);
        case Ping => PingLine(h, n, v.value);
        case Host => HostLine(h, n, v.value);
        case Proto => ProtoLine(h, n, v.value);
        case Rip => RipLine(h, n, v.value);
        case Rtls => RtlsLine(h, n, v.value);
        case Sid =>
      }
    }
  }

  lemma NumRead(h: Headers, f: Wire.NumField, name: string, v: int)
    requires v <= INT_MAX || (f == Skb && v < TWO_63)
    requires (f, name) in {(Port, "Port"), (RPort, "RPort"), (Skb, "SKB"), (QDays, "QDays"), (QConns, "QConns"),
                           (Quota, "Quota")}
    ensures ApplyAll(h, NumField(name, v)) == WithNum(h, f, v)
  {
    hide Apply, Classify, Dec;
    if v >= 0 {
      var n := name + ": ";
      ApplyOne(h, n + Dec(v));
      match f {
        case Port => PortLine(h, n, v);
        case RPort => RPortLine(h, n, v);
        case Skb => SkbLine(h, n, v);
        case QDays => QDaysLine(h, n, v);
        case QConns => QConnsLine(h, n, v);
        case Quota => QuotaLine(h, n, v);
        case Spd =>
      }
    }
  }

  function AfterFirst(h: Headers, c: Outgoing): Headers {
    var g := WithStr(WithStr(WithStr(WithStr(h, Eof, c.eof), Noop, c.noop), Ping, c.ping), Host, c.host);
    WithStr(WithNum(g, Port, c.port), Proto, c.proto)
  }

  function AfterLast(h: Headers, c: Outgoing): Headers {
    var g := WithNum(WithStr(WithNum(WithStr(h, Rip, c.rip), RPort, c.rport), Rtls, c.rtls), Skb, c.skb);
    WithNum(WithNum(WithNum(g, QDays, c.qdays), QConns, c.qconns), Quota, c.quota)
  }

  lemma FirstRead(h: Headers, c: Outgoing)
    requires Printable(c)
    ensures ApplyAll(h, FirstFields(c)) == AfterFirst(h, c)
  {
    hide ApplyAll, StrField, NumField, PlainIfGiven, Plain;
    var a, b, d := StrField("EOF", c.eof), StrField("NOOP", c.noop), StrField("PING", c.ping);
    var e, f, g := StrField("Host", c.host), NumField("Port", c.port), StrField("Proto", c.proto);
    ApplyAppend(h, a + b + d + e + f, g);
    ApplyAppend(h, a + b + d + e, f);
    ApplyAppend(h, a + b + d, e);
    ApplyAppend(h, a + b, d);
    ApplyAppend(h, a, b);
    StrRead(h, Eof, "EOF", c.eof);
    var h1 := WithStr(h, Eof, c.eof);
    StrRead(h1, Noop, "NOOP", c.noop);
    var h2 := WithStr(h1, Noop, c.noop);
    StrRead(h2, Ping, "PING", c.ping);
    var h3 := WithStr(h2, Ping, c.ping);
    StrRead(h3, Host, "Host", c.host);
    var h4 := WithStr(h3, Host, c.host);
    NumRead(h4, Port, "Port", c.port);
    StrRead(WithNum(h4, Port, c.port), Proto, "Proto", c.proto);
  }

  lemma LastRead(h: Headers, c: Outgoing)
    requires Printable(c)
    ensures ApplyAll(h, LastFields(c)) == AfterLast(h, c)
  {
    hide ApplyAll, StrField, NumField, PlainIfGiven, Plain;
    var a, b, d := StrField("RIP", c.rip), NumField("RPort", c.rport), StrField("RTLS", c.rtls);
    var e, f, g := NumField("SKB", c.skb), NumField("QDays", c.qdays), NumField("QConns", c.qconns);
    ApplyAppend(h, a + b + d + e + f + g, NumField("Quota", c.quota));
    ApplyAppend(h, a + b + d + e + f, g);
    ApplyAppend(h, a + b + d + e, f);
    ApplyAppend(h, a + b + d, e);
    ApplyAppend(h, a + b, d);
    ApplyAppend(h, a, b);
    StrRead(h, Rip, "RIP", c.rip);
    var h1 := WithStr(h, Rip, c.rip);
    NumRead(h1, RPort, "RPort", c.rport);
    var h2 := WithNum(h1, RPort, c.rport);
    StrRead(h2, Rtls, "RTLS", c.rtls);
    var h3 := WithStr(h2, Rtls, c.rtls);
    NumRead(h3, Skb, "SKB", c.skb);
    var h4 := WithNum(h3, Skb, c.skb);
    NumRead(h4, QDays, "QDays", c.qdays);
    var h5 := WithNum(h4, QDays, c.qdays);
    NumRead(h5, QConns, "QConns", c.qconns);
    NumRead(WithNum(h5, QConns, c.qconns), Quota, "Quota", c.quota);
  }

  /** What a field adds. */
  lemma StrGives(h: Headers, f: Wire.StrField, v: Option<string>)
    ensures var k := WithStr(h, f, v);
            && k.others == h.others && k.nums == h.nums
            && Given(k.strs, f) == (if v.Some? then v else Given(h.strs, f))
            && forall g :: g != f ==> Given(k.strs, g) == Given(h.strs, g)
  {
  }

  lemma NumGives(h: Headers, f: Wire.NumField, v: int)
    ensures var k := WithNum(h, f, v);
            && k.others == h.others && k.strs == h.strs
            && Given(k.nums, f) == (if v < 0 then Given(h.nums, f) else Some(v))
            && forall g :: g != f ==> Given(k.nums, g) == Given(h.nums, g)
  {
  }

  lemma NothingElse(sid: string)
    ensures var h := NO_HEADERS.(strs := map[Sid := sid]);
            && Given(h.strs, Sid) == Some(sid) && (forall f :: f != Sid ==> Given(h.strs, f) == None)
            && forall f :: Given(h.nums, f) == None
  {
  }

  function Or<V>(v: Option<V>, w: Option<V>): Option<V> {
    if v.Some? then v else w
  }

  function OrNumber(v: int, w: Option<int>): Option<int> {
    if v < 0 then w else Some(v)
  }

  lemma FirstSaid(h: Headers, c: Outgoing)
    ensures var k := AfterFirst(h, c);
            && k.others == h.others
            && Given(k.strs, Eof) == Or(c.eof, Given(h.strs, Eof))
            && Given(k.strs, Noop) == Or(c.noop, Given(h.strs, Noop))
            && Given(k.strs, Ping) == Or(c.ping, Given(h.strs, Ping))
            && Given(k.strs, Host) == Or(c.host, Given(h.strs, Host))
            && Given(k.strs, Proto) == Or(c.proto, Given(h.strs, Proto))
            && Given(k.nums, Port) == OrNumber(c.port, Given(h.nums, Port))
            && (forall f :: f in {Sid, Rip, Rtls} ==> Given(k.strs, f) == Given(h.strs, f))
            && forall f :: f != Port ==> Given(k.nums, f) == Given(h.nums, f)
  {
    hide WithStr, WithNum, Given;
    StrGives(h, Eof, c.eof);
    var h1 := WithStr(h, Eof, c.eof);
    StrGives(h1, Noop, c.noop);
    var h2 := WithStr(h1, Noop, c.noop);
    StrGives(h2, Ping, c.ping);
    var h3 := WithStr(h2, Ping, c.ping);
    StrGives(h3, Host, c.host);
    var h4 := WithStr(h3, Host, c.host);
    NumGives(h4, Port, c.port);
    StrGives(WithNum(h4, Port, c.port), Proto, c.proto);
  }

  lemma LastSaid(h: Headers, c: Outgoing)
    ensures var k := AfterLast(h, c);
            && k.others == h.others
            && Given(k.strs, Rip) == Or(c.rip, Given(h.strs, Rip))
            && Given(k.strs, Rtls) == Or(c.rtls, Given(h.strs, Rtls))
            && Given(k.nums, RPort) == OrNumber(c.rport, Given(h.nums, RPort))
            && Given(k.nums, Skb) == OrNumber(c.skb, Given(h.nums, Skb))
            && Given(k.nums, QDays) == OrNumber(c.qdays, Given(h.nums, QDays))
            && Given(k.nums, QConns) == OrNumber(c.qconns, Given(h.nums, QConns))
            && Given(k.nums, Quota) == OrNumber(c.quota, Given(h.nums, Quota))
            && (forall f :: f in {Sid, Eof, Noop, Ping, Host, Proto} ==> Given(k.strs, f) == Given(h.strs, f))
            && forall f :: f in {Port, Spd} ==> Given(k.nums, f) == Given(h.nums, f)
  {
    hide WithStr, WithNum, Given;
    StrGives(h, Rip, c.rip);
    var h1 := WithStr(h, Rip, c.rip);
    NumGives(h1, RPort, c.rport);
    var h2 := WithNum(h1, RPort, c.rport);
    StrGives(h2, Rtls, c.rtls);
    var h3 := WithStr(h2, Rtls, c.rtls);
    NumGives(h3, Skb, c.skb);
    var h4 := WithNum(h3, Skb, c.skb);
    NumGives(h4, QDays, c.qdays);
    var h5 := WithNum(h4, QDays, c.qdays);
    NumGives(h5, QConns, c.qconns);
    NumGives(WithNum(h5, QConns, c.qconns), Quota, c.quota);
  }

  lemma AllSaid(h: Headers, c: Outgoing)
    requires h == NO_HEADERS.(strs := map[Sid := c.sid])
    ensures Says(AfterLast(AfterFirst(h, c), c), c)
  {
    NothingElse(c.sid);
    FirstSaid(h, c);
    LastSaid(AfterFirst(h, c), c);
    hide AfterFirst, AfterLast, Given;
  }

  lemma AllRead(c: Outgoing)
    requires Printable(c)
    ensures Says(ApplyAll(NO_HEADERS, ChunkLines(c)), c)
  {
    hide Apply, ApplyAll, FirstFields, LastFields, Printable, Says, AfterFirst, AfterLast;
    var sid := ["SID: " + c.sid];
    ApplyAppend(NO_HEADERS, sid + FirstFields(c), LastFields(c));
    ApplyAppend(NO_HEADERS, sid, FirstFields(c));
    ApplyOne(NO_HEADERS, sid[0]);
    SidIsPlain(c);
    SidLine(NO_HEADERS, "SID: ", c.sid);
    var h := NO_HEADERS.(strs := map[Sid := c.sid]);
    assert NO_HEADERS.strs[Sid := c.sid] == map[Sid := c.sid];
    FirstRead(h, c);
    LastRead(AfterFirst(h, c), c);
    AllSaid(h, c);
  }

  lemma SidIsPlain(c: Outgoing)
    requires Printable(c)
    ensures NUL !in c.sid
  {
  }

  lemma FieldIsLine(name: string, v: string)
    requires NoCrlf(v) && '\r' !in name
    ensures NoCrlf(name + ": " + v) && name + ": " + v != ""
  {
    LiteralFront(name + ": ", v);
  }

  lemma StrIsLine(name: string, v: Option<string>)
    requires PlainIfGiven(v) && '\r' !in name
    ensures Lines(StrField(name, v))
  {
    if v.Some? {
      FieldIsLine(name, v.value);
    }
  }

  lemma NumIsLine(name: string, v: int)
    requires v < TWO_63 && '\r' !in name
    ensures Lines(NumField(name, v))
  {
    hide Dec, NoCrlf, ScanDec;
    if v >= 0 {
      ScanDecOfDec(v);
      NoCrNoCrlf(Dec(v));
      FieldIsLine(name, Dec(v));
    }
  }

  lemma LinesAppend(a: seq<string>, b: seq<string>)
    requires Lines(a) && Lines(b)
    ensures Lines(a + b)
  {
  }

  lemma AllAreLines(c: Outgoing)
    requires Printable(c)
    ensures Lines(ChunkLines(c))
  {
    FieldIsLine("SID", c.sid);
    assert "SID" + ": " + c.sid == "SID: " + c.sid;
    var sid := ["SID: " + c.sid];
    assert Lines(sid);
    hide Lines, StrField, NumField, PlainIfGiven, Plain;
    StrIsLine("EOF", c.eof);
    StrIsLine("NOOP", c.noop);
    StrIsLine("PING", c.ping);
    StrIsLine("Host", c.host);
    NumIsLine("Port", c.port);
    StrIsLine("Proto", c.proto);
    var a, b, d := StrField("EOF", c.eof), StrField("NOOP", c.noop), StrField("PING", c.ping);
    var e, f, g := StrField("Host", c.host), NumField("Port", c.port), StrField("Proto", c.proto);
    LinesAppend(a, b);
    LinesAppend(a + b, d);
    LinesAppend(a + b + d, e);
    LinesAppend(a + b + d + e, f);
    LinesAppend(a + b + d + e + f, g);
    LinesAppend(sid, FirstFields(c));
    LastAreLines(c);
    LinesAppend(sid + FirstFields(c), LastFields(c));
  }

  lemma LastAreLines(c: Outgoing)
    requires Printable(c)
    ensures Lines(LastFields(c))
  {
    hide Lines, StrField, NumField, PlainIfGiven, Plain;
    StrIsLine("RIP", c.rip);
    NumIsLine("RPort", c.rport);
    StrIsLine("RTLS", c.rtls);
    NumIsLine("SKB", c.skb);
    NumIsLine("QDays", c.qdays);
    NumIsLine("QConns", c.qconns);
    NumIsLine("Quota", c.quota);
    var a, b, d := StrField("RIP", c.rip), NumField("RPort", c.rport), StrField("RTLS", c.rtls);
    var e, f, g := NumField("SKB", c.skb), NumField("QDays", c.qdays), NumField("QConns", c.qconns);
    LinesAppend(a, b);
    LinesAppend(a + b, d);
    LinesAppend(a + b + d, e);
    LinesAppend(a + b + d + e, f);
    LinesAppend(a + b + d + e + f, g);
    LinesAppend(a + b + d + e + f + g, NumField("Quota", c.quota));
  }

  /** A chunk that is printed and fits the buffer is one callback, in which every field is what it
      was. */
  lemma ChunkRoundTrip(c: Outgoing, cap: nat) returns (h: Headers)
    requires Printable(c) && |ChunkFrame(c)| <= cap <= INT_MAX
    ensures Feed(cap, Hold(""), ChunkFrame(c)) == Step(Hold(""), [Event(h, c.data, |c.data|, |c.data|)], Fine)
    ensures Says(h, c)
  {
    hide WellFormed, MessageOf, Feed, ApplyAll, ChunkLines, Render, Hex, Says, Lines, DataStart;
    AllRead(c);
    AllAreLines(c);
    h := ApplyAll(NO_HEADERS, ChunkLines(c));
    FrameReads(ChunkLines(c), c.data, ChunkFrame(c), cap);
    OneEvent(ChunkFrame(c), cap);
  }

  // ---- printing it ------------------------------------------------------------------

  /** Lines with their CRLFs, without the empty line. */
  function Open(lines: seq<string>): string {
    if lines == [] then "" else lines[0] + CRLF + Open(lines[1..])
  }

  lemma {:induction false} OpenAppend(a: seq<string>, b: seq<string>)
    ensures Open(a + b) == Open(a) + Open(b)
  {
    if a == [] {
      assert a + b == b && "" + Open(b) == Open(b);
    } else {
      assert (a + b)[0] == a[0] && (a + b)[1..] == a[1..] + b;
      OpenAppend(a[1..], b);
      assert a[0] + CRLF + (Open(a[1..]) + Open(b)) == a[0] + CRLF + Open(a[1..]) + Open(b);
    }
  }

  lemma {:induction false} RenderIsOpen(lines: seq<string>)
    ensures Render(lines) == Open(lines) + CRLF
  {
    if lines == [] {
      assert "" + CRLF == CRLF;
    } else {
      RenderIsOpen(lines[1..]);
      assert lines[0] + CRLF + (Open(lines[1..]) + CRLF) == lines[0] + CRLF + Open(lines[1..]) + CRLF;
    }
  }

  lemma {:induction false} DigitCount(n: nat, k: nat, most: nat)
    requires n < most * Ten(k) && 0 < most <= 10
    ensures |DecDigits(n)| <= k + 1
    decreases k
  {
    if n >= 10 && k > 0 {
      assert n / 10 < most * Ten(k - 1);
      DigitCount(n / 10, k - 1, most);
    }
  }

  function Ten(k: nat): nat {
    if k == 0 then 1 else 10 * Ten(k - 1)
  }

  /** What the scratch space holds, or None once something did not fit: then ten bytes more than the
      lines need were not there. Numbers of up to ten digits stay inside. */
  ghost predicate SoFar(s: Option<string>, lines: seq<string>, room: int, narrow: bool) {
    match s
    case None => lines != [] && room < |Open(lines)| + 10
    case Some(t) => t == Open(lines) && (narrow ==> t == "" || |t| < room)
  }

  /** `_add_str`, `_add_int` and `_add_sst`: a line, if the field is given and there is room for its
      name, `most` bytes of value, and five more. */
  method Add(s: Option<string>, line: seq<string>, name: string, most: nat, room: int,
             ghost lines: seq<string>, ghost narrow: bool)
    returns (t: Option<string>)
    requires SoFar(s, lines, room, narrow) && |line| <= 1
    requires line != [] ==> |name| + most + 2 <= |line[0]| + 9 && (narrow ==> |line[0]| <= |name| + 2 + most)
    ensures SoFar(t, lines + line, room, narrow)
  {
    OpenAppend(lines, line);
    if s.None? || line == [] {
      return s;
    }
    assert line[1..] == [] && line[0] + CRLF + "" == line[0] + CRLF;
    if |s.value| + |name| + most + 5 > room {
      return None;
    }
    return Some(s.value + (line[0] + CRLF));
  }

  method AddStr(s: Option<string>, name: string, v: Option<string>, room: int,
                ghost lines: seq<string>, ghost narrow: bool)
    returns (t: Option<string>)
    requires SoFar(s, lines, room, narrow)
    ensures SoFar(t, lines + StrField(name, v), room, narrow)
  {
    t := Add(s, StrField(name, v), name, if v.Some? then |v.value| else 0, room, lines, narrow);
  }

  method AddNum(s: Option<string>, name: string, v: int, room: int, ghost lines: seq<string>, ghost narrow: bool)
    returns (t: Option<string>)
    requires SoFar(s, lines, room, narrow) && (narrow ==> v < 10000000000)
    ensures SoFar(t, lines + NumField(name, v), room, narrow)
  {
    if 0 <= v < 10000000000 {
      TenDigits(v);
    }
    hide Dec;
    t := Add(s, NumField(name, v), name, 10, room, lines, narrow);
  }

  lemma TenDigits(v: nat)
    requires v < 10000000000
    ensures |Dec(v)| <= 10
  {
    assert Ten(9) == 1000000000;
    DigitCount(v, 9, 10);
  }

  method AddFirst(c: Outgoing, room: int, ghost narrow: bool) returns (t: Option<string>)
    requires narrow ==> c.port < 10000000000
    ensures SoFar(t, FirstFields(c), room, narrow)
  {
    hide SoFar, StrField, NumField;
    NothingSoFar(room, narrow);
    ghost var ls := [];
    t := Some("");
    t := AddStr(t, "EOF", c.eof, room, ls, narrow);
    ls := ls + StrField("EOF", c.eof);
    t := AddStr(t, "NOOP", c.noop, room, ls, narrow);
    ls := ls + StrField("NOOP", c.noop);
    t := AddStr(t, "PING", c.ping, room, ls, narrow);
    ls := ls + StrField("PING", c.ping);
    t := AddStr(t, "Host", c.host, room, ls, narrow);
    ls := ls + StrField("Host", c.host);
    t := AddNum(t, "Port", c.port, room, ls, narrow);
    ls := ls + NumField("Port", c.port);
    t := AddStr(t, "Proto", c.proto, room, ls, narrow);
    assert [] + StrField("EOF", c.eof) == StrField("EOF", c.eof);
  }

  lemma NothingSoFar(room: int, narrow: bool)
    ensures SoFar(Some(""), [], room, narrow)
  {
  }

  method AddLast(s: Option<string>, c: Outgoing, room: int, ghost narrow: bool) returns (t: Option<string>)
    requires SoFar(s, FirstFields(c), room, narrow)
    requires narrow ==> c.rport < 10000000000 && c.skb < 10000000000 && c.qdays < 10000000000
    requires narrow ==> c.qconns < 10000000000 && c.quota < 10000000000
    ensures SoFar(t, FirstFields(c) + LastFields(c), room, narrow)
  {
    hide SoFar, StrField, NumField, FirstFields;
    ghost var start := FirstFields(c);
    ghost var ls := [];
    t := s;
    assert start + [] == start;
    t := AddStr(t, "RIP", c.rip, room, start, narrow);
    ls := StrField("RIP", c.rip);
    t := AddNum(t, "RPort", c.rport, room, start + ls, narrow);
    Regroup(start, ls, NumField("RPort", c.rport));
    ls := ls + NumField("RPort", c.rport);
    t := AddStr(t, "RTLS", c.rtls, room, start + ls, narrow);
    Regroup(start, ls, StrField("RTLS", c.rtls));
    ls := ls + StrField("RTLS", c.rtls);
    t := AddNum(t, "SKB", c.skb, room, start + ls, narrow);
    Regroup(start, ls, NumField("SKB", c.skb));
    ls := ls + NumField("SKB", c.skb);
    t := AddNum(t, "QDays", c.qdays, room, start + ls, narrow);
    Regroup(start, ls, NumField("QDays", c.qdays));
    ls := ls + NumField("QDays", c.qdays);
    t := AddNum(t, "QConns", c.qconns, room, start + ls, narrow);
    Regroup(start, ls, NumField("QConns", c.qconns));
    ls := ls + NumField("QConns", c.qconns);
    t := AddNum(t, "Quota", c.quota, room, start + ls, narrow);
    Regroup(start, ls, NumField("Quota", c.quota));
  }

  lemma Regroup(a: seq<string>, b: seq<string>, c: seq<string>)
    ensures a + b + c == a + (b + c)
  {
  }

  /** The numbers have ten digits at most, as the checks suppose. */
  predicate Narrow(c: Outgoing) {
    && c.port < 10000000000 && c.rport < 10000000000 && c.skb < 10000000000 && c.qdays < 10000000000
    && c.qconns < 10000000000 && c.quota < 10000000000
  }

  /** `pk_format_chunk`: prints the chunk, unless there is no memory or it does not fit; it does fit
      when there are ten bytes to spare, or no fields, and what is printed stays inside maxbytes when numbers have
      ten digits at most. A scratch size below zero wraps to one that is never there. `scratch` is
      how much of the scratch space, of maxbytes less the header, is written. */
  method FormatChunk(c: Outgoing, maxbytes: nat, memory: bool) returns (r: Option<string>, scratch: nat)
    ensures r.Some? ==> r.value == ChunkFrame(c) && (Narrow(c) ==> |r.value| <= maxbytes)
    ensures r.None? && memory ==>
              var lines := FirstFields(c) + LastFields(c);
              maxbytes < |ReplyHeader(c.sid, maxbytes)| + |Open(lines)| + |c.data| + if lines == [] then 0 else 10
    ensures r.Some? ==> scratch == |Open(FirstFields(c) + LastFields(c))| + if c.data == "" then 3 else 2 + |c.data|
  {
    hide ReplyHeader, SoFar, FirstFields, LastFields, Open, ChunkFrame;
    var hlen := ReplyOverhead(c.sid, maxbytes);
    if maxbytes < hlen || !memory {
      return None, 0;
    }
    var room := maxbytes - hlen;
    var t := AddFirst(c, room, Narrow(c));
    t := AddLast(t, c, room, Narrow(c));
    SoFarSays(t, FirstFields(c) + LastFields(c), room, Narrow(c));
    if t.None? {
      return None, 0;
    }
    var u := t.value + CRLF;
    scratch := |u| + 1;
    if c.data != "" {
      if hlen + |c.data| + |u| - 2 > maxbytes {
        return None, 0;
      }
      scratch := |u| + |c.data|;
    }
    IsChunkFrame(c, t.value);
    if Narrow(c) {
      StaysInside(c, t.value, maxbytes);
    }
    return Some(FrameText("SID: ", c.sid, "\r\n", |u + c.data|) + (u + c.data)), scratch;
  }

  lemma SoFarSays(s: Option<string>, lines: seq<string>, room: int, narrow: bool)
    requires SoFar(s, lines, room, narrow)
    ensures s.None? ==> lines != [] && room < |Open(lines)| + 10
    ensures s.Some? ==> s.value == Open(lines) && (narrow ==> s.value == "" || |s.value| < room)
  {
  }

  lemma IsChunkFrame(c: Outgoing, t: string)
    requires t == Open(FirstFields(c) + LastFields(c))
    ensures var u := t + CRLF + c.data;
            FrameText("SID: ", c.sid, "\r\n", |u|) + u == ChunkFrame(c)
  {
    hide Hex, Render, FirstFields, LastFields;
    var sid, rest := "SID: " + c.sid, FirstFields(c) + LastFields(c);
    assert ChunkLines(c) == [sid] + rest;
    OpenAppend([sid], rest);
    RenderIsOpen(ChunkLines(c));
    assert Open([sid]) == sid + CRLF by {
      assert [sid][1..] == [] && sid + CRLF + "" == sid + CRLF;
    }
    var u := t + CRLF + c.data;
    assert Render(ChunkLines(c)) + c.data == sid + CRLF + u;
    assert "SID: " + c.sid + "\r\n" == sid + CRLF;
  }

  lemma {:induction false} HexGrows(a: nat, b: nat)
    requires a <= b
    ensures |Hex(a)| <= |Hex(b)|
  {
    if b >= 16 && a >= 16 {
      HexGrows(a / 16, b / 16);
    }
  }

  lemma StaysInside(c: Outgoing, t: string, maxbytes: nat)
    requires |ReplyHeader(c.sid, maxbytes)| <= maxbytes
    requires t == "" || |ReplyHeader(c.sid, maxbytes)| + |t| <= maxbytes
    requires c.data == "" || |ReplyHeader(c.sid, maxbytes)| + |c.data| + |t| <= maxbytes
    ensures |FrameText("SID: ", c.sid, "\r\n", |t + CRLF + c.data|)| + |t + CRLF + c.data| <= maxbytes
  {
    HexGrows(7 + |c.sid| + |t| + 2 + |c.data|, 9 + |c.sid| + maxbytes);
    hide Hex;
  }

  /** A chunk with nothing but data, in exactly as many bytes as are asked for: three bytes more than
      the scratch space has are written when there is no data, and two when there is. */
  method ScratchIsShort(c: Outgoing, maxbytes: nat) returns (r: Option<string>, scratch: nat)
    requires FirstFields(c) + LastFields(c) == [] && maxbytes == |ReplyHeader(c.sid, maxbytes)| + |c.data|
    ensures r == Some(ChunkFrame(c))
    ensures scratch == maxbytes - |ReplyHeader(c.sid, maxbytes)| + if c.data == "" then 3 else 2
  {
    hide ReplyHeader, FirstFields, LastFields, ChunkFrame;
    r, scratch := FormatChunk(c, maxbytes, true);
  }

  const NOTHING := Outgoing("", None, None, None, None, -1, None, None, -1, None, -1, -1, -1, -1, "")

  lemma Numerals()
    ensures Hex(25) == "19" && Hex(23) == "17" && Hex(46) == "2e"
    ensures Dec(10) == "10" && Dec(55) == "55" && Dec(1234) == "1234"
  {
    assert Hex(1) == "1" && Hex(2) == "2";
    assert DecDigits(1) == "1" && DecDigits(5) == "5" && DecDigits(12) == "12" && DecDigits(123) == "123";
  }

  /** What the repository's own tests expect of the printers. */
  lemma AsTested()
    ensures Reply("12345", "Hello World") == "19" + CRLF + "SID: 12345" + CRLF + CRLF + "Hello World"
    ensures EofFrame("12345", false, true) == "17" + CRLF + "SID: 12345" + CRLF + "EOF: 1W" + CRLF + CRLF
    ensures PONG_FRAME == "b" + CRLF + "NOOP: 1" + CRLF + CRLF
    ensures ChunkFrame(NOTHING.(sid := "1234", eof := Some("1W"), quota := 10, data := "Potato salads"))
            == "2e" + CRLF + ("SID: 1234" + CRLF + "EOF: 1W" + CRLF + "Quota: 10" + CRLF + CRLF + "Potato salads")
  {
    ReplyAsTested();
    EofAsTested();
    PongAsTested();
    PotatoSalads(NOTHING.(sid := "1234", eof := Some("1W"), quota := 10, data := "Potato salads"));
    hide Reply, EofFrame, ChunkFrame, FrameText;
  }

  lemma ReplyAsTested()
    ensures Reply("12345", "Hello World") == "19" + CRLF + "SID: 12345" + CRLF + CRLF + "Hello World"
  {
    Numerals();
    hide Hex;
    assert "SID: " + "12345" == "SID: 12345" && "\r\n\r\n" == CRLF + CRLF;
    assert Reply("12345", "Hello World") == Hex(5 + 5 + 4 + 11) + CRLF + "SID: " + "12345" + "\r\n\r\n" + "Hello World";
  }

  lemma EofAsTested()
    ensures EofFrame("12345", false, true) == "17" + CRLF + "SID: 12345" + CRLF + "EOF: 1W" + CRLF + CRLF
  {
    Numerals();
    hide Hex;
    var after := "\r\nEOF: " + EofText(false, true) + "\r\n\r\n";
    assert EofText(false, true) == "1W";
    assert after == CRLF + "EOF: 1W" + CRLF + CRLF && |after| == 13;
    assert EofFrame("12345", false, true) == Hex(5 + 5 + 13) + CRLF + "SID: " + "12345" + after;
    assert "SID: " + "12345" == "SID: 12345";
  }

  lemma PongAsTested()
    ensures PONG_FRAME == "b" + CRLF + "NOOP: 1" + CRLF + CRLF
  {
  }

  lemma PotatoLines(c: Outgoing)
    requires c == NOTHING.(sid := "1234", eof := Some("1W"), quota := 10, data := "Potato salads")
    ensures ChunkLines(c) == ["SID: 1234", "EOF: 1W", "Quota: 10"]
  {
    Numerals();
    hide Dec;
    var l1, l2, l3 := "SID: 1234", "EOF: 1W", "Quota: 10";
    assert "SID: " + "1234" == l1 && "EOF" + ": " + "1W" == l2 && "Quota" + ": " + "10" == l3;
    assert FirstFields(c) == [l2] && LastFields(c) == [l3];
    assert [l1] + [l2] + [l3] == [l1, l2, l3];
  }

  lemma PotatoSalads(c: Outgoing)
    requires c == NOTHING.(sid := "1234", eof := Some("1W"), quota := 10, data := "Potato salads")
    ensures ChunkFrame(c) ==
            "2e" + CRLF + ("SID: 1234" + CRLF + "EOF: 1W" + CRLF + "Quota: 10" + CRLF + CRLF + "Potato salads")
  {
    PotatoLines(c);
    Numerals();
    RenderThree("SID: 1234", "EOF: 1W", "Quota: 10");
    assert |"SID: 1234"| == 9 && |"EOF: 1W"| == 7 && |"Quota: 10"| == 9 && |c.data| == 13;
    hide Hex, ChunkLines;
  }

  /** And of the parser, whose header names they write in other cases. */
  lemma AsParsed() returns (h: Headers)
    ensures h == ApplyAll(NO_HEADERS, ["SID: 1", "eOf: r", "NOOP: !", "Proto: http", "RIP: 127.0.0.1", "Quota: 1234",
                                       "QDays: 55"])
    ensures Given(h.strs, Sid) == Some("1") && Given(h.strs, Eof) == Some("r") && Given(h.strs, Noop) == Some("!")
    ensures Given(h.strs, Proto) == Some("http") && Given(h.strs, Rip) == Some("127.0.0.1")
    ensures Given(h.nums, Quota) == Some(1234) && Given(h.nums, QDays) == Some(55) && Given(h.nums, QConns) == None
  {
    hide Apply, ApplyAll, Dec;
    var a, b := ["SID: 1", "eOf: r", "NOOP: !"], ["Proto: http", "RIP: 127.0.0.1"];
    var c := ["Quota: 1234", "QDays: 55"];
    ApplyAppend(NO_HEADERS, a + b, c);
    ApplyAppend(NO_HEADERS, a, b);
    assert a + b + c == ["SID: 1", "eOf: r", "NOOP: !", "Proto: http", "RIP: 127.0.0.1", "Quota: 1234", "QDays: 55"];
    ApplyThree(NO_HEADERS, "SID: 1", "eOf: r", "NOOP: !");
    SidLine(NO_HEADERS, "SID: ", "1");
    var h1 := NO_HEADERS.(strs := map[Sid := "1"]);
    EofLine(h1, "eOf: ", "r");
    var h2 := h1.(strs := map[Sid := "1", Eof := "r"]);
    NoopLine(h2, "NOOP: ", "!");
    var h3 := h2.(strs := map[Sid := "1", Eof := "r", Noop := "!"]);
    ApplyTwo(h3, "Proto: http", "RIP: 127.0.0.1");
    ProtoLine(h3, "Proto: ", "http");
    var h4 := h3.(strs := h3.strs[Proto := "http"]);
    RipLine(h4, "RIP: ", "127.0.0.1");
    var h5 := h4.(strs := h4.strs[Rip := "127.0.0.1"]);
    ApplyTwo(h5, "Quota: 1234", "QDays: 55");
    Numerals();
    QuotaLine(h5, "Quota: ", 1234);
    var h6 := h5.(nums := map[Quota := 1234]);
    QDaysLine(h6, "QDays: ", 55);
    h := h6.(nums := map[Quota := 1234, QDays := 55]);
    Joins();
  }

  lemma Joins()
    ensures "SID: " + "1" == "SID: 1" && "eOf: " + "r" == "eOf: r" && "NOOP: " + "!" == "NOOP: !"
    ensures "Proto: " + "http" == "Proto: http" && "RIP: " + "127.0.0.1" == "RIP: 127.0.0.1"
    ensures "Quota: " + "1234" == "Quota: 1234" && "QDays: " + "55" == "QDays: 55"
  {
  }

  /** A length that is none, and a chunk without its headers' end. */
  lemma BadAsTested(cap: nat)
    requires 8 <= cap
    ensures Feed(cap, Hold(""), "z\r\n12345") == Step(Hold(""), [], BadFrame)
    ensures Feed(cap, Hold(""), "5\r\n54321") == Step(Hold(""), [], BadChunk)
  {
    BadLength(cap);
    BadHeaders(cap);
    hide Feed;
  }

  lemma BadLength(cap: nat)
    requires 8 <= cap
    ensures Feed(cap, Hold(""), "z\r\n12345") == Step(Hold(""), [], BadFrame)
  {
    var s := "z\r\n12345";
    assert "" + s == s && s[..8] == s;
    CrlfAfterLine("z", "12345");
    assert "z" + CRLF + "12345" == s && s[..1] == "z";
    assert UpToNul("z") == "z" && ScanHex("z") == None;
    assert FrameHeadOf(s) == BadHead;
    FeedIs(cap, Hold(""), s);
    HeldIs(cap, Hold(""), s);
    hide NewData, Feed, FrameHeadOf;
  }

  lemma FiveIsTheLength()
    ensures FrameHeadOf("5\r\n54321") == Head(3, 5)
  {
    var s := "5\r\n54321";
    CrlfAfterLine("5", "54321");
    assert "5" + CRLF + "54321" == s && s[..1] == "5";
    assert Hex(5) == "5" && UpToNul("5") == "5";
    ScanHexOfHex(5);
  }

  lemma BadHeaders(cap: nat)
    requires 8 <= cap
    ensures Feed(cap, Hold(""), "5\r\n54321") == Step(Hold(""), [], BadChunk)
  {
    hide NewData, Feed, FrameHeadOf, Whole, HeaderEnd, CrlfEnd;
    FiveIsTheLength();
    var s, body := "5\r\n54321", "54321";
    assert "" + s == s && s[..8] == s && s[3..8] == body && s[8..] == "";
    NoCrlfHere(body);
    FeedIs(cap, Hold(""), s);
    HeldIs(cap, Hold(""), s);
    WholeIs(cap, s, 3, 5, body, "");
  }

  lemma NoCrlfHere(s: string)
    requires '\r' !in s
    ensures CrlfEnd(s) == 0 && HeaderEnd(s) == 0
  {
    CrlfEndFinds(s);
    HeaderEndUnfold(s);
    hide HeaderEnd, CrlfEnd;
  }
}
