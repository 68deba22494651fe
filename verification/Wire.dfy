/** The tunnel wire format: a frame is a hexadecimal length line and that many bytes; those
    bytes are a chunk, header lines closed by an empty line and then data. */
module Wire {
  import opened Text

  /** Chunk header fields that the C struct keeps as pointers into the receive buffer. */
  datatype StrField = Sid | Noop | Ping | Proto | Eof | Rip | Rtls | Host

  /** Chunk header fields that it keeps as numbers; an absent one is -1 there. */
  datatype NumField = Skb | Spd | Port | RPort | QDays | QConns | Quota

  datatype Headers = Headers(strs: map<StrField, string>, nums: map<NumField, int>, others: seq<string>)

  const NO_HEADERS := Headers(map[], map[], [])
  const MAX_CHUNK_HEADERS := 64

  /** What one header line is, and how many of its bytes are the field name. */
  datatype LineKind = Str(f: StrField, skip: nat) | Num(n: NumField, skip: nat) | Extra | Ignored

  function Lower(c: char): char {
    if 'A' <= c <= 'Z' then (c as int + 32) as char else c
  }

  /** `0 == strncasecmp(line, name, strlen(name))` */
  predicate Named(line: string, name: string) {
    |name| <= |line| && forall i :: 0 <= i < |name| ==> Lower(line[i]) == Lower(name[i])
  }

  /** The dispatch in `parse_chunk_header`, including that an unknown line starting with S, P,
      R or Q is dropped while any other unknown line is remembered. */
  function Classify(line: string): (k: LineKind)
    ensures (k.Str? || k.Num?) ==> k.skip <= |line|
  {
    var c := if line == "" then NUL else Lower(line[0]);
    if line == "" then Ignored
    else if c == 's' then
      if Named(line, "SID: ") then Str(Sid, 5)
      else if Named(line, "SKB: ") then Num(Skb, 5)
      else if Named(line, "SPD: ") then Num(Spd, 5)
      else Ignored
    else if Named(line, "NOOP: ") then Str(Noop, 6)
    else if c == 'p' then
      if Named(line, "PING: ") then Str(Ping, 6)
      else if Named(line, "Proto: ") then Str(Proto, 7)
      else if Named(line, "Port: ") then Num(Port, 6)
      else Ignored
    else if Named(line, "EOF: ") then Str(Eof, 5)
    else if c == 'r' then
      if Named(line, "RIP: ") then Str(Rip, 5)
      else if Named(line, "RPort: ") then Num(RPort, 7)
      else if Named(line, "RTLS: ") then Str(Rtls, 6)
      else Ignored
    else if Named(line, "Host: ") then Str(Host, 6)
    else if c == 'q' then
      if Named(line, "QDays: ") then Num(QDays, 7)
      else if Named(line, "QConns: ") then Num(QConns, 8)
      else if Named(line, "Quota: ") then Num(Quota, 7)
      else Ignored
    else Extra
  }

  /** The number a numeric header line stores; None leaves the field as it was. */
  function ScanField(n: NumField, text: string): Option<int> {
    match ScanDec(text)
    case None => None
    case Some(v) => Some(if n == Skb then v else ToSigned32(v))
  }

  function Apply(h: Headers, line: string): Headers {
    match Classify(line)
    case Str(f, skip) => h.(strs := h.strs[f := UpToNul(line[skip..])])
    case Num(n, skip) =>
      (match ScanField(n, UpToNul(line[skip..]))
       case None => h
       case Some(v) => h.(nums := h.nums[n := v]))
    case Extra => if |h.others| < MAX_CHUNK_HEADERS then h.(others := h.others + [UpToNul(line)]) else h
    case Ignored => h
  }

  /** How many bytes the header lines at the front of s take, with the empty line that closes
      them; 0 when that line is missing. */
  function HeaderEnd(s: string): (k: nat)
    ensures k != 0 ==> 2 <= k <= |s|
  {
    var n := CrlfEnd(s);
    if n <= 2 then n
    else
      var k := HeaderEnd(s[n..]);
      if k == 0 then 0 else n + k
  }

  /** The header lines themselves, without their CRLFs. */
  function HeaderLines(s: string): (lines: seq<string>)
    requires HeaderEnd(s) != 0
  {
    var n := CrlfEnd(s);
    if n == 2 then [] else [s[..n - 2]] + HeaderLines(s[n..])
  }

  function ApplyAll(h: Headers, lines: seq<string>): Headers
    decreases |lines|
  {
    if lines == [] then h else ApplyAll(Apply(h, lines[0]), lines[1..])
  }

  lemma HeaderEndUnfold(s: string)
    ensures var n := CrlfEnd(s);
            if n <= 2 then HeaderEnd(s) == n
            else HeaderEnd(s) == if HeaderEnd(s[n..]) == 0 then 0 else n + HeaderEnd(s[n..])
  {
    hide CrlfEnd;
  }

  lemma HeaderLinesEnd(s: string)
    requires CrlfEnd(s) == 2
    ensures HeaderLines(s) == []
  {
    hide CrlfEnd;
  }

  lemma HeaderLinesUnfold(s: string)
    requires CrlfEnd(s) > 2 && HeaderEnd(s) != 0
    ensures HeaderEnd(s[CrlfEnd(s)..]) != 0
    ensures HeaderLines(s) == [s[..CrlfEnd(s) - 2]] + HeaderLines(s[CrlfEnd(s)..])
  {
    hide CrlfEnd;
  }

  lemma ApplyAllCons(h: Headers, line: string, lines: seq<string>)
    ensures ApplyAll(h, [line] + lines) == ApplyAll(Apply(h, line), lines)
    ensures ApplyAll(h, []) == h
  {
    hide Apply;
    var all := [line] + lines;
    assert all[0] == line && all[1..] == lines;
  }

  /** Bytes behind the header lines do not change them. */
  lemma {:induction false} HeaderEndPrefix(s: string, m: nat)
    requires m <= |s| && 0 < HeaderEnd(s) <= m
    ensures HeaderEnd(s[..m]) == HeaderEnd(s)
    ensures HeaderLines(s[..m]) == HeaderLines(s)
  {
    hide HeaderEnd, HeaderLines, CrlfEnd;
    var n := CrlfEnd(s);
    CrlfEndPrefix(s, m);
    HeaderEndUnfold(s);
    HeaderEndUnfold(s[..m]);
    if n > 2 {
      assert s[..m][..n - 2] == s[..n - 2];
      assert s[..m][n..] == s[n..][..m - n];
      HeaderEndPrefix(s[n..], m - n);
      HeaderLinesUnfold(s);
      HeaderLinesUnfold(s[..m]);
    } else {
      HeaderLinesEnd(s);
      HeaderLinesEnd(s[..m]);
    }
  }

  /** The hexadecimal line in front of a frame, once it is complete. */
  datatype FrameHead = NoHead | BadHead | Head(hdr: nat, length: int)

  function FrameHeadOf(raw: string): (f: FrameHead)
    ensures f.Head? ==> 2 <= f.hdr <= |raw|
    ensures f.NoHead? <==> CrlfEnd(raw) == 0
  {
    var n := CrlfEnd(raw);
    if n == 0 then NoHead
    else
      match ScanHex(UpToNul(raw[..n - 2]))
      case None => BadHead
      case Some(v) => Head(n, v)
  }

  /** The length line is the same whether the frame is read whole or in part. */
  lemma FrameHeadPrefix(raw: string, m: nat)
    requires m <= |raw|
    ensures FrameHeadOf(raw).Head? && FrameHeadOf(raw).hdr <= m ==> FrameHeadOf(raw[..m]) == FrameHeadOf(raw)
    ensures FrameHeadOf(raw).Head? && FrameHeadOf(raw).hdr > m ==> FrameHeadOf(raw[..m]) == NoHead
    ensures FrameHeadOf(raw[..m]).Head? ==> FrameHeadOf(raw) == FrameHeadOf(raw[..m])
  {
    CrlfEndPrefix(raw, m);
    var n := CrlfEnd(raw);
    assert 2 <= n <= m ==> raw[..m][..n - 2] == raw[..n - 2];
  }

  /** A complete message as the receiving end should see it. */
  datatype Message = Message(headers: Headers, data: string)

  /** `frame` is one whole frame that a parser with a buffer of cap bytes can deliver: its
      length line counts the rest, its header lines are closed, and either all of it fits the
      buffer or at least one data byte fits behind the headers. */
  predicate WellFormed(frame: string, cap: nat) {
    var f := FrameHeadOf(frame);
    && f.Head? && f.length == |frame| - f.hdr && |frame| <= INT_MAX
    && var k := HeaderEnd(frame[f.hdr..]);
    k != 0 && (|frame| <= cap || f.hdr + k < cap)
  }

  /** Where the data of a well-formed frame starts, and the message it carries. */
  function DataStart(frame: string, cap: nat): (n: nat)
    requires WellFormed(frame, cap)
    ensures 4 <= n <= |frame|
  {
    var f := FrameHeadOf(frame);
    f.hdr + HeaderEnd(frame[f.hdr..])
  }

  function MessageOf(frame: string, cap: nat): Message
    requires WellFormed(frame, cap)
  {
    var f := FrameHeadOf(frame);
    Message(ApplyAll(NO_HEADERS, HeaderLines(frame[f.hdr..])), frame[DataStart(frame, cap)..])
  }
}
