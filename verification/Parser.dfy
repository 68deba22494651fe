/** The parser of pkproto.c over its one buffer: received bytes are parsed where they lie, the
    header strings stay in the buffer as C strings, and leftovers are moved to the front. */
module Parser {
  import opened Text
  import opened Wire
  import opened ParserSpec

  /** The C string at p, for pointers that the header lines left behind. */
  function StrAt(b: string, p: nat): string {
    if p <= |b| then UpToNul(b[p..]) else ""
  }

  /** The headers that a set of pointers into buffer b stands for. */
  function HeadersAt(b: string, strs: map<StrField, nat>, nums: map<NumField, int>, others: seq<nat>): Headers {
    Headers(map f | f in strs :: StrAt(b, strs[f]), nums,
            seq(|others|, i requires 0 <= i < |others| => StrAt(b, others[i])))
  }

  /** p points at a string that ends before offset keep. */
  ghost predicate EndsBefore(b: string, p: nat, keep: nat) {
    keep <= |b| && exists i :: p <= i < keep && b[i] == NUL
  }

  ghost predicate Pinned(b: string, strs: map<StrField, nat>, others: seq<nat>, keep: nat) {
    && (forall f :: f in strs ==> EndsBefore(b, strs[f], keep))
    && (forall i :: 0 <= i < |others| ==> EndsBefore(b, others[i], keep))
  }

  /** A NUL ends the string in front of it, whatever lies behind. */
  lemma {:induction false} UpToNulCut(s: string, i: nat)
    requires i < |s| && s[i] == NUL
    ensures UpToNul(s) == UpToNul(s[..i])
  {
    if i > 0 && s[0] != NUL {
      assert s[1..][..i - 1] == s[..i][1..];
      UpToNulCut(s[1..], i - 1);
    }
  }

  lemma StrAtStable(b: string, c: string, p: nat, keep: nat)
    requires EndsBefore(b, p, keep) && keep <= |c| && b[..keep] == c[..keep]
    ensures StrAt(b, p) == StrAt(c, p) && EndsBefore(c, p, keep)
  {
    var i :| p <= i < keep && b[i] == NUL;
    assert c[i] == c[..keep][i];
    UpToNulCut(b[p..], i - p);
    UpToNulCut(c[p..], i - p);
    assert b[p..][..i - p] == b[..keep][p..i] == c[..keep][p..i] == c[p..][..i - p];
  }

  /** Header strings survive whatever is written behind them. */
  lemma HeadersStable(b: string, c: string, strs: map<StrField, nat>, nums: map<NumField, int>, others: seq<nat>,
                      keep: nat)
    requires Pinned(b, strs, others, keep) && keep <= |b| && keep <= |c| && b[..keep] == c[..keep]
    ensures HeadersAt(c, strs, nums, others) == HeadersAt(b, strs, nums, others)
    ensures Pinned(c, strs, others, keep)
  {
    forall f | f in strs
      ensures StrAt(b, strs[f]) == StrAt(c, strs[f]) && EndsBefore(c, strs[f], keep)
    {
      StrAtStable(b, c, strs[f], keep);
    }
    forall i | 0 <= i < |others|
      ensures StrAt(b, others[i]) == StrAt(c, others[i]) && EndsBefore(c, others[i], keep)
    {
      StrAtStable(b, c, others[i], keep);
    }
    assert HeadersAt(c, strs, nums, others).strs == HeadersAt(b, strs, nums, others).strs;
    assert HeadersAt(c, strs, nums, others).others == HeadersAt(b, strs, nums, others).others;
  }

  lemma PinnedMono(b: string, strs: map<StrField, nat>, others: seq<nat>, keep: nat, keep': nat)
    requires Pinned(b, strs, others, keep) && keep <= keep' <= |b|
    ensures Pinned(b, strs, others, keep')
  {
  }

  /** The pointer and number fields after one more header line, which lies at `at`. */
  function PointAt(b: string, strs: map<StrField, nat>, nums: map<NumField, int>, others: seq<nat>,
                   at: nat, line: string): (map<StrField, nat>, map<NumField, int>, seq<nat>)
  {
    match Classify(line)
    case Str(f, skip) => (strs[f := at + skip], nums, others)
    case Num(n, skip) =>
      (match ScanField(n, StrAt(b, at + skip))
       case None => (strs, nums, others)
       case Some(v) => (strs, nums[n := v], others))
    case Extra => if |others| < MAX_CHUNK_HEADERS then (strs, nums, others + [at]) else (strs, nums, others)
    case Ignored => (strs, nums, others)
  }

  lemma LineString(b: string, at: nat, line: string, skip: nat, keep: nat)
    requires skip <= |line| && at + |line| < keep <= |b|
    requires b[at..at + |line|] == line && b[at + |line|] == NUL
    ensures StrAt(b, at + skip) == UpToNul(line[skip..]) && EndsBefore(b, at + skip, keep)
  {
    assert b[at + skip..][..|line| - skip] == line[skip..];
    UpToNulCut(b[at + skip..], |line| - skip);
  }

  lemma AddStr(b: string, strs: map<StrField, nat>, nums: map<NumField, int>, others: seq<nat>,
               f: StrField, p: nat, keep: nat)
    requires Pinned(b, strs, others, keep) && EndsBefore(b, p, keep)
    ensures var h := HeadersAt(b, strs, nums, others);
            HeadersAt(b, strs[f := p], nums, others) == h.(strs := h.strs[f := StrAt(b, p)])
    ensures Pinned(b, strs[f := p], others, keep)
  {
    hide StrAt, EndsBefore;
    var h := HeadersAt(b, strs, nums, others);
    assert HeadersAt(b, strs[f := p], nums, others).strs == h.strs[f := StrAt(b, p)];
  }

  lemma AddOther(b: string, strs: map<StrField, nat>, nums: map<NumField, int>, others: seq<nat>, p: nat, keep: nat)
    requires Pinned(b, strs, others, keep) && EndsBefore(b, p, keep)
    ensures var h := HeadersAt(b, strs, nums, others);
            HeadersAt(b, strs, nums, others + [p]) == h.(others := h.others + [StrAt(b, p)])
    ensures Pinned(b, strs, others + [p], keep)
  {
    hide StrAt, EndsBefore;
    var h := HeadersAt(b, strs, nums, others);
    assert HeadersAt(b, strs, nums, others + [p]).others == h.others + [StrAt(b, p)];
  }

  lemma PointAtApplies(b: string, strs: map<StrField, nat>, nums: map<NumField, int>, others: seq<nat>,
                       at: nat, line: string, keep: nat)
    requires at + |line| < keep <= |b| && b[at..at + |line|] == line && b[at + |line|] == NUL
    requires Pinned(b, strs, others, keep)
    ensures var (s, n, o) := PointAt(b, strs, nums, others, at, line);
            HeadersAt(b, s, n, o) == Apply(HeadersAt(b, strs, nums, others), line) && Pinned(b, s, o, keep)
  {
    hide Classify, ScanField, EndsBefore, StrAt, Pinned, UpToNul;
    var k := Classify(line);
    var h := HeadersAt(b, strs, nums, others);
    assert |h.others| == |others| && h.nums == nums;
    if k.Ignored? {
    } else {
      var skip := if k.Extra? then 0 else k.skip;
      LineString(b, at, line, skip, keep);
      assert line[0..] == line;
      if k.Str? {
        AddStr(b, strs, nums, others, k.f, at + skip, keep);
      } else if k.Extra? {
        AddOther(b, strs, nums, others, at, keep);
      } else {
        var v := ScanField(k.n, StrAt(b, at + skip));
        assert v.Some? ==> HeadersAt(b, strs, nums[k.n := v.value], others) == h.(nums := nums[k.n := v.value]);
      }
    }
  }

  /** The headers h were pinned before `at`; a line was terminated there and pointed at. */
  lemma LineSays(was: string, now: string, strs: map<StrField, nat>, nums: map<NumField, int>, others: seq<nat>,
                 at: nat, line: string, h: Headers)
    requires HeadersAt(was, strs, nums, others) == h && Pinned(was, strs, others, at)
    requires at + |line| + 2 <= |now| && |was| == |now| && was[..at] == now[..at]
    requires now[at..at + |line|] == line && now[at + |line|] == NUL
    ensures HeadersAt(now, strs, nums, others) == h && Pinned(now, strs, others, at + |line| + 2)
    ensures line != "" ==>
              var (s, n, o) := PointAt(now, strs, nums, others, at, line);
              HeadersAt(now, s, n, o) == Apply(h, line) && Pinned(now, s, o, at + |line| + 2)
  {
    HeadersStable(was, now, strs, nums, others, at);
    PinnedMono(now, strs, others, at, at + |line| + 2);
    if line != "" {
      PointAtApplies(now, strs, nums, others, at, line, at + |line| + 2);
    }
  }

  /** Header lines were read up to pos and said h; the rest will end at endAt (0: never) and
      make them goal. */
  ghost predicate Remaining(rest: string, pos: nat, h: Headers, endAt: nat, goal: Headers) {
    var k := HeaderEnd(rest);
    if k == 0 then endAt == 0 else endAt == pos + k && goal == ApplyAll(h, HeaderLines(rest))
  }

  lemma RemainingStep(rest: string, pos: nat, h: Headers, endAt: nat, goal: Headers)
    requires Remaining(rest, pos, h, endAt, goal)
    ensures var n := CrlfEnd(rest);
            if n > 2 then Remaining(rest[n..], pos + n, Apply(h, rest[..n - 2]), endAt, goal)
            else if n == 2 then endAt == pos + 2 && goal == h
            else endAt == 0
  {
    hide Apply, CrlfEnd, HeaderEnd, HeaderLines, ApplyAll;
    HeaderEndUnfold(rest);
    var n := CrlfEnd(rest);
    if n > 2 && HeaderEnd(rest) != 0 {
      HeaderLinesUnfold(rest);
      ApplyAllCons(h, rest[..n - 2], HeaderLines(rest[n..]));
    } else if n == 2 {
      HeaderLinesEnd(rest);
      ApplyAllCons(h, "x", []);
    }
  }

  lemma EmptyHeaders(b: string, keep: nat)
    requires keep <= |b|
    ensures HeadersAt(b, map[], map[], []) == NO_HEADERS && Pinned(b, map[], [], keep)
  {
    assert HeadersAt(b, map[], map[], []).strs == map[];
  }

  /** The data of a chunk, and the first n bytes behind it, where they lie in the buffer. */
  lemma FragmentsIn(a: array<char>, at: nat, data: string, behind: string, n: nat)
    requires at <= a.Length && a[at..] == data + behind && n <= |behind|
    ensures at + |data| + n <= a.Length
    ensures a[at..at + |data|] == data && a[at + |data|..at + |data| + n] == behind[..n]
  {
    forall x | 0 <= x < |data|
      ensures a[at + x] == data[x]
    {
      assert a[at + x] == a[at..][x];
    }
    forall x | 0 <= x < n
      ensures a[at + |data| + x] == behind[x]
    {
      assert a[at + |data| + x] == a[at..][|data| + x];
    }
  }

  lemma SlicesJoin(a: array<char>, i: nat, j: nat, k: nat, x: string, y: string)
    requires i <= j <= k <= a.Length && a[i..j] == x && a[j..k] == y
    ensures a[i..k] == x + y
  {
  }

  class PkParser {
    const buf: array<char>
    /** How many bytes of the buffer are in use, and how many are free. */
    var rawLength: int
    var bytesLeft: int
    /** The declared frame length, or negative while it is not known, and its line's length. */
    var length: int
    var hdrLength: int
    /** The chunk: header pointers and numbers, where its data is (negative: no chunk yet), the
        size of the current fragment, of all the data, and of the data reported so far. */
    var strs: map<StrField, nat>
    var nums: map<NumField, int>
    var others: seq<nat>
    var dataAt: int
    var chunkLength: int
    var total: int
    var offset: int
    /** What the chunk callback was called with. */
    var delivered: seq<Event>
    /** The bytes of the held frame as received, and whether an error was swallowed. */
    ghost var raw: string
    ghost var lost: bool

    /** Accounting: the two counters always make up the whole buffer. */
    predicate Accounted()
      reads this
    {
      0 <= rawLength && 0 <= bytesLeft && rawLength + bytesLeft == buf.Length <= INT_MAX
    }

    predicate Shape()
      reads this
    {
      && (0 <= length ==> 2 <= hdrLength <= rawLength && length + hdrLength <= INT_MAX)
      && (dataAt < 0 ==> offset == 0)
      && (0 <= dataAt ==> 0 <= length && hdrLength <= dataAt == rawLength && 0 <= offset < total
                          && length == dataAt - hdrLength + (total - offset))
    }

    /** The held bytes are in the buffer, except for the CRLF of the length line. */
    ghost predicate Holding()
      reads this, buf
      requires Accounted()
    {
      && |raw| == rawLength && strs == map[] && nums == map[]
      && if length < 0 then buf[..rawLength] == raw && (|raw| < 3 || CrlfEnd(raw) == 0)
         else
           && 3 <= |raw| && 2 <= hdrLength && FrameHeadOf(raw) == Head(hdrLength, length)
           && hdrLength <= rawLength && buf[hdrLength..rawLength] == raw[hdrLength..]
    }

    ghost predicate Valid()
      reads this, buf
    {
      Accounted() && Shape() && (!lost ==> if dataAt < 0 then Holding() else Pinned(buf[..], strs, others, dataAt))
    }

    ghost function Abs(): (st: State)
      reads this, buf
      requires Valid()
      ensures Sane(st) && Used(st) <= buf.Length
      ensures !lost ==> Used(st) == rawLength
      ensures st.Lost? <==> lost
    {
      if lost then Lost
      else if dataAt < 0 then Hold(raw)
      else Frag(dataAt, HeadersAt(buf[..], strs, nums, others), total, offset)
    }

    constructor (size: nat)
      requires size <= INT_MAX
      ensures Valid() && Abs() == Hold("") && delivered == [] && buf.Length == size
    {
      buf := new char[size];
      rawLength, bytesLeft, length, hdrLength := 0, size, -1, -1;
      strs, nums, others, dataAt := map[], map[], [], -1;
      chunkLength, total, offset := -1, -1, 0;
      delivered, raw, lost := [], "", false;
    }

    /** `pk_parser_reset` */
    method Reset()
      requires Accounted()
      modifies this
      ensures rawLength == 0 && Accounted()
      ensures lost == old(lost) && delivered == old(delivered)
      ensures Valid() && Abs() == if lost then Lost else Hold("")
    {
      hide Valid, Abs;
      bytesLeft := bytesLeft + rawLength;
      length, hdrLength, rawLength := -1, -1, 0;
      ForgetChunk();
      raw := "";
      NothingHeld();
    }

    /** The chunk's part of that. */
    method ForgetChunk()
      modifies this`strs, this`nums, this`others, this`dataAt, this`chunkLength, this`total, this`offset
      ensures strs == map[] && nums == map[] && others == [] && dataAt == chunkLength == total == -1 && offset == 0
    {
      strs, nums, others, dataAt := map[], map[], [], -1;
      chunkLength, total, offset := -1, -1, 0;
    }

    lemma NothingHeld()
      requires Accounted() && rawLength == 0 && length == hdrLength == dataAt == chunkLength == total == -1
      requires offset == 0 && strs == map[] && nums == map[] && others == [] && raw == ""
      ensures Valid() && Abs() == if lost then Lost else Hold("")
    {
      hide FrameHeadOf, HeadersAt, Pinned;
    }

    /** `parse_frame_header` */
    method ParseFrameHeader() returns (code: Code)
      requires Accounted() && length < 0
      modifies this`length, this`hdrLength, buf
      ensures 0 <= length ==> 2 <= hdrLength <= rawLength
      ensures buf[rawLength..] == old(buf[rawLength..])
      ensures match FrameHeadOf(old(buf[..rawLength]))
              case NoHead => code == Fine && length < 0 && buf[..] == old(buf[..])
              case BadHead => code == BadFrame && length < 0
              case Head(n, v) =>
                code == Fine && length == v && hdrLength == n && buf[n..] == old(buf[n..])
    {
      hide ScanHex, CrlfEnd, UpToNul;
      code := Fine;
      var n := ZeroFirstCrlf(buf, 0, rawLength);
      if n > 0 {
        hdrLength := n;
        UpToNulCut(buf[..], n - 2);
        assert buf[..][..n - 2] == old(buf[..rawLength])[..n - 2];
        match ScanHex(CString(buf[..], 0)) {
          case None => code := BadFrame;
          case Some(v) => length := v;
        }
      }
    }

    /** The pointers stand for h, and their strings end before keep. */
    ghost predicate Says(h: Headers, keep: nat)
      reads this, buf
    {
      HeadersAt(buf[..], strs, nums, others) == h && Pinned(buf[..], strs, others, keep)
    }

    /** One turn of the header loop: the line at `at`, where the buffer holds `rest` and then
        `behind`. h is what was read before. */
    method ParseLine(at: nat, avail: nat, ghost rest: string, ghost behind: string, ghost h: Headers) returns (len: nat)
      requires at <= buf.Length && buf[at..] == rest + behind && |rest| == avail
      modifies this`strs, this`nums, this`others, buf
      ensures len == CrlfEnd(rest)
      ensures buf[at + len..] == rest[len..] + behind
      ensures len > 2 && old(Says(h, at)) ==> Says(Apply(h, rest[..len - 2]), at + len)
      ensures len == 2 && old(Says(h, at)) ==> Says(h, at + len)
    {
      hide Apply, HeadersAt, Pinned, PointAt, CrlfEnd;
      ghost var was := buf[..];
      assert was[at..at + avail] == was[at..][..avail] == rest;
      len := ZeroFirstCrlf(buf, at, avail);
      ghost var now := buf[..];
      assert now[at + len..] == was[at + len..] == was[at..][len..] == rest[len..] + behind;
      if len > 0 {
        ghost var content := rest[..len - 2];
        assert now[at..at + len - 2] == was[at..at + avail][..len - 2] == content;
        if HeadersAt(was, strs, nums, others) == h && Pinned(was, strs, others, at) {
          assert was[..at] == now[..at];
          LineSays(was, now, strs, nums, others, at, content, h);
        }
        if len > 2 {
          var line := buf[at..at + len - 2];
          assert line == content;
          var (s, n, o) := PointAt(buf[..], strs, nums, others, at, line);
          strs, nums, others := s, n, o;
        }
      }
    }

    /** The header loop; 0 when the closing empty line is missing. `body` is what it reads and
        `behind` what follows in the buffer. */
    method ParseLines(bytes: nat, ghost body: string, ghost behind: string) returns (pos: nat)
      requires 0 <= hdrLength <= buf.Length && buf[hdrLength..] == body + behind && |body| == bytes
      requires others == []
      modifies this`strs, this`nums, this`others, buf
      ensures pos == HeaderEnd(body)
      ensures pos != 0 ==> hdrLength + pos <= buf.Length && buf[hdrLength + pos..] == body[pos..] + behind
      ensures pos != 0 && old(strs == map[] && nums == map[]) ==>
                Says(ApplyAll(NO_HEADERS, HeaderLines(body)), hdrLength + pos)
    {
      hide Apply, HeadersAt, Pinned, HeaderEnd, HeaderLines, ApplyAll, CrlfEnd;
      ghost var clean := strs == map[] && nums == map[];
      var at, len := hdrLength, 3;
      EmptyHeaders(buf[..], at);
      assert clean ==> Says(NO_HEADERS, at);
      hide Says;
      ghost var rest, h, endAt := body, NO_HEADERS, HeaderEnd(body);
      ghost var goal := if endAt == 0 then h else ApplyAll(h, HeaderLines(body));
      while len > 2
        invariant hdrLength <= at && (len == 0 || len >= 2)
        invariant |rest| == hdrLength + bytes - at && rest == body[at - hdrLength..]
        invariant at <= buf.Length && buf[at..] == rest + behind
        invariant if len > 2 then Remaining(rest, at - hdrLength, h, endAt, goal)
                  else if len == 2 then hdrLength + 2 <= at == hdrLength + endAt && goal == h
                  else endAt == 0
        invariant clean && len > 0 ==> Says(h, at)
        modifies this`strs, this`nums, this`others, buf
        decreases |rest|, len
      {
        hide Remaining;
        RemainingStep(rest, at - hdrLength, h, endAt, goal);
        ghost var n := CrlfEnd(rest);
        ghost var h' := if n > 2 then Apply(h, rest[..n - 2]) else h;
        len := ParseLine(at, hdrLength + bytes - at, rest, behind, h);
        rest, h, at := rest[n..], h', at + len;
      }
      return if len == 0 then 0 else at - hdrLength;
    }

    /** `parse_chunk_header`; 0 for a bad chunk. */
    method ParseChunkHeader(bytes: nat, ghost body: string, ghost behind: string) returns (pos: nat)
      requires 0 <= hdrLength <= buf.Length && buf[hdrLength..] == body + behind && |body| == bytes
      modifies this`strs, this`nums, this`others, this`dataAt, this`chunkLength, this`total, this`offset, buf
      ensures pos == HeaderEnd(body)
      ensures pos == 0 ==> dataAt == old(dataAt) && offset == old(offset)
      ensures pos != 0 ==>
                && dataAt == hdrLength + pos <= buf.Length && buf[dataAt..] == body[pos..] + behind
                && total == length - pos && chunkLength == bytes - pos && offset == 0
      ensures pos != 0 && old(strs == map[] && nums == map[]) ==>
                Says(ApplyAll(NO_HEADERS, HeaderLines(body)), dataAt)
    {
      hide HeaderEnd, HeaderLines, ApplyAll, HeadersAt, Pinned, CrlfEnd;
      others := [];
      pos := ParseLines(bytes, body, behind);
      if pos != 0 {
        dataAt, total, chunkLength, offset := hdrLength + pos, length - pos, bytes - pos, 0;
      }
    }

    /** The callback, on the fragment of chunkLength bytes; a full buffer keeps the EOF back. */
    method Report(fragmenting: bool)
      requires 0 <= dataAt && 0 <= chunkLength && dataAt + chunkLength <= buf.Length
      modifies this`delivered
      ensures var h := HeadersAt(buf[..], strs, nums, others);
              delivered == old(delivered) + [Event(if fragmenting then KeepBackEof(h) else h,
                                                   buf[dataAt..dataAt + chunkLength], offset, total)]
    {
      var h := HeadersAt(buf[..], strs, nums, others);
      delivered := delivered + [Event(if fragmenting then KeepBackEof(h) else h,
                                      buf[dataAt..dataAt + chunkLength], offset, total)];
    }

    /** memmove(buf, buf + from, count) */
    method MoveToFront(from: nat, count: nat)
      requires from + count <= buf.Length
      modifies buf
      ensures buf[..count] == old(buf[from..from + count])
    {
      var i := 0;
      while i < count
        invariant i <= count
        invariant forall j :: 0 <= j < i ==> buf[j] == old(buf[from + j])
        invariant forall j :: i <= j < buf.Length ==> buf[j] == old(buf[j])
      {
        buf[i] := buf[from + i];
        i := i + 1;
      }
    }

    /** A frame of `wanted` bytes is done with: parse what follows it. An error there is dropped. */
    method Finish(wanted: nat, ghost rest: string)
      requires Accounted() && 2 <= wanted <= rawLength && buf[wanted..rawLength] == rest
      modifies this, buf
      ensures Valid() && (old(lost) ==> lost)
      ensures !old(lost) ==>
                var s := NewData(buf.Length, Hold(""), rest);
                delivered == old(delivered) + s.events && Abs() == if s.code == Fine then s.st else Lost
      ensures old(delivered) <= delivered
      decreases rawLength, 1
    {
      hide NewData, Holding, Pinned, HeadersAt, FrameHeadOf, CrlfEnd;
      var leftovers := rawLength - wanted;
      if leftovers > 0 {
        MoveToFront(wanted, leftovers);
        Reset();
        assert buf[0..leftovers] == rest;
        var code := ParseNewData(leftovers, rest);
        if code != Fine {
          lost := true;
        }
      } else {
        Reset();
        NothingNew(buf.Length, Hold(""));
        assert delivered == old(delivered) + [];
      }
    }

    /** The last fragment d of a chunk with headers h, and then what follows the frame. */
    method ReportLast(wanted: nat, ghost h: Headers, ghost d: string, ghost rest: string)
      requires Accounted() && 2 <= wanted <= rawLength && buf[wanted..rawLength] == rest
      requires 0 <= dataAt && 0 <= chunkLength && dataAt + chunkLength <= buf.Length
      requires buf[dataAt..dataAt + chunkLength] == d
      requires !lost ==> HeadersAt(buf[..], strs, nums, others) == h
      modifies this, buf
      ensures Valid() && (old(lost) ==> lost)
      ensures !old(lost) ==>
                var s := After(Event(h, d, old(offset), old(total)), NewData(buf.Length, Hold(""), rest));
                s.code == Fine && delivered == old(delivered) + s.events && Abs() == s.st
      ensures old(delivered) <= delivered
      decreases rawLength, 2
    {
      hide NewData, HeadersAt, Pinned, Valid, Abs, After;
      AfterEvents(delivered, Event(h, d, offset, total), NewData(buf.Length, Hold(""), rest));
      Report(false);
      Finish(wanted, rest);
    }

    /** What a step amounts to once the length line is known. */
    ghost function HeldStep(): Step
      reads this
      requires 0 <= length && 2 <= hdrLength <= |raw| <= buf.Length
    {
      if hdrLength + length <= |raw| then Whole(buf.Length, raw, hdrLength, length)
      else if |raw| < buf.Length then Step(Hold(raw), [], Fine)
      else Fragment(raw, hdrLength, length)
    }

    /** The fragment was passed on: its bytes are free again. h is what the headers say. */
    method Adjust(ghost h: Headers)
      requires Accounted() && 2 <= hdrLength <= dataAt && 0 <= chunkLength && dataAt + chunkLength == rawLength
      requires 0 <= offset < total && length - chunkLength == dataAt - hdrLength + (total - offset)
      requires length - chunkLength + hdrLength <= INT_MAX && (!lost ==> Says(h, dataAt))
      modifies this`length, this`rawLength, this`bytesLeft
      ensures Valid() && (!lost ==> Abs() == Frag(dataAt, h, total, offset))
    {
      length := length - chunkLength;
      rawLength := rawLength - chunkLength;
      bytesLeft := bytesLeft + chunkLength;
    }

    /** The headers of a frame that is complete in the buffer: `body`, and then `rest`. */
    method ParseWhole(ghost body: string, ghost rest: string) returns (pos: nat)
      requires Accounted() && 2 <= hdrLength && |body| == length && hdrLength + length + |rest| == rawLength
      requires buf[hdrLength..rawLength] == body + rest
      modifies this`strs, this`nums, this`others, this`dataAt, this`chunkLength, this`total, this`offset, buf
      ensures pos == HeaderEnd(body)
      ensures pos == 0 ==> dataAt == old(dataAt) && offset == old(offset)
      ensures pos != 0 ==>
                && hdrLength + pos == dataAt && dataAt + chunkLength == hdrLength + length
                && offset == 0 && total == chunkLength == |body| - pos
                && buf[dataAt..dataAt + chunkLength] == body[pos..] && buf[hdrLength + length..rawLength] == rest
      ensures pos != 0 && old(strs == map[] && nums == map[]) ==>
                HeadersAt(buf[..], strs, nums, others) == ApplyAll(NO_HEADERS, HeaderLines(body))
    {
      hide HeaderEnd, HeaderLines, ApplyAll, CrlfEnd, HeadersAt, Pinned;
      ghost var behind := rest + buf[rawLength..];
      assert buf[hdrLength..] == buf[hdrLength..rawLength] + buf[rawLength..] == body + behind;
      pos := ParseChunkHeader(length, body, behind);
      if pos != 0 {
        FragmentsIn(buf, dataAt, body[pos..], behind, |rest|);
        assert behind[..|rest|] == rest;
      }
    }

    /** What is held, behind the length line: the body of a frame, and what follows it. */
    lemma HeldParts(wanted: nat)
      requires Accounted() && Holding() && 0 <= length && length + hdrLength == wanted <= rawLength
      ensures buf[hdrLength..rawLength] == raw[hdrLength..wanted] + raw[wanted..]
    {
      hide FrameHeadOf;
      assert raw[hdrLength..] == raw[hdrLength..wanted] + raw[wanted..];
    }

    /** A held frame that is complete: report it, then parse what follows it. */
    method CompleteHeld() returns (code: Code)
      requires Accounted() && Shape() && 0 <= length && dataAt < 0 && length + hdrLength <= rawLength
      requires !lost ==> Holding()
      modifies this, buf
      ensures code == Fine ==> Valid()
      ensures code == Fine || (code == BadChunk && Accounted() && Shape() && lost == old(lost))
      ensures old(lost) ==> lost
      ensures !old(lost) ==>
                var s := Whole(buf.Length, old(raw), old(hdrLength), old(length));
                && code == s.code && delivered == old(delivered) + s.events
                && (code == Fine ==> Abs() == s.st)
      ensures old(delivered) <= delivered
      decreases rawLength, 3
    {
      hide NewData, HeaderEnd, HeaderLines, ApplyAll, FrameHeadOf, CrlfEnd, HeadersAt, Pinned, Whole, After;
      var wanted := length + hdrLength;
      ghost var body, rest := buf[hdrLength..wanted], buf[wanted..rawLength];
      assert buf[hdrLength..rawLength] == body + rest;
      ghost var goal := Step(Lost, [], Fine);
      if !lost {
        HeldParts(wanted);
        body, rest := raw[hdrLength..wanted], raw[wanted..];
        WholeIs(buf.Length, raw, hdrLength, length, body, rest);
        goal := Whole(buf.Length, raw, hdrLength, length);
      }
      hide Holding;
      var pos := ParseWhole(body, rest);
      if pos == 0 {
        assert delivered == delivered + [];
        return BadChunk;
      }
      hide Valid, Abs;
      ghost var h := if lost then HeadersAt(buf[..], strs, nums, others) else ApplyAll(NO_HEADERS, HeaderLines(body));
      offset := offset + chunkLength;
      assert !lost ==> goal == After(Event(h, body[pos..], offset, total), NewData(buf.Length, Hold(""), rest));
      ReportLast(wanted, h, body[pos..], rest);
      return Fine;
    }

    /** A full buffer and an incomplete frame: report what there is, from then on pass it through. */
    method FragmentHeld() returns (code: Code)
      requires Accounted() && Shape() && 0 <= length && dataAt < 0 && rawLength < length + hdrLength && bytesLeft < 1
      requires !lost ==> Holding()
      modifies this, buf
      ensures code == Fine ==> Valid()
      ensures code == Fine || (code == BadChunk && Accounted() && Shape())
      ensures lost == old(lost)
      ensures !lost ==>
                var s := Fragment(old(raw), old(hdrLength), old(length));
                && code == s.code && delivered == old(delivered) + s.events
                && (code == Fine ==> Abs() == s.st)
      ensures old(delivered) <= delivered
    {
      hide HeaderEnd, HeaderLines, ApplyAll, FrameHeadOf, HeadersAt, Pinned, CrlfEnd;
      ghost var body, behind := buf[hdrLength..], "";
      assert buf[hdrLength..] == body + behind && buf[hdrLength..] == buf[hdrLength..rawLength];
      var pos := ParseChunkHeader(rawLength - hdrLength, body, behind);
      if pos == 0 {
        assert delivered == delivered + [];
        return BadChunk;
      }
      assert buf[dataAt..dataAt + chunkLength] == buf[dataAt..] == body[pos..];
      offset := offset + chunkLength;
      Report(true);
      Adjust(ApplyAll(NO_HEADERS, HeaderLines(body)));
      return Fine;
    }

    /** A held frame whose length is known: report it if it is complete or the buffer is full. */
    method ParseHeld() returns (code: Code)
      requires Accounted() && Shape() && 0 <= length && dataAt < 0
      requires !lost ==> Holding()
      modifies this, buf
      ensures code == Fine ==> Valid()
      ensures code == Fine || (code == BadChunk && Accounted() && Shape() && lost == old(lost))
      ensures old(lost) ==> lost
      ensures !old(lost) ==>
                var s := old(HeldStep());
                && code == s.code && delivered == old(delivered) + s.events
                && (code == Fine ==> Abs() == s.st)
      ensures old(delivered) <= delivered
      decreases rawLength, 4
    {
      hide NewData, Whole, Fragment, HeadersAt, Pinned, FrameHeadOf, CrlfEnd;
      if rawLength >= length + hdrLength {
        code := CompleteHeld();
      } else if bytesLeft < 1 {
        code := FragmentHeld();
      } else {
        assert delivered == delivered + [];
        code := Fine;
      }
    }

    /** A fragment d of a chunk that goes on: reported, and its bytes freed. */
    method PassOn(fragmenting: bool, ghost h: Headers, ghost d: string)
      requires Accounted() && 2 <= hdrLength <= dataAt && 0 <= chunkLength && dataAt + chunkLength == rawLength
      requires 0 <= offset < total && length - chunkLength == dataAt - hdrLength + (total - offset)
      requires length - chunkLength + hdrLength <= INT_MAX && (!lost ==> Says(h, dataAt))
      requires buf[dataAt..dataAt + chunkLength] == d
      modifies this
      ensures Valid() && lost == old(lost)
      ensures !lost ==>
                && delivered == old(delivered)
                               + [Event(if fragmenting then KeepBackEof(h) else h, d, old(offset), old(total))]
                && Abs() == Frag(old(dataAt), h, old(total), old(offset))
      ensures old(delivered) <= delivered
    {
      hide HeadersAt, Pinned, KeepBackEof, Valid, Abs;
      Report(fragmenting);
      Adjust(h);
    }

    /** In the middle of a frame that is passed through; n bytes of it, `data`, were just counted. */
    ghost predicate Passing(n: nat, data: string)
      reads this, buf
    {
      && Accounted() && 0 < n && 0 <= dataAt && |data| == n
      && 2 <= hdrLength <= dataAt && rawLength == dataAt + n && buf[dataAt..rawLength] == data
      && 0 <= offset < total && length == dataAt - hdrLength + (total - offset) && length + hdrLength <= INT_MAX
      && (!lost ==> Pinned(buf[..], strs, others, dataAt))
    }

    /** Where it is. */
    ghost function PassState(): State
      reads this, buf
      requires 0 <= dataAt && 0 <= offset <= total
    {
      Frag(dataAt, HeadersAt(buf[..], strs, nums, others), total, offset)
    }

    /** The frame goes on: its fragment is reported, and its bytes freed. */
    method PassFragment(n: nat, ghost data: string, fragmenting: bool)
      requires Passing(n, data) && n < total - offset && fragmenting == (bytesLeft < 1)
      modifies this, buf
      ensures Valid() && lost == old(lost) && old(delivered) <= delivered
      ensures !lost ==>
                var s := NewData(buf.Length, old(PassState()), data);
                s.code == Fine && delivered == old(delivered) + s.events && Abs() == s.st
    {
      hide HeadersAt, Pinned, NewData, KeepBackEof, FrameHeadOf, CrlfEnd, Valid, Abs;
      ghost var h := HeadersAt(buf[..], strs, nums, others);
      PassingGoes(buf.Length, PassState(), data);
      chunkLength := n;
      offset := offset + chunkLength;
      PassOn(fragmenting, h, data);
    }

    /** The frame ends: its last fragment is reported, and what follows it parsed. */
    method PassLast(n: nat, ghost data: string)
      requires Passing(n, data) && n >= total - offset
      modifies this, buf
      ensures Valid() && (old(lost) ==> lost) && old(delivered) <= delivered
      ensures !old(lost) ==>
                var s := NewData(buf.Length, old(PassState()), data);
                s.code == Fine && delivered == old(delivered) + s.events && Abs() == s.st
      decreases rawLength, 3
    {
      hide HeadersAt, Pinned, NewData, After, FrameHeadOf, CrlfEnd, Valid, Abs;
      ghost var h := HeadersAt(buf[..], strs, nums, others);
      PassingStops(buf.Length, PassState(), data);
      chunkLength := total - offset;
      TwoParts(buf, dataAt, rawLength, data, chunkLength);
      offset := offset + chunkLength;
      ReportLast(length + hdrLength, h, data[..chunkLength], data[chunkLength..]);
    }

    /** More data of a frame that is being passed through; n bytes of it were just counted. */
    method ParsePassing(n: nat, ghost data: string) returns (code: Code)
      requires Passing(n, data)
      modifies this, buf
      ensures code == Fine && Valid()
      ensures old(lost) ==> lost
      ensures !old(lost) ==>
                var s := NewData(buf.Length, old(PassState()), data);
                code == s.code && delivered == old(delivered) + s.events && Abs() == s.st
      ensures old(delivered) <= delivered
      decreases rawLength, 4
    {
      hide NewData, Valid, Abs, HeadersAt, Pinned;
      var wanted := length + hdrLength;
      var fragmenting := bytesLeft < 1 && wanted > rawLength;
      if fragmenting || offset + n < total {
        PassFragment(n, data, fragmenting);
      } else {
        PassLast(n, data);
      }
      return Fine;
    }

    /** Counts n new bytes behind a held frame. */
    method TakeIn(n: nat, ghost data: string)
      requires Valid() && dataAt < 0 && n <= bytesLeft && |data| == n && buf[rawLength..rawLength + n] == data
      modifies this`rawLength, this`bytesLeft, this`raw
      ensures Accounted() && Shape() && rawLength == old(rawLength) + n && raw == old(raw) + data
      ensures !lost && 0 <= length ==> Holding()
      ensures !lost && length < 0 ==> buf[..rawLength] == raw && strs == map[] && nums == map[]
    {
      hide FrameHeadOf, CrlfEnd, Pinned, HeadersAt;
      ghost var was, k := raw, if length < 0 then 0 else hdrLength;
      assert !lost ==> buf[k..rawLength] == raw[k..];
      rawLength, bytesLeft := rawLength + n, bytesLeft - n;
      raw := raw + data;
      if !lost {
        assert raw[..|was|] == was;
        FrameHeadPrefix(raw, |was|);
        SlicesJoin(buf, k, |was|, rawLength, was[k..], data);
        assert raw[k..] == was[k..] + data;
      }
    }

    /** The first half of a step on a held frame: learn its length if there is a length line.
        `more` says that the length is known and fits. */
    method LearnLength() returns (code: Code, more: bool)
      requires Accounted() && Shape() && dataAt < 0 && 3 <= rawLength
      requires !lost && 0 <= length ==> Holding()
      requires !lost && length < 0 ==> buf[..rawLength] == raw && |raw| == rawLength && strs == map[] && nums == map[]
      modifies this`length, this`hdrLength, this`lost, buf
      ensures Accounted() && Shape() && (old(lost) ==> lost) && !code.NoMemory? && !code.BadChunk?
      ensures more ==> code == Fine && 0 <= length && (!lost ==> Holding())
      ensures code == Fine && !more ==> length < 0 && (!lost ==> Holding())
      ensures code == BadFrame ==> lost == old(lost)
      ensures code == TooLong ==> lost && length < 0
      ensures !old(lost) ==>
                match FrameHeadOf(raw)
                case NoHead => code == Fine && !more && !lost
                case BadHead => code == BadFrame
                case Head(h, v) =>
                  if v < 0 then code == Fine && !more && lost
                  else if v + h > INT_MAX then code == TooLong
                  else code == Fine && more && !lost && hdrLength == h && length == v
    {
      hide FrameHeadOf, CrlfEnd;
      code, more := Fine, false;
      if length < 0 {
        code := ParseFrameHeader();
        if code != Fine {
          return;
        }
      }
      if length < 0 {
        lost := lost || FrameHeadOf(raw).Head?;
        return;
      }
      if length + hdrLength > INT_MAX {
        // The C program's int would overflow here; the model stops by forgetting the length.
        length, lost := -1, true;
        return TooLong, false;
      }
      more := true;
    }

    /** A step on a held frame. */
    method ParseHolding(n: nat, ghost data: string) returns (code: Code)
      requires Valid() && dataAt < 0 && 0 < n <= bytesLeft && |data| == n && buf[rawLength..rawLength + n] == data
      modifies this, buf
      ensures code.Fine? || code.TooLong? ==> Valid()
      ensures Accounted() && Shape() && !code.NoMemory?
      ensures (old(lost) ==> lost) && (code == TooLong ==> lost)
      ensures code == BadFrame || code == BadChunk ==> lost == old(lost)
      ensures !old(lost) ==>
                var s := NewData(buf.Length, old(Abs()), data);
                && code == s.code && delivered == old(delivered) + s.events
                && (code == Fine ==> Abs() == s.st)
      ensures old(delivered) <= delivered
      decreases rawLength + n, 5
    {
      hide NewData, Whole, Fragment, HeadersAt, Pinned, FrameHeadOf, CrlfEnd;
      assert delivered == delivered + [];
      if !lost {
        HeldIs(buf.Length, Abs(), data);
      }
      TakeIn(n, data);
      if rawLength < 3 {
        return Fine;
      }
      var more;
      code, more := LearnLength();
      if more {
        code := ParseHeld();
      }
    }

    /** `pk_parser_parse_new_data`: n bytes, `data`, were put behind those in use. */
    method ParseNewData(n: nat, ghost data: string) returns (code: Code)
      requires Valid() && n <= bytesLeft && |data| == n && buf[rawLength..rawLength + n] == data
      modifies this, buf
      ensures code.Fine? || code.TooLong? ==> Valid()
      ensures Accounted() && Shape() && !code.NoMemory?
      ensures (old(lost) ==> lost) && (code == TooLong ==> lost)
      ensures code == BadFrame || code == BadChunk ==> lost == old(lost)
      ensures !old(lost) ==>
                var s := NewData(buf.Length, old(Abs()), data);
                && code == s.code && delivered == old(delivered) + s.events
                && (code == Fine ==> Abs() == s.st)
      ensures old(delivered) <= delivered
      decreases rawLength + n, 6
    {
      hide NewData, HeadersAt, Pinned, FrameHeadOf, CrlfEnd, Holding;
      NothingNew(buf.Length, Abs());
      assert delivered == delivered + [];
      if n <= 0 {
        return Fine;
      }
      if 0 <= dataAt {
        rawLength, bytesLeft := rawLength + n, bytesLeft - n;
        code := ParsePassing(n, data);
      } else {
        code := ParseHolding(n, data);
      }
    }

    /** memcpy(buf + rawLength, piece, |piece|) */
    method CopyIn(piece: string)
      requires Valid() && |piece| <= bytesLeft
      modifies buf
      ensures Valid() && Abs() == old(Abs()) && buf[rawLength..rawLength + |piece|] == piece
    {
      ghost var was := buf[..];
      var i := 0;
      while i < |piece|
        invariant i <= |piece|
        invariant buf[..rawLength] == was[..rawLength]
        invariant forall j :: 0 <= j < i ==> buf[rawLength + j] == piece[j]
      {
        buf[rawLength + i] := piece[i];
        i := i + 1;
      }
      if !lost && 0 <= dataAt {
        HeadersStable(was, buf[..], strs, nums, others, dataAt);
      } else if !lost && 0 <= length {
        assert buf[hdrLength..rawLength] == buf[..rawLength][hdrLength..] == was[hdrLength..rawLength];
      }
    }

    /** What feeding data from state st, with what was delivered before, has come to when it ends;
        of a parser that lost track only what was delivered till then. */
    ghost predicate Fed(cap: nat, st: State, data: string, before: seq<Event>, code: Code)
      reads this, buf
      requires Valid() && Sane(st) && Used(st) <= cap
    {
      && before <= delivered && (st.Lost? ==> lost)
      && var s := Feed(cap, st, data);
         if st.Lost? || s.st == Lost then lost && (!st.Lost? ==> before + s.events <= delivered)
         else code == s.code && delivered == before + s.events && Abs() == s.st
    }

    /** The same in the middle of it, with `rest` still to go. */
    ghost predicate Feeding(cap: nat, st: State, data: string, before: seq<Event>, rest: string)
      reads this, buf
      requires Valid() && Sane(st) && Used(st) <= cap
    {
      && before <= delivered && (st.Lost? ==> lost)
      && (!st.Lost? ==>
            if lost then Feed(cap, st, data).st == Lost && before + Feed(cap, st, data).events <= delivered
            else FedTo(cap, st, data, delivered[|before|..], Abs(), rest))
    }

    lemma FeedingStart(cap: nat, data: string)
      requires Valid() && cap == buf.Length
      ensures Feeding(cap, Abs(), data, delivered, data)
    {
      hide Pinned, Holding, HeadersAt, Feed;
      FedToStart(cap, Abs(), data);
      assert delivered[|delivered|..] == [];
    }

    lemma FeedingEnd(cap: nat, st: State, data: string, before: seq<Event>, rest: string)
      requires Valid() && Sane(st) && Used(st) <= cap && cap == buf.Length && Feeding(cap, st, data, before, rest)
      ensures rest == "" ==> Fed(cap, st, data, before, Fine)
      ensures rest != "" && bytesLeft <= 0 ==> Fed(cap, st, data, before, NoMemory)
    {
      hide Pinned, Holding, HeadersAt, Feed;
      if !lost {
        FedToEnd(cap, st, data, delivered[|before|..], Abs(), rest);
      }
    }

    /** One turn of the loop: as much as there is room for. */
    method TakePiece(data: string, parsed: nat, ghost st: State, ghost before: seq<Event>)
      returns (code: Code, copy: nat)
      requires Valid() && parsed < |data| && 0 < bytesLeft && Sane(st) && Used(st) <= buf.Length
      requires Feeding(buf.Length, st, data, before, data[parsed..])
      modifies this, buf
      ensures Valid() && 0 < copy && parsed + copy <= |data|
      ensures if code == Fine then Feeding(buf.Length, st, data, before, data[parsed + copy..])
              else Fed(buf.Length, st, data, before, code)
    {
      hide NewData, Feed, FedTo, Pinned, Holding, HeadersAt, FrameHeadOf, CrlfEnd;
      ghost var cap, now, rest, events := buf.Length, Abs(), data[parsed..], delivered[|before|..];
      assert before + events == delivered;
      copy := if |data| - parsed > bytesLeft then bytesLeft else |data| - parsed;
      var piece := data[parsed..parsed + copy];
      assert piece == rest[..copy] && data[parsed + copy..] == rest[copy..];
      ghost var s := Step(now, [], Fine);
      if !lost {
        FedToStep(cap, st, data, events, now, rest);
        s := NewData(cap, now, piece);
      }
      CopyIn(piece);
      code := ParseNewData(copy, piece);
      if !now.Lost? {
        MoreDelivered(before, events, s.events);
      }
      if code != Fine {
        if code != TooLong {
          Reset();
        }
      } else if !now.Lost? {
        FedToEnd(cap, st, data, events + s.events, Abs(), data[parsed + copy..]);
      }
    }

    lemma MoreDelivered(before: seq<Event>, events: seq<Event>, more: seq<Event>)
      requires delivered == before + events + more
      ensures delivered[|before|..] == events + more && before <= delivered && delivered == before + (events + more)
    {
    }

    /** `pk_parser_parse`: takes in data as the buffer has room; an error resets the parser,
        except that a full buffer leaves it as it is. Without an error all of the data was taken. */
    method Parse(data: string) returns (code: Code, parsed: nat)
      requires Valid()
      modifies this, buf
      ensures Valid() && Fed(buf.Length, old(Abs()), data, old(delivered), code)
      ensures code == Fine ==> parsed == |data|
    {
      hide Fed, Feeding, Valid, Abs;
      ghost var cap, st, before := buf.Length, Abs(), delivered;
      parsed := 0;
      FeedingStart(cap, data);
      assert data[0..] == data;
      while parsed < |data|
        invariant parsed <= |data| && Valid() && Feeding(cap, st, data, before, data[parsed..])
      {
        FeedingEnd(cap, st, data, before, data[parsed..]);
        if bytesLeft <= 0 {
          return NoMemory, parsed;
        }
        var copy;
        code, copy := TakePiece(data, parsed, st, before);
        if code != Fine {
          return;
        }
        parsed := parsed + copy;
      }
      FeedingEnd(cap, st, data, before, data[parsed..]);
      return Fine, parsed;
    }
  }
}
