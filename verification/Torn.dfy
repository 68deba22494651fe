/** What becomes of a stream of frames that goes on in the middle of one, as it does when a write
    fails half way and the connection stays open. */
module Torn {
  import opened Text
  import opened Wire
  import opened Fields
  import opened ParserSpec
  import opened SplitInvariance
  import opened Acceptance
  import opened Printers
  import opened Items

  /** When all of this arrived, cut up anyhow, the remote end has exactly these items, and is
      ready for more. */
  ghost predicate Arrives(cap: nat, pieces: seq<string>, items: seq<Item>) {
    var s := FeedAll(cap, Hold(""), pieces);
    s.code == Fine && s.st == Hold("") && Receive(Nothing, s.events) == Received(AllCarried(items), Nothing)
  }

  /** Frames that begin with `good` and have one more hold that one last. */
  lemma LastFrame(cap: nat, good: seq<string>, frames: seq<string>, x: string)
    requires AllWellFormed(good, cap) && AllWellFormed(frames, cap) && |frames| == |good| + 1
    requires Concat(frames) == Concat(good) + x
    ensures WellFormed(x, cap) && frames == good + [x]
  {
    hide WellFormed, Concat;
    OneReading(cap, good, frames, Concat(frames));
    var last := frames[|good|];
    assert frames == good + [last];
    ConcatAppend(good, [last]);
    ConcatOne(last);
    assert Concat(frames)[|Concat(good)|..] == x && (Concat(good) + last)[|Concat(good)|..] == last;
  }

  lemma ConcatOne(x: string)
    ensures Concat([x]) == x
  {
    assert [x][1..] == [] && x + "" == x;
  }

  lemma LastCarried(cap: nat, frames: seq<string>, items: seq<Item>)
    requires AllWellFormed(frames, cap) && AllDelivered(frames, cap) == AllCarried(items) && items != []
    ensures |frames| == |items| && MessageOf(frames[|frames| - 1], cap) == Carried(items[|items| - 1])
  {
    hide WellFormed, MessageOf, Carried;
    DeliveredAt(cap, frames, |frames| - 1);
    CarriedAt(items, |items| - 1);
  }

  lemma {:induction false} DeliveredAt(cap: nat, frames: seq<string>, i: nat)
    requires AllWellFormed(frames, cap) && i < |frames|
    ensures AllDelivered(frames, cap)[i] == MessageOf(frames[i], cap)
  {
    hide WellFormed, MessageOf;
    if i > 0 {
      DeliveredAt(cap, frames[1..], i - 1);
    }
  }

  lemma {:induction false} CarriedAt(items: seq<Item>, i: nat)
    requires i < |items|
    ensures AllCarried(items)[i] == Carried(items[i])
  {
    hide Carried;
    if i > 0 {
      CarriedAt(items[1..], i - 1);
    }
  }

  lemma FramesThen(cap: nat, good: seq<Item>, x: string)
    requires AllSendable(good, cap) && WellFormed(x, cap)
    ensures AllWellFormed(Frames(good) + [x], cap)
    ensures Concat(Frames(good) + [x]) == Concat(Frames(good)) + x
    ensures AllDelivered(Frames(good) + [x], cap) == AllCarried(good) + [MessageOf(x, cap)]
  {
    hide WellFormed, MessageOf, Sendable, Frames, AllCarried, Concat;
    FramesAreSendable(good, cap);
    ConcatAppend(Frames(good), [x]);
    ConcatOne(x);
    AllDeliveredAppend(Frames(good), [x], cap);
    assert [x][1..] == [] && AllDelivered([x], cap) == [MessageOf(x, cap)];
  }

  lemma CarriedSnoc(items: seq<Item>, next: Item)
    ensures AllCarried(items + [next]) == AllCarried(items) + [Carried(next)]
  {
    hide Carried;
    var all := items + [next];
    forall i | 0 <= i < |all|
      ensures AllCarried(all)[i] == (AllCarried(items) + [Carried(next)])[i]
    {
      CarriedAt(all, i);
      if i < |items| {
        CarriedAt(items, i);
      }
    }
  }

  /** What comes behind the good frames is read as one more item, if and only if it is a frame
      with that message. */
  lemma ArrivesIf(cap: nat, good: seq<Item>, x: string, next: Item, pieces: seq<string>)
    requires 0 < cap && AllSendable(good, cap) && Concat(pieces) == Concat(Frames(good)) + x
    ensures Arrives(cap, pieces, good + [next]) <==> WellFormed(x, cap) && MessageOf(x, cap) == Carried(next)
  {
    hide WellFormed, MessageOf, Sendable, FeedAll, Receive, Carried, AllDelivered, AllCarried, Concat, Frames;
    CarriedSnoc(good, next);
    if WellFormed(x, cap) && MessageOf(x, cap) == Carried(next) {
      FramesThen(cap, good, x);
      SplitInvariance.SplitInvariance(cap, Frames(good) + [x], pieces);
    }
    if Arrives(cap, pieces, good + [next]) {
      var frames := OnlyFrames(cap, pieces);
      FramesAreSendable(good, cap);
      LastFrame(cap, Frames(good), frames, x);
      LastCarried(cap, frames, good + [next]);
    }
  }

  // ---- how a frame begins -----------------------------------------------------------

  function BodyOf(i: Item): string {
    match i
    case Chunk(sid, data) => "SID: " + sid + "\r\n\r\n" + data
    case Ending(sid, read, write) => "SID: " + sid + ("\r\nEOF: " + EofText(read, write) + "\r\n\r\n")
    case Progress(sid, kilobytes) => "NOOP: 1\r\nSID: " + sid + ("\r\nSKB: " + Dec(kilobytes) + "\r\n\r\n")
    case Pinging => "NOOP: 1" + "" + "\r\nPING: 1\r\n\r\n"
    case Ponging => "NOOP: 1" + "" + "\r\n\r\n"
  }

  /** The digits of its length line. */
  function LengthOf(i: Item): string {
    Hex(|BodyOf(i)|)
  }

  lemma Regroup(x: string, y: string, z: string)
    ensures x + y + z == x + (y + z)
  {
  }

  lemma Regrouped(head: string, a: string, b: string, c: string, d: string)
    ensures head + a + b + c + d == head + (a + b + c + d)
  {
    Regroup(head, a, b);
    Regroup(head, a + b, c);
    Regroup(head, a + b + c, d);
  }

  lemma FrameTextIs(before: string, sid: string, after: string, data: string)
    ensures FrameText(before, sid, after, |data|) + data
            == Hex(|before + sid + after + data|) + CRLF + (before + sid + after + data)
  {
    var n := |before| + |sid| + |after| + |data|;
    assert n == |before + sid + after + data|;
    var head := Hex(n) + CRLF;
    assert FrameText(before, sid, after, |data|) == head + before + sid + after;
    Regrouped(head, before, sid, after, data);
  }

  lemma NothingMore(s: string)
    ensures s + "" == s
  {
  }

  lemma FrameIs(i: Item)
    ensures FrameOf(i) == LengthOf(i) + CRLF + BodyOf(i) && 4 <= |BodyOf(i)|
  {
    hide Hex, Dec, EofText, FrameText;
    match i {
      case Chunk(sid, data) =>
        FrameTextIs("SID: ", sid, "\r\n\r\n", data);
      case Ending(sid, read, write) =>
        var after := "\r\nEOF: " + EofText(read, write) + "\r\n\r\n";
        FrameTextIs("SID: ", sid, after, "");
        NothingMore(FrameText("SID: ", sid, after, 0));
        NothingMore("SID: " + sid + after);
      case Progress(sid, kilobytes) =>
        var after := "\r\nSKB: " + Dec(kilobytes) + "\r\n\r\n";
        FrameTextIs("NOOP: 1\r\nSID: ", sid, after, "");
        NothingMore(FrameText("NOOP: 1\r\nSID: ", sid, after, 0));
        NothingMore("NOOP: 1\r\nSID: " + sid + after);
      case Pinging =>
        FrameTextIs("NOOP: 1", "", "\r\nPING: 1\r\n\r\n", "");
        NothingMore(PING_FRAME);
        NothingMore("NOOP: 1" + "" + "\r\nPING: 1\r\n\r\n");
      case Ponging =>
        FrameTextIs("NOOP: 1", "", "\r\n\r\n", "");
        NothingMore(PONG_FRAME);
        NothingMore("NOOP: 1" + "" + "\r\n\r\n");
    }
  }

  /** Where the header lines of a sendable item lie. */
  lemma ItemParts(i: Item, cap: nat)
    requires Sendable(i, cap)
    ensures FrameOf(i) == LengthOf(i) + CRLF + BodyOf(i) && 4 <= |BodyOf(i)|
    ensures WellFormed(FrameOf(i), cap) && FrameHeadOf(FrameOf(i)) == Head(|LengthOf(i)| + 2, |BodyOf(i)|)
    ensures HeaderEnd(BodyOf(i)) != 0
    ensures Carried(i) == Message(ApplyAll(NO_HEADERS, HeaderLines(BodyOf(i))), BodyOf(i)[HeaderEnd(BodyOf(i))..])
  {
    FrameIs(i);
    ItemReads(i, cap);
    hide FrameOf, BodyOf, Carried, HeaderEnd, HeaderLines, ApplyAll, FrameHeadOf, Sendable;
    HeadIs(LengthOf(i), BodyOf(i));
    var f, b := FrameOf(i), BodyOf(i);
    assert f[|LengthOf(i)| + 2..] == b;
    assert f[DataStart(f, cap)..] == b[HeaderEnd(b)..];
  }

  /** A line of digits is a length line. */
  lemma HeadIs(digits: string, body: string)
    requires digits == Hex(|body|) && |body| < TWO_63
    ensures FrameHeadOf(digits + CRLF + body) == Head(|digits| + 2, |body|)
  {
    hide Hex, ScanHex, CrlfEnd, UpToNul;
    ScanHexOfHex(|body|);
    NoCrNoCrlf(digits);
    CrlfAfterLine(digits, body);
    UpToNulNone(digits);
    assert (digits + CRLF + body)[..|digits|] == digits;
  }

  // ---- cut inside the length line ---------------------------------------------------

  lemma {:induction false} MoreDigits(a: string, b: string)
    requires AllDigits(a, 16) && AllDigits(b, 16) && RunValue(a, 16) > 0
    ensures AllDigits(a + b, 16) && RunValue(a + b, 16) > RunValue(b, 16)
    decreases |b|
  {
    hide DigitValue, RunValue, AllDigits;
    EmptyRun(16);
    if b == "" {
      assert a + b == a;
    } else {
      var b0, c := b[..|b| - 1], b[|b| - 1];
      LastDigit(b);
      MoreDigits(a, b0);
      RunValueSnoc(a + b0, c, 16);
      RunValueSnoc(b0, c, 16);
      assert a + b == a + b0 + [c] && b == b0 + [c];
    }
  }

  lemma LastDigit(b: string)
    requires b != "" && AllDigits(b, 16)
    ensures AllDigits(b[..|b| - 1], 16) && DigitValue(b[|b| - 1], 16) >= 0
  {
  }

  lemma {:induction false} FirstDigits(n: nat, k: nat)
    requires 0 < n && 0 < k <= |Hex(n)|
    ensures AllDigits(Hex(n)[..k], 16) && RunValue(Hex(n)[..k], 16) > 0
  {
    HexDigitsAreHex(n);
    if k == |Hex(n)| {
      assert Hex(n)[..k] == Hex(n);
    } else {
      FirstDigits(n / 16, k);
      assert Hex(n)[..k] == Hex(n / 16)[..k];
    }
  }

  lemma OtherValue(n: nat, m: nat)
    requires n > m
    ensures HexValue(false, n) != m
  {
  }

  lemma LineHead(line: string, body: string)
    requires NoCrlf(line) && NUL !in line
    ensures CrlfEnd(line + CRLF + body) == |line| + 2
    ensures FrameHeadOf(line + CRLF + body) ==
            match ScanHex(line)
            case None => BadHead
            case Some(v) => Head(|line| + 2, v)
  {
    hide ScanHex, CrlfEnd, UpToNul, NoCrlf;
    CrlfAfterLine(line, body);
    UpToNulNone(line);
    assert (line + CRLF + body)[..|line|] == line;
  }

  lemma DigitsHead(digits: string, body: string)
    requires digits != "" && AllDigits(digits, 16) && 'x' !in digits && 'X' !in digits
    ensures FrameHeadOf(digits + CRLF + body) == Head(|digits| + 2, HexValue(false, RunValue(digits, 16)))
  {
    DigitsAreOrdinary(digits, 16);
    NoCrNoCrlf(digits);
    hide HexValue, RunValue, AllDigits, ScanHex, NoCrlf, FrameHeadOf, IsSpace;
    PlainHex(digits);
    LineHead(digits, body);
  }

  /** Some of the digits of one length, and then those of another, are digits of a larger one. */
  lemma MixedDigits(n: nat, took: nat, m: nat)
    requires 0 < n && 0 < took <= |Hex(n)|
    ensures var d := Hex(n)[..took] + Hex(m);
            d != "" && AllDigits(d, 16) && RunValue(d, 16) > m && 'x' !in d && 'X' !in d
  {
    hide Hex, RunValue, AllDigits;
    FirstDigits(n, took);
    HexDigitsAreHex(n);
    HexDigitsAreHex(m);
    MoreDigits(Hex(n)[..took], Hex(m));
    assert forall c :: c in Hex(n)[..took] ==> c in Hex(n);
  }

  /** Digits before the digits of a length make it another length. */
  lemma InsideDigits(cap: nat, n: nat, took: nat, body: string)
    requires 0 < n && 0 < took <= |Hex(n)|
    ensures !WellFormed(Hex(n)[..took] + (Hex(|body|) + CRLF + body), cap)
  {
    hide Hex, HexValue, RunValue, AllDigits;
    MixedDigits(n, took, |body|);
    var digits := Hex(n)[..took] + Hex(|body|);
    assert Hex(n)[..took] + (Hex(|body|) + CRLF + body) == digits + CRLF + body;
    OtherValue(RunValue(digits, 16), |body|);
    OtherLength(cap, digits, body);
  }

  lemma OtherLength(cap: nat, digits: string, body: string)
    requires digits != "" && AllDigits(digits, 16) && 'x' !in digits && 'X' !in digits
    requires HexValue(false, RunValue(digits, 16)) != |body|
    ensures !WellFormed(digits + CRLF + body, cap)
  {
    DigitsHead(digits, body);
    hide HexValue, RunValue, AllDigits, HeaderEnd, FrameHeadOf;
  }

  lemma {:induction false} DigitRunStops(d: string, rest: string)
    requires AllDigits(d, 16) && rest != "" && DigitValue(rest[0], 16) < 0
    ensures DigitRun(d + rest, 16) == d
  {
    if d == "" {
      assert d + rest == rest;
    } else {
      assert (d + rest)[1..] == d[1..] + rest;
      DigitRunStops(d[1..], rest);
    }
  }

  /** What is behind a carriage return does not count. */
  lemma ScanUpToCr(d: string, rest: string)
    requires d != "" && AllDigits(d, 16) && 'x' !in d && 'X' !in d
    ensures ScanHex(d + "\r" + rest) == Some(HexValue(false, RunValue(d, 16)))
  {
    hide RunValue, AllDigits, DigitRun, DigitValue, SkipSpaces, HexValue, IsSpace;
    DigitsAreOrdinary(d, 16);
    var s, r := d + "\r" + rest, "\r" + rest;
    CrIsNoDigit();
    assert s == d + r && s[0] == d[0];
    DigitRunStops(d, r);
    assert |s| >= 2 ==> s[1] == '\r' || s[1] in d;
    ScanPlainRun(s, d);
  }

  lemma CrIsNoDigit()
    ensures DigitValue('\r', 16) < 0
  {
  }

  lemma ScanPlainRun(s: string, d: string)
    requires s != "" && !IsSpace(s[0]) && s[0] != '-' && s[0] != '+' && (|s| >= 2 ==> s[1] != 'x' && s[1] != 'X')
    requires d != "" && DigitRun(s, 16) == d
    ensures ScanHex(s) == Some(HexValue(false, RunValue(d, 16)))
  {
    hide RunValue, AllDigits, DigitRun, DigitValue, SkipSpaces, HexValue, IsSpace;
    var t := SkipSpaces(s);
    assert t == s;
  }

  lemma CrInTheMiddle(a: string, b: string)
    requires '\r' !in a && '\r' !in b && b != "" && b[0] != '\n'
    ensures NoCrlf(a + "\r" + b)
  {
    var s := a + "\r" + b;
    forall i | 0 <= i < |s| - 1
      ensures !(s[i] == '\r' && s[i + 1] == '\n')
    {
      assert i < |a| ==> s[i] == a[i];
      assert i == |a| ==> s[i + 1] == b[0];
      assert i > |a| ==> s[i] == b[i - |a| - 1];
    }
  }

  /** Two length lines with only a carriage return between them read as the first. */
  lemma CrHead(n: nat, b: string, body: string)
    requires n < TWO_63 && b != "" && AllDigits(b, 16)
    ensures FrameHeadOf(Hex(n) + "\r" + b + CRLF + body) == Head(|Hex(n)| + 1 + |b| + 2, n)
  {
    var a := Hex(n);
    HexDigitsAreHex(n);
    DigitsAreOrdinary(a, 16);
    DigitsAreOrdinary(b, 16);
    hide Hex, RunValue, AllDigits, ScanHex, HexValue, FrameHeadOf, NoCrlf, IsSpace, DigitValue;
    ScanUpToCr(a, b);
    SmallHex(n);
    CrInTheMiddle(a, b);
    LineHead(a + "\r" + b, body);
  }

  /** The parser can take the item even if its frame is `more` bytes longer. */
  ghost predicate Room(i: Item, more: nat, cap: nat) {
    var n := more + |FrameOf(i)|;
    n <= INT_MAX && (n <= cap || n - |Carried(i).data| < cap)
  }

  /** The same body behind a length line that is `more` bytes longer is the same message, if the
      length is right and there is room for it. */
  lemma SameBody(cap: nat, x: string, more: nat, length: nat, next: Item)
    requires Sendable(next, cap) && |x| == more + |FrameOf(next)|
    requires var hdr := more + |LengthOf(next)| + 2;
             hdr <= |x| && FrameHeadOf(x) == Head(hdr, length) && x[hdr..] == BodyOf(next)
    ensures (WellFormed(x, cap) && MessageOf(x, cap) == Carried(next))
            <==> length == |BodyOf(next)| && Room(next, more, cap)
  {
    hide FrameOf, BodyOf, LengthOf, Carried, HeaderEnd, HeaderLines, ApplyAll, FrameHeadOf, Sendable, CrlfEnd, Hex;
    ItemParts(next, cap);
    var hdr, body := more + |LengthOf(next)| + 2, BodyOf(next);
    var k := HeaderEnd(body);
    assert |Carried(next).data| == |body| - k;
    if length == |body| && Room(next, more, cap) {
      assert WellFormed(x, cap);
    }
    if WellFormed(x, cap) {
      assert x[hdr + k..] == body[k..];
    }
  }

  lemma BodyIsShort(i: Item, cap: nat)
    requires Sendable(i, cap)
    ensures |BodyOf(i)| < INT_MAX
  {
    FrameIs(i);
    hide FrameOf, BodyOf, Hex;
  }

  lemma AtCarriageReturn(cap: nat, torn: Item, next: Item)
    requires Sendable(torn, cap) && Sendable(next, cap)
    ensures var took := |LengthOf(torn)| + 1;
            var x := FrameOf(torn)[..took] + FrameOf(next);
            (WellFormed(x, cap) && MessageOf(x, cap) == Carried(next))
            <==> |BodyOf(torn)| == |BodyOf(next)| && Room(next, took, cap)
  {
    hide FrameOf, BodyOf, Carried, HeaderEnd, HeaderLines, ApplyAll, FrameHeadOf, Sendable, Hex, AllDigits, RunValue;
    hide WellFormed, MessageOf, CrlfEnd, UpToNul, ScanHex, Room;
    ItemParts(torn, cap);
    ItemParts(next, cap);
    BodyIsShort(torn, cap);
    var a, b, body := LengthOf(torn), LengthOf(next), BodyOf(next);
    HexDigitsAreHex(|body|);
    var took := |a| + 1;
    var x := FrameOf(torn)[..took] + FrameOf(next);
    assert FrameOf(torn)[..took] == a + "\r";
    assert x == a + "\r" + b + CRLF + body;
    CrHead(|BodyOf(torn)|, b, body);
    assert x[took + |b| + 2..] == body;
    SameBody(cap, x, took, |BodyOf(torn)|, next);
  }

  lemma DigitsOnly(torn: Item, took: nat, next: Item)
    requires took <= |LengthOf(torn)|
    ensures took <= |FrameOf(torn)|
    ensures FrameOf(torn)[..took] + FrameOf(next)
            == Hex(|BodyOf(torn)|)[..took] + (Hex(|BodyOf(next)|) + CRLF + BodyOf(next))
  {
    FrameIs(torn);
    FrameIs(next);
    hide FrameOf, BodyOf, Hex;
    assert FrameOf(torn)[..took] == LengthOf(torn)[..took];
  }

  /** A frame was cut inside its length line, and then the next item was written, all the same:
      that one arrives if and only if nothing of the line went out, or just its digits and the
      carriage return, if the next body is of the same length. */
  lemma TornInLengthLine(cap: nat, good: seq<Item>, torn: Item, took: nat, next: Item, pieces: seq<string>)
    requires 0 < cap && AllSendable(good, cap) && Sendable(torn, cap) && Sendable(next, cap)
    requires took < |LengthOf(torn)| + 2 && took <= |FrameOf(torn)|
    requires Concat(pieces) == Concat(Frames(good)) + FrameOf(torn)[..took] + FrameOf(next)
    ensures Arrives(cap, pieces, good + [next]) <==>
            || took == 0
            || (took == |LengthOf(torn)| + 1 && |BodyOf(torn)| == |BodyOf(next)| && Room(next, took, cap))
  {
    hide WellFormed, MessageOf, Arrives, Concat, Frames, BodyOf, Room, Sendable, FrameOf, Carried, Hex;
    var x := FrameOf(torn)[..took] + FrameOf(next);
    assert Concat(pieces) == Concat(Frames(good)) + x;
    ArrivesIf(cap, good, x, next, pieces);
    if took == 0 {
      assert x == FrameOf(next);
      ItemReads(next, cap);
    } else if took <= |LengthOf(torn)| {
      FrameIs(torn);
      DigitsOnly(torn, took, next);
      InsideDigits(cap, |BodyOf(torn)|, took, BodyOf(next));
    } else {
      AtCarriageReturn(cap, torn, next);
    }
  }

  /** A ping of which three bytes went out, and another ping: it arrives. */
  lemma TornPingArrives(cap: nat, good: seq<Item>, pieces: seq<string>)
    requires 32 < cap && AllSendable(good, cap)
    requires Concat(pieces) == Concat(Frames(good)) + FrameOf(Pinging)[..3] + FrameOf(Pinging)
    ensures Arrives(cap, pieces, good + [Pinging])
  {
    hide Arrives, Concat, Frames;
    assert Hex(20) == "14" by {
      assert Hex(1) == "1";
    }
    assert LengthOf(Pinging) == "14";
    FrameIs(Pinging);
    TornInLengthLine(cap, good, Pinging, 3, Pinging, pieces);
  }

  // ---- cut just behind it -----------------------------------------------------------

  lemma {:induction false} OthersGrow(h: Headers, lines: seq<string>)
    ensures |ApplyAll(h, lines).others| >= |h.others|
    decreases |lines|
  {
    hide Classify, ScanField, UpToNul;
    if lines != [] {
      OthersGrow(Apply(h, lines[0]), lines[1..]);
    }
  }

  lemma DigitsAreNoField(b: string)
    requires b != "" && AllDigits(b, 16)
    ensures Classify(b) == Extra
  {
    assert DigitValue(b[0], 16) >= 0;
    assert |b| >= 2 ==> DigitValue(b[1], 16) >= 0;
  }

  /** The next length line would be a header line. */
  lemma TornBehindLengthLine(cap: nat, good: seq<Item>, torn: Item, took: nat, next: Item, pieces: seq<string>)
    requires 0 < cap && AllSendable(good, cap) && Sendable(torn, cap) && Sendable(next, cap)
    requires took == |LengthOf(torn)| + 2 <= |FrameOf(torn)|
    requires Concat(pieces) == Concat(Frames(good)) + FrameOf(torn)[..took] + FrameOf(next)
    ensures !Arrives(cap, pieces, good + [next])
  {
    hide WellFormed, MessageOf, Arrives, Concat, Frames, FrameOf, BodyOf, Carried, Sendable, HeaderEnd;
    hide FrameHeadOf, HeaderLines, ApplyAll, Hex, CrlfEnd;
    var x := FrameOf(torn)[..took] + FrameOf(next);
    ItemParts(torn, cap);
    ItemParts(next, cap);
    assert Concat(pieces) == Concat(Frames(good)) + x;
    ArrivesIf(cap, good, x, next, pieces);
    FrameHeadPrefix(FrameOf(torn), took);
    assert x[..took] == FrameOf(torn)[..took] && x[took..] == FrameOf(next);
    FrameHeadPrefix(x, took);
    NoOthers(next);
    if WellFormed(x, cap) {
      LengthAsHeader(cap, x, took, LengthOf(next), BodyOf(next));
    }
  }

  lemma NoOthers(i: Item)
    ensures Carried(i).headers.others == []
  {
    hide EofText;
  }

  lemma LengthAsHeader(cap: nat, x: string, hdr: nat, b: string, body: string)
    requires WellFormed(x, cap) && FrameHeadOf(x).hdr == hdr && x[hdr..] == b + CRLF + body && b == Hex(|body|)
    ensures MessageOf(x, cap).headers.others != []
  {
    hide Hex, HeaderEnd, HeaderLines, ApplyAll, FrameHeadOf;
    LengthLineFirst(b, body);
  }

  lemma LengthLineFirst(b: string, body: string)
    requires b == Hex(|body|) && HeaderEnd(b + CRLF + body) != 0
    ensures ApplyAll(NO_HEADERS, HeaderLines(b + CRLF + body)).others != []
  {
    hide Hex, HeaderEnd, HeaderLines, ApplyAll, CrlfEnd, Classify, AllDigits, RunValue, NoCrlf;
    var n := b + CRLF + body;
    HexDigitsAreHex(|body|);
    DigitsAreOrdinary(b, 16);
    NoCrNoCrlf(b);
    CrlfAfterLine(b, body);
    HeaderLinesUnfold(n);
    assert n[..|b|] == b;
    var lines := HeaderLines(n[|b| + 2..]);
    ApplyAllCons(NO_HEADERS, b, lines);
    ExtraDigits(b);
    OthersGrow(Apply(NO_HEADERS, b), lines);
  }

  lemma ExtraDigits(b: string)
    requires b != "" && AllDigits(b, 16)
    ensures |Apply(NO_HEADERS, b).others| == 1
  {
    DigitsAreNoField(b);
    hide Classify, UpToNul, AllDigits;
  }

  // ---- cut behind the length line ---------------------------------------------------

  /** What the remote end takes for the frame: what went out of it, and as much of what came
      next as is missing. */
  function Made(torn: Item, took: nat, rest: string): (made: string)
    requires took <= |FrameOf(torn)| <= took + |rest|
    ensures |made| == |FrameOf(torn)|
  {
    FrameOf(torn)[..took] + rest[..|FrameOf(torn)| - took]
  }

  /** A frame that was cut behind its length line is filled up from whatever is written next: if
      its header lines are closed it is the next message, whatever comes then. */
  lemma TornIsFilledUp(cap: nat, good: seq<Item>, torn: Item, took: nat, rest: string, pieces: seq<string>)
    requires 0 < cap && AllSendable(good, cap) && took <= |FrameOf(torn)| <= took + |rest|
    requires Concat(pieces) == Concat(Frames(good)) + FrameOf(torn)[..took] + rest
    requires WellFormed(Made(torn, took, rest), cap)
    ensures AllCarried(good) + [MessageOf(Made(torn, took, rest), cap)]
            <= Receive(Nothing, FeedAll(cap, Hold(""), pieces).events).messages
  {
    hide WellFormed, MessageOf, FeedAll, Receive, AllCarried, AllDelivered, Frames, Concat, FrameOf, Sendable;
    var made := Made(torn, took, rest);
    FramesThen(cap, good, made);
    var g, n := Concat(Frames(good)), |FrameOf(torn)| - took;
    assert Concat(pieces) == g + made + rest[n..];
    FirstMessages(cap, Frames(good) + [made], pieces);
  }

  /** The header lines of it are closed, and it fits, or it is no frame. */
  lemma MadeIsAFrame(cap: nat, torn: Item, took: nat, rest: string)
    requires Sendable(torn, cap) && |LengthOf(torn)| + 2 <= took <= |FrameOf(torn)| <= took + |rest|
    ensures var made, hdr := Made(torn, took, rest), |LengthOf(torn)| + 2;
            && FrameHeadOf(made) == Head(hdr, |made| - hdr)
            && (WellFormed(made, cap) <==>
                  && HeaderEnd(made[hdr..]) != 0
                  && (|made| <= cap || hdr + HeaderEnd(made[hdr..]) < cap))
  {
    hide FrameOf, BodyOf, Sendable, HeaderEnd, FrameHeadOf, Hex;
    ItemParts(torn, cap);
    TotalLength(torn, cap);
    var made := Made(torn, took, rest);
    FrameHeadPrefix(FrameOf(torn), took);
    assert made[..took] == FrameOf(torn)[..took];
    FrameHeadPrefix(made, took);
  }

  lemma TotalLength(i: Item, cap: nat)
    requires Sendable(i, cap)
    ensures |FrameOf(i)| == |LengthOf(i)| + 2 + |BodyOf(i)| <= INT_MAX
  {
    hide Hex, BodyOf;
    FrameIs(i);
  }

  /** If it is no frame, the remote end is not idle without an error. */
  lemma TornIsAnError(cap: nat, good: seq<Item>, torn: Item, took: nat, rest: string, pieces: seq<string>)
    requires 0 < cap && AllSendable(good, cap) && Sendable(torn, cap)
    requires |LengthOf(torn)| + 2 <= took <= |FrameOf(torn)| == took + |rest|
    requires Concat(pieces) == Concat(Frames(good)) + FrameOf(torn)[..took] + rest
    requires !WellFormed(Made(torn, took, rest), cap)
    ensures var s := FeedAll(cap, Hold(""), pieces);
            !(s.code == Fine && s.st == Hold(""))
  {
    hide WellFormed, MessageOf, FeedAll, Receive, AllDelivered, Frames, Concat, FrameOf, Sendable, LengthOf;
    var s := FeedAll(cap, Hold(""), pieces);
    if s.code == Fine && s.st == Hold("") {
      var made := Made(torn, took, rest);
      assert rest[..|rest|] == rest;
      var frames := OnlyFrames(cap, pieces);
      FramesAreSendable(good, cap);
      assert Concat(frames) == Concat(Frames(good)) + made;
      MadeIsAFrame(cap, torn, took, rest);
      WholeOrNothing(cap, Frames(good), frames, made, |LengthOf(torn)| + 2);
    }
  }

  /** A string whose length line counts all of it is one frame, if it is any number of them. */
  lemma WholeOrNothing(cap: nat, good: seq<string>, frames: seq<string>, x: string, hdr: nat)
    requires AllWellFormed(good, cap) && AllWellFormed(frames, cap) && x != ""
    requires Concat(frames) == Concat(good) + x && FrameHeadOf(x) == Head(hdr, |x| - hdr)
    ensures WellFormed(x, cap)
  {
    hide WellFormed, FrameHeadOf, Concat;
    var n := |good|;
    if |frames| <= n {
      FewerAreShorter(cap, frames, good, Concat(frames));
      assert false;
    }
    OneReading(cap, good, frames, Concat(frames));
    assert frames == good + frames[n..];
    ConcatAppend(good, frames[n..]);
    assert (Concat(good) + Concat(frames[n..]))[|Concat(good)|..] == Concat(frames[n..]);
    assert (Concat(good) + x)[|Concat(good)|..] == x;
    ConcatFirst(frames[n..]);
    SameHead(cap, frames[n], x, hdr);
  }

  lemma FewerAreShorter(cap: nat, a: seq<string>, b: seq<string>, s: string)
    requires AllWellFormed(a, cap) && AllWellFormed(b, cap) && |a| <= |b| && Concat(a) <= s && Concat(b) <= s
    ensures |Concat(a)| <= |Concat(b)|
  {
    hide WellFormed, Concat;
    OneReading(cap, a, b, s);
    ConcatAppend(a, b[|a|..]);
    assert b == a + b[|a|..];
  }

  lemma ConcatFirst(fs: seq<string>)
    requires fs != []
    ensures fs[0] <= Concat(fs)
  {
  }

  lemma SameHead(cap: nat, f: string, x: string, hdr: nat)
    requires WellFormed(f, cap) && f <= x && FrameHeadOf(x) == Head(hdr, |x| - hdr)
    ensures f == x
  {
    hide FrameHeadOf, HeaderEnd;
    assert x[..|f|] == f;
    FrameHeadPrefix(x, |f|);
  }

  // ---- a chunk that was cut ---------------------------------------------------------

  /** A chunk is cut behind its header: the remote end reports it with data that is made up from
      whatever is written next, and then reads on from there. */
  lemma TornChunkIsFilledUp(cap: nat, good: seq<Item>, sid: string, data: string, k: nat, rest: string,
                            pieces: seq<string>)
    requires 0 < cap && AllSendable(good, cap) && Sendable(Chunk(sid, data), cap) && k <= |data| <= k + |rest|
    requires Concat(pieces) == Concat(Frames(good)) + (ReplyHeader(sid, |data|) + data[..k]) + rest
    ensures AllCarried(good) + [Carried(Chunk(sid, data[..k] + rest[..|data| - k]))]
            <= Receive(Nothing, FeedAll(cap, Hold(""), pieces).events).messages
  {
    hide FeedAll, Receive, AllCarried, ReplyHeader, Carried, Concat, Sendable, Frames, FrameOf;
    hide WellFormed, MessageOf, Made;
    var torn, made := Chunk(sid, data), Chunk(sid, data[..k] + rest[..|data| - k]);
    MadeChunk(cap, sid, data, k, rest);
    ItemReads(made, cap);
    TornIsFilledUp(cap, good, torn, |ReplyHeader(sid, |data|)| + k, rest, pieces);
  }

  lemma MadeChunk(cap: nat, sid: string, data: string, k: nat, rest: string)
    requires Sendable(Chunk(sid, data), cap) && k <= |data| <= k + |rest|
    ensures var torn, made := Chunk(sid, data), Chunk(sid, data[..k] + rest[..|data| - k]);
            var took := |ReplyHeader(sid, |data|)| + k;
            && Sendable(made, cap) && took <= |FrameOf(torn)| <= took + |rest|
            && FrameOf(torn)[..took] == ReplyHeader(sid, |data|) + data[..k]
            && Made(torn, took, rest) == FrameOf(made)
  {
    hide ReplyHeader, GoodSid;
    var torn, made := Chunk(sid, data), Chunk(sid, data[..k] + rest[..|data| - k]);
    var header := ReplyHeader(sid, |data|);
    assert FrameOf(torn)[..|header| + k] == header + data[..k];
    Regroup(header, data[..k], rest[..|data| - k]);
  }

  /** A stream of frames that goes on in the data of one is not read as these frames and what it
      goes on with. */
  lemma TornIsNotNext(cap: nat, torn: Item, took: nat, next: Item)
    requires Sendable(torn, cap) && Sendable(next, cap) && torn.Chunk?
    requires |ReplyHeader(torn.sid, |torn.data|)| <= took < |FrameOf(torn)|
    requires WellFormed(FrameOf(torn)[..took] + FrameOf(next), cap)
    ensures MessageOf(FrameOf(torn)[..took] + FrameOf(next), cap) != Carried(next)
  {
    hide FrameHeadOf, HeaderEnd, HeaderLines, ApplyAll, CrlfEnd, Reply, ReplyHeader, EofFrame, SkbFrame, NoCrlf;
    var f, n := FrameOf(torn), FrameOf(next);
    var x := f[..took] + n;
    ReplyReads(torn.sid, torn.data, cap);
    ItemReads(next, cap);
    var hd := FrameHeadOf(f);
    var k := DataStart(f, cap);
    FrameHeadPrefix(f, took);
    assert x[..took] == f[..took];
    FrameHeadPrefix(x, took);
    HeaderEndPrefix(f[hd.hdr..], k - hd.hdr);
    assert f[hd.hdr..][..k - hd.hdr] == x[hd.hdr..][..k - hd.hdr];
    HeaderEndExtend(x[hd.hdr..], k - hd.hdr);
    assert DataStart(x, cap) == k;
    assert |MessageOf(x, cap).data| >= |n|;
    assert |MessageOf(n, cap).data| < |n|;
  }

  /** A chunk of which `took` bytes were written, its header or more, or nothing, and then, all
      the same, the next item: that one arrives if and only if nothing went out before. */
  lemma TornOrNot(cap: nat, good: seq<Item>, torn: Item, took: nat, next: Item, pieces: seq<string>)
    requires 0 < cap && AllSendable(good, cap) && Sendable(torn, cap) && Sendable(next, cap) && torn.Chunk?
    requires took == 0 || |ReplyHeader(torn.sid, |torn.data|)| <= took < |FrameOf(torn)|
    requires took <= |FrameOf(torn)| && Concat(pieces) == Concat(Frames(good)) + FrameOf(torn)[..took] + FrameOf(next)
    ensures Arrives(cap, pieces, good + [next]) <==> took == 0
  {
    hide WellFormed, MessageOf, Arrives, Sendable, FrameOf, Carried, ReplyHeader, Concat, Frames;
    var x := FrameOf(torn)[..took] + FrameOf(next);
    assert Concat(pieces) == Concat(Frames(good)) + x;
    ArrivesIf(cap, good, x, next, pieces);
    ItemReads(next, cap);
    if took == 0 {
      assert x == FrameOf(next);
    } else if WellFormed(x, cap) {
      TornIsNotNext(cap, torn, took, next);
    }
  }
}
