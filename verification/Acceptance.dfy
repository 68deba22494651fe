/** The converse of SplitInvariance: a parser that is idle without an error was fed well-formed
    frames and nothing else, and there is only one way to read them. */
module Acceptance {
  import opened Text
  import opened Wire
  import opened ParserSpec
  import opened SplitInvariance

  /** Bytes behind closed header lines do not change them. */
  lemma {:induction false} HeaderEndExtend(s: string, m: nat)
    requires m <= |s| && HeaderEnd(s[..m]) != 0
    ensures HeaderEnd(s) == HeaderEnd(s[..m]) && HeaderLines(s) == HeaderLines(s[..m])
  {
    hide HeaderEnd, HeaderLines, CrlfEnd;
    var n := CrlfEnd(s[..m]);
    CrlfEndPrefix(s, m);
    HeaderEndUnfold(s);
    HeaderEndUnfold(s[..m]);
    if n > 2 {
      assert s[..m][..n - 2] == s[..n - 2];
      assert s[..m][n..] == s[n..][..m - n];
      HeaderEndExtend(s[n..], m - n);
      HeaderLinesUnfold(s);
      HeaderLinesUnfold(s[..m]);
    } else {
      HeaderLinesEnd(s);
      HeaderLinesEnd(s[..m]);
    }
  }

  /** `rest` begins with the length line and the header lines, `keep` bytes, of a frame that has
      `total` bytes of data. */
  ghost predicate Begun(cap: nat, rest: string, keep: nat, h: Headers, total: nat) {
    var f := FrameHeadOf(rest);
    && f.Head? && f.hdr < keep <= |rest| && keep <= cap && f.length == keep - f.hdr + total && keep + total <= INT_MAX
    && HeaderEnd(rest[f.hdr..keep]) == keep - f.hdr
    && h == ApplyAll(NO_HEADERS, HeaderLines(rest[f.hdr..keep]))
  }

  /** The parser and the receiver are in the middle of a frame of which `rest` is there. */
  ghost predicate Within(cap: nat, rest: string, st: State, p: Partial) {
    match st
    case Hold(raw) => raw == rest && p == Nothing
    case Frag(keep, h, total, offset) =>
      Begun(cap, rest, keep, h, total) && offset < total && |rest| == keep + offset
      && p == Part(KeepBackEof(h), rest[keep..])
    case Lost => false
  }

  /** What a step shows for: whole frames `more` with their messages, and `rest` of another. */
  ghost predicate Read(cap: nat, bytes: string, p: Partial, s: Step, more: seq<string>, rest: string) {
    s.code == Fine && s.st != Lost ==>
      && AllWellFormed(more, cap) && bytes == Concat(more) + rest
      && Receive(p, s.events).messages == AllDelivered(more, cap)
      && Within(cap, rest, s.st, Receive(p, s.events).partial)
  }

  lemma ReadNothing(cap: nat, bytes: string, p: Partial, st: State)
    requires Within(cap, bytes, st, p)
    ensures Read(cap, bytes, p, Step(st, [], Fine), [], bytes)
  {
    assert "" + bytes == bytes;
  }

  lemma ReadError(cap: nat, bytes: string, p: Partial, s: Step)
    ensures s.code != Fine || s.st == Lost ==> Read(cap, bytes, p, s, [], bytes)
  {
  }

  /** The frame f is complete: its event, and then whatever follows. */
  lemma ReadFirst(cap: nat, f: string, bytes: string, p: Partial, e: Event, s: Step, more: seq<string>, rest: string)
    requires WellFormed(f, cap) && Read(cap, bytes, Nothing, s, more, rest)
    requires e.offset == e.total && e.headers == MessageOf(f, cap).headers
    requires Joined(p, e) == MessageOf(f, cap).data
    ensures Read(cap, f + bytes, p, After(e, s), [f] + more, rest)
  {
    hide WellFormed, Within, MessageOf;
    var t := After(e, s);
    if s.code == Fine && s.st != Lost {
      assert t.events[0] == e && t.events[1..] == s.events;
      assert ([f] + more)[1..] == more;
      assert f + (Concat(more) + rest) == f + Concat(more) + rest;
    }
  }

  /** A frame that is held whole is well-formed, unless it is an error. */
  lemma HeldIsWellFormed(cap: nat, raw: string, hdr: nat, length: nat)
    requires FrameHeadOf(raw) == Head(hdr, length) && hdr + length <= |raw| <= cap && hdr + length <= INT_MAX
    requires HeaderEnd(raw[hdr..hdr + length]) != 0
    ensures WellFormed(raw[..hdr + length], cap)
  {
    hide FrameHeadOf, HeaderEnd, CrlfEnd;
    var f := raw[..hdr + length];
    FrameHeadPrefix(raw, |f|);
    assert f[hdr..] == raw[hdr..hdr + length];
  }

  /** So is one that was passed through. */
  lemma PassedIsWellFormed(cap: nat, rest: string, keep: nat, h: Headers, total: nat, f: string)
    requires Begun(cap, rest, keep, h, total) && keep < cap && |f| == keep + total && rest <= f
    ensures WellFormed(f, cap) && DataStart(f, cap) == keep && MessageOf(f, cap) == Message(h, f[keep..])
  {
    hide FrameHeadOf, HeaderEnd, HeaderLines, ApplyAll, CrlfEnd;
    var hdr := FrameHeadOf(rest).hdr;
    assert f[..|rest|] == rest;
    FrameHeadPrefix(f, |rest|);
    assert f[hdr..][..keep - hdr] == rest[hdr..keep];
    HeaderEndExtend(f[hdr..], keep - hdr);
  }

  /** A full buffer holds the beginning of a frame. */
  lemma FragmentIsBegun(cap: nat, raw: string, hdr: nat, length: nat)
    requires FrameHeadOf(raw) == Head(hdr, length) && hdr <= |raw| == cap < hdr + length <= INT_MAX
    ensures Read(cap, raw, Nothing, Fragment(raw, hdr, length), [], raw)
  {
    hide FrameHeadOf, HeaderEnd, HeaderLines, ApplyAll, CrlfEnd;
    var body := raw[hdr..];
    var k := HeaderEnd(body);
    if k != 0 {
      HeaderEndPrefix(body, k);
      assert body[..k] == raw[hdr..hdr + k] && body[k..] == raw[hdr + k..];
      var s := Fragment(raw, hdr, length);
      ReceivePart(s.events[0]);
      assert s.events == [s.events[0]];
      assert Within(cap, raw, s.st, Receive(Nothing, s.events).partial);
      hide Within;
      assert "" + raw == raw;
    }
  }

  lemma ReceivePart(e: Event)
    requires e.offset != e.total
    ensures Receive(Nothing, [e]) == Received([], Part(KeepBackEof(e.headers), e.data))
  {
    assert [e][1..] == [] && "" + e.data == e.data;
    assert Receive(Nothing, [e]) == Receive(Part(KeepBackEof(e.headers), "" + e.data), []);
  }

  /** The held bytes make up a whole frame, which has its header lines. */
  ghost predicate Completes(raw: string) {
    var f := FrameHeadOf(raw);
    |raw| >= 3 && f.Head? && 0 <= f.length && f.length + f.hdr <= INT_MAX && f.hdr + f.length <= |raw|
    && HeaderEnd(raw[f.hdr..f.hdr + f.length]) != 0
  }

  lemma HeldGoesOn(cap: nat, st: State, data: string)
    requires st.Hold? && data != "" && |st.raw + data| <= cap && !Completes(st.raw + data)
    ensures Read(cap, st.raw + data, Nothing, NewData(cap, st, data), [], st.raw + data)
  {
    hide NewData, Whole, Fragment, FrameHeadOf, CrlfEnd, HeaderEnd, Within;
    var raw := st.raw + data;
    HeldIs(cap, st, data);
    var f := FrameHeadOf(raw);
    if |raw| >= 3 && f.Head? && 0 <= f.length && f.length + f.hdr <= INT_MAX && f.hdr + f.length <= |raw| {
      WholeIs(cap, raw, f.hdr, f.length, raw[f.hdr..f.hdr + f.length], raw[f.hdr + f.length..]);
    } else if |raw| >= 3 && f.Head? && 0 <= f.length && f.length + f.hdr <= INT_MAX && |raw| == cap {
      FragmentIsBegun(cap, raw, f.hdr, f.length);
    } else {
      assert Within(cap, raw, Hold(raw), Nothing) by {
        HeldIsWithin(cap, raw);
      }
      ReadNothing(cap, raw, Nothing, Hold(raw));
    }
  }

  lemma HeldIsWithin(cap: nat, raw: string)
    ensures Within(cap, raw, Hold(raw), Nothing)
  {
  }

  lemma HeldCompletes(cap: nat, st: State, data: string) returns (f: string, e: Event)
    requires st.Hold? && data != "" && |st.raw + data| <= cap && Completes(st.raw + data)
    ensures 0 < |f| && f <= st.raw + data && WellFormed(f, cap)
    ensures e.offset == e.total && e.headers == MessageOf(f, cap).headers && e.data == MessageOf(f, cap).data
    ensures NewData(cap, st, data) == After(e, NewData(cap, Hold(""), (st.raw + data)[|f|..]))
  {
    hide NewData, FrameHeadOf, HeaderEnd, CrlfEnd, WellFormed, MessageOf, DataStart;
    var raw := st.raw + data;
    var h := FrameHeadOf(raw);
    f := raw[..h.hdr + h.length];
    HeldIsWellFormed(cap, raw, h.hdr, h.length);
    CompletingStep(cap, f, st, data);
    var m, n := MessageOf(f, cap), |f| - DataStart(f, cap);
    e := Event(m.headers, m.data, n, n);
  }

  lemma PassingGoesOn(cap: nat, rest: string, st: State, p: Partial, data: string)
    requires Within(cap, rest, st, p) && st.Frag? && data != "" && st.keep + |data| <= cap
    requires |data| < st.total - st.offset
    ensures Read(cap, rest + data, p, NewData(cap, st, data), [], rest + data)
  {
    hide NewData, FrameHeadOf, HeaderEnd, HeaderLines, ApplyAll, CrlfEnd;
    PassingIs(cap, st, data);
    var s, all := NewData(cap, st, data), rest + data;
    var e := s.events[0];
    FrameHeadPrefix(all, |rest|);
    assert all[..|rest|] == rest;
    var hdr := FrameHeadOf(rest).hdr;
    assert all[hdr..st.keep] == rest[hdr..st.keep];
    assert s.events == [e] && s.events[1..] == [];
    assert KeepBackEof(e.headers) == KeepBackEof(st.headers);
    assert Receive(p, s.events) == Receive(Part(KeepBackEof(e.headers), p.data + data), []);
    assert all[st.keep..] == rest[st.keep..] + data;
    assert "" + all == all;
  }

  lemma PassingCompletes(cap: nat, rest: string, st: State, p: Partial, data: string) returns (e: Event)
    requires Within(cap, rest, st, p) && st.Frag? && data != "" && st.keep + |data| <= cap
    requires |data| >= st.total - st.offset
    ensures var left := st.total - st.offset;
            var f := rest + data[..left];
            && WellFormed(f, cap) && e.offset == e.total && e.headers == MessageOf(f, cap).headers
            && Joined(p, e) == MessageOf(f, cap).data
            && NewData(cap, st, data) == After(e, NewData(cap, Hold(""), data[left..]))
  {
    hide NewData, Begun, WellFormed, MessageOf, DataStart;
    PassingIs(cap, st, data);
    var left := st.total - st.offset;
    var f := rest + data[..left];
    PassedIsWellFormed(cap, rest, st.keep, st.headers, st.total, f);
    e := Event(st.headers, data[..left], st.total, st.total);
    assert f[st.keep..] == rest[st.keep..] + data[..left];
  }

  /** The data completes the frame that `rest` is the beginning of. */
  ghost predicate Finishes(rest: string, st: State, data: string) {
    if st.Hold? then Completes(rest + data) else st.Frag? && |data| >= st.total - st.offset
  }

  lemma GoesOn(cap: nat, rest: string, st: State, p: Partial, data: string)
    requires Within(cap, rest, st, p) && Sane(st) && Used(st) + |data| <= cap
    requires data != "" && !Finishes(rest, st, data)
    ensures Read(cap, rest + data, p, NewData(cap, st, data), [], rest + data)
  {
    hide Read, NewData, Completes, Begun;
    if st.Hold? {
      HeldGoesOn(cap, st, data);
    } else {
      PassingGoesOn(cap, rest, st, p, data);
    }
  }

  /** The frame f is complete and reported; `tail` is next. */
  lemma Finished(cap: nat, rest: string, st: State, p: Partial, data: string)
    returns (f: string, e: Event, tail: string)
    requires Within(cap, rest, st, p) && Sane(st) && Used(st) + |data| <= cap
    requires data != "" && Finishes(rest, st, data)
    ensures WellFormed(f, cap) && rest + data == f + tail && |tail| <= cap
    ensures |tail| < if st.Frag? then |data| else Used(st) + |data|
    ensures e.offset == e.total && e.headers == MessageOf(f, cap).headers
    ensures Joined(p, e) == MessageOf(f, cap).data
    ensures NewData(cap, st, data) == After(e, NewData(cap, Hold(""), tail))
  {
    hide NewData, Completes, Begun, WellFormed, MessageOf, After;
    if st.Hold? {
      f, e := HeldCompletes(cap, st, data);
      tail := (rest + data)[|f|..];
      assert "" + e.data == e.data;
    } else {
      var n := st.total - st.offset;
      e := PassingCompletes(cap, rest, st, p, data);
      f, tail := rest + data[..n], data[n..];
      assert rest + data[..n] + data[n..] == rest + data;
    }
  }

  lemma IdleWithin(cap: nat)
    ensures Within(cap, "", Hold(""), Nothing)
  {
  }

  /** A step of `pk_parser_parse_new_data`, on any bytes. */
  lemma {:induction false} NewDataReads(cap: nat, rest: string, st: State, p: Partial, data: string)
    returns (more: seq<string>, left: string)
    requires Within(cap, rest, st, p) && Sane(st) && Used(st) + |data| <= cap
    ensures Read(cap, rest + data, p, NewData(cap, st, data), more, left)
    decreases if st.Frag? then |data| else Used(st) + |data|
  {
    hide Read, NewData, Within, WellFormed, Finishes, After, MessageOf;
    if data == "" || !Finishes(rest, st, data) {
      StillOpen(cap, rest, st, p, data);
      more, left := [], rest + data;
    } else {
      var f, e, tail := Finished(cap, rest, st, p, data);
      IdleWithin(cap);
      more, left := NewDataReads(cap, "", Hold(""), Nothing, tail);
      assert "" + tail == tail;
      ReadFirst(cap, f, tail, p, e, NewData(cap, Hold(""), tail), more, left);
      more := [f] + more;
    }
  }

  lemma StillOpen(cap: nat, rest: string, st: State, p: Partial, data: string)
    requires Within(cap, rest, st, p) && Sane(st) && Used(st) + |data| <= cap
    requires data == "" || !Finishes(rest, st, data)
    ensures Read(cap, rest + data, p, NewData(cap, st, data), [], rest + data)
  {
    hide Read, NewData, Finishes, Within;
    if data == "" {
      assert rest + data == rest;
      NothingNew(cap, st);
      ReadNothing(cap, rest, p, st);
    } else {
      GoesOn(cap, rest, st, p, data);
    }
  }

  /** Two readings in a row. */
  lemma ReadOn(cap: nat, b1: string, b2: string, p: Partial, s: Step, m1: seq<string>, r1: string,
               t: Step, m2: seq<string>, r2: string)
    requires s.code == Fine && s.st != Lost && Read(cap, b1, p, s, m1, r1)
    requires Read(cap, r1 + b2, Receive(p, s.events).partial, t, m2, r2)
    ensures Read(cap, b1 + b2, p, Step(t.st, s.events + t.events, t.code), m1 + m2, r2)
  {
    hide WellFormed, MessageOf, Within;
    if t.code == Fine && t.st != Lost {
      ReceiveAppend(p, s.events, t.events);
      AllDeliveredAppend(m1, m2, cap);
      ConcatAppend(m1, m2);
      assert b1 + b2 == Concat(m1) + (r1 + b2);
    }
  }

  /** A call of `pk_parser_parse`, on any bytes. */
  lemma {:induction false} FeedReads(cap: nat, rest: string, st: State, p: Partial, data: string)
    returns (more: seq<string>, left: string)
    requires Within(cap, rest, st, p) && Sane(st) && Used(st) <= cap
    ensures Read(cap, rest + data, p, Feed(cap, st, data), more, left)
    decreases |data|
  {
    hide Read, NewData, Within, WellFormed, Receive;
    more, left := [], rest + data;
    ReadError(cap, rest + data, p, Feed(cap, st, data));
    if data == "" {
      assert rest + data == rest;
      ReadNothing(cap, rest, p, st);
    } else if Used(st) < cap {
      FeedIs(cap, st, data);
      var n := if |data| > cap - Used(st) then cap - Used(st) else |data|;
      var s := NewData(cap, st, data[..n]);
      var m1, r1 := NewDataReads(cap, rest, st, p, data[..n]);
      if s.code == Fine && s.st == Lost {
        FeedLost(cap, data[n..]);
      } else if s.code == Fine {
        ReadWithin(cap, rest + data[..n], p, s, m1, r1);
        var m2, r2 := FeedReads(cap, r1, s.st, Receive(p, s.events).partial, data[n..]);
        ReadOn(cap, rest + data[..n], data[n..], p, s, m1, r1, Feed(cap, s.st, data[n..]), m2, r2);
        assert rest + data[..n] + data[n..] == rest + data;
        more, left := m1 + m2, r2;
      }
    }
  }

  lemma ReadWithin(cap: nat, bytes: string, p: Partial, s: Step, more: seq<string>, rest: string)
    requires Read(cap, bytes, p, s, more, rest) && s.code == Fine && s.st != Lost
    ensures Within(cap, rest, s.st, Receive(p, s.events).partial)
  {
  }

  /** A run of calls, on any bytes. */
  lemma {:induction false} FeedAllReads(cap: nat, rest: string, st: State, p: Partial, pieces: seq<string>)
    returns (more: seq<string>, left: string)
    requires Within(cap, rest, st, p) && Sane(st) && Used(st) <= cap
    ensures Read(cap, rest + Concat(pieces), p, FeedAll(cap, st, pieces), more, left)
    decreases |pieces|
  {
    hide Read, Feed, Within, WellFormed, Receive;
    var all := rest + Concat(pieces);
    more, left := [], all;
    ReadError(cap, all, p, FeedAll(cap, st, pieces));
    if pieces == [] {
      assert all == rest;
      ReadNothing(cap, rest, p, st);
    } else {
      var s := Feed(cap, st, pieces[0]);
      var m1, r1 := FeedReads(cap, rest, st, p, pieces[0]);
      if s.code == Fine && s.st == Lost {
        AllLost(cap, pieces[1..]);
      } else if s.code == Fine {
        ReadWithin(cap, rest + pieces[0], p, s, m1, r1);
        var m2, r2 := FeedAllReads(cap, r1, s.st, Receive(p, s.events).partial, pieces[1..]);
        ReadOn(cap, rest + pieces[0], Concat(pieces[1..]), p, s, m1, r1, FeedAll(cap, s.st, pieces[1..]), m2, r2);
        assert rest + pieces[0] + Concat(pieces[1..]) == all;
        more, left := m1 + m2, r2;
      }
    }
  }

  /** Whatever bytes come, cut up anyhow: if the parser is idle and raised no error, they were
      well-formed frames, whose messages it reported. */
  lemma OnlyFrames(cap: nat, pieces: seq<string>) returns (frames: seq<string>)
    requires var s := FeedAll(cap, Hold(""), pieces);
             s.code == Fine && s.st == Hold("")
    ensures AllWellFormed(frames, cap) && Concat(frames) == Concat(pieces)
    ensures Receive(Nothing, FeedAll(cap, Hold(""), pieces).events) == Received(AllDelivered(frames, cap), Nothing)
  {
    hide FeedAll, WellFormed, MessageOf;
    var left;
    assert "" + Concat(pieces) == Concat(pieces);
    frames, left := FeedAllReads(cap, "", Hold(""), Nothing, pieces);
    assert Concat(frames) + "" == Concat(frames);
  }

  /** Both directions: the parser takes exactly the sequences of well-formed frames. */
  lemma TakesExactlyFrames(cap: nat, pieces: seq<string>)
    requires 0 < cap
    ensures var s := FeedAll(cap, Hold(""), pieces);
            (s.code == Fine && s.st == Hold("")) <==>
            exists frames :: AllWellFormed(frames, cap) && Concat(frames) == Concat(pieces)
  {
    hide FeedAll, WellFormed, Concat;
    var s := FeedAll(cap, Hold(""), pieces);
    if s.code == Fine && s.st == Hold("") {
      var _ := OnlyFrames(cap, pieces);
    }
    forall frames | AllWellFormed(frames, cap) && Concat(frames) == Concat(pieces)
      ensures s.code == Fine && s.st == Hold("")
    {
      SplitInvariance.SplitInvariance(cap, frames, pieces);
    }
  }

  // ---- one way to read them ---------------------------------------------------------

  lemma FrameIsUnique(cap: nat, f: string, g: string, s: string)
    requires WellFormed(f, cap) && WellFormed(g, cap) && f <= s && g <= s
    ensures f == g
  {
    hide CrlfEnd, HeaderEnd, FrameHeadOf;
    assert s[..|f|] == f && s[..|g|] == g;
    FrameHeadPrefix(s, |f|);
    FrameHeadPrefix(s, |g|);
  }

  /** Two ways to cut a string into frames agree as far as they go. */
  lemma {:induction false} OneReading(cap: nat, a: seq<string>, b: seq<string>, s: string)
    requires AllWellFormed(a, cap) && AllWellFormed(b, cap) && |a| <= |b|
    requires Concat(a) <= s && Concat(b) <= s
    ensures a == b[..|a|]
    decreases |a|
  {
    hide WellFormed;
    if a == [] {
      assert b[..0] == [];
    } else {
      assert a[0] <= s && b[0] <= s;
      FrameIsUnique(cap, a[0], b[0], s);
      var rest := s[|a[0]|..];
      assert Concat(a)[|a[0]|..] == Concat(a[1..]) && Concat(b)[|b[0]|..] == Concat(b[1..]);
      OneReading(cap, a[1..], b[1..], rest);
      assert a == [a[0]] + a[1..] && b[..|a|] == [b[0]] + b[1..][..|a| - 1];
    }
  }
}
