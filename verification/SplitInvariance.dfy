/** However the bytes of well-formed frames are cut up, the parser reports their messages. */
module SplitInvariance {
  import opened Text
  import opened Wire
  import opened ParserSpec

  ghost predicate AllWellFormed(frames: seq<string>, cap: nat) {
    forall i :: 0 <= i < |frames| ==> WellFormed(frames[i], cap)
  }

  ghost function AllDelivered(frames: seq<string>, cap: nat): (ms: seq<Message>)
    requires AllWellFormed(frames, cap)
    ensures |ms| == |frames|
  {
    if frames == [] then [] else [MessageOf(frames[0], cap)] + AllDelivered(frames[1..], cap)
  }

  /** r bytes of the stream `frames` were taken in, not enough for frames[0]: the parser and the
      receiver are exactly where those bytes put them. */
  ghost predicate Tracks(cap: nat, frames: seq<string>, r: nat, st: State, p: Partial) {
    && AllWellFormed(frames, cap)
    && match st
       case Hold(raw) =>
         && p == Nothing && r == |raw| < cap
         && if frames == [] then r == 0 else r < |frames[0]| && raw == frames[0][..r]
       case Frag(keep, h, total, offset) =>
         && frames != []
         && var f := frames[0];
            var k := DataStart(f, cap);
         && keep == k < cap && h == MessageOf(f, cap).headers
         && total == |f| - k && offset < total && r == k + offset
         && p == Part(KeepBackEof(h), f[k..r])
       case Lost => false
  }

  /** What a step from `frames` must show for: the messages of the first `done` frames, and the
      parser r' bytes into the next one. */
  ghost predicate Advanced(cap: nat, frames: seq<string>, p: Partial, s: Step, done: nat, r': nat)
    requires AllWellFormed(frames, cap)
  {
    var got := Receive(p, s.events);
    && s.code == Fine && done <= |frames|
    && got.messages == AllDelivered(frames[..done], cap)
    && Tracks(cap, frames[done..], r', s.st, got.partial)
  }

  lemma FrameIn(frames: seq<string>, r: nat, data: string)
    requires frames != [] && r <= |frames[0]| && data <= Concat(frames)[r..]
    ensures |data| < |frames[0]| - r ==> data == frames[0][r..r + |data|]
    ensures |data| >= |frames[0]| - r ==>
              data[..|frames[0]| - r] == frames[0][r..] && data[|frames[0]| - r..] <= Concat(frames[1..])
  {
    var f, rest := frames[0], Concat(frames[1..]);
    assert Concat(frames)[r..] == f[r..] + rest;
    var n := |f| - r;
    if |data| >= n {
      assert data == (f[r..] + rest)[..|data|] == f[r..] + rest[..|data| - n];
    } else {
      assert data == (f[r..] + rest)[..|data|] == f[r..][..|data|];
    }
  }

  /** The rest of the stream was dealt with; put the finished frames[0] in front. */
  lemma Prepend(cap: nat, frames: seq<string>, p: Partial, e: Event, s: Step, done: nat, r': nat)
    requires AllWellFormed(frames, cap) && frames != []
    requires Advanced(cap, frames[1..], Nothing, s, done, r')
    requires e.offset == e.total && e.headers == MessageOf(frames[0], cap).headers
    requires Joined(p, e) == MessageOf(frames[0], cap).data
    ensures Advanced(cap, frames, p, After(e, s), done + 1, r')
  {
    hide WellFormed, Tracks, MessageOf;
    var t := After(e, s);
    assert t.events[0] == e && t.events[1..] == s.events;
    var first := frames[..done + 1];
    assert first[0] == frames[0] && first[1..] == frames[1..][..done];
    assert frames[1..][done..] == frames[done + 1..];
  }

  /** A full buffer that holds the first part of a frame, its headers and more. */
  lemma FullBuffer(cap: nat, f: string, raw: string)
    requires WellFormed(f, cap) && |raw| == cap < |f| && raw == f[..cap]
    requires FrameHeadOf(f).hdr <= cap
    ensures var hd, k, h := FrameHeadOf(f), DataStart(f, cap), MessageOf(f, cap).headers;
            && k < cap
            && Fragment(raw, hd.hdr, hd.length)
               == Step(Frag(k, h, |f| - k, cap - k), [Event(KeepBackEof(h), f[k..cap], cap - k, |f| - k)], Fine)
  {
    hide FrameHeadOf, HeaderEnd, HeaderLines, ApplyAll, CrlfEnd;
    var hd := FrameHeadOf(f);
    var k := HeaderEnd(f[hd.hdr..]);
    HeaderEndPrefix(f[hd.hdr..], cap - hd.hdr);
    assert f[hd.hdr..][..cap - hd.hdr] == raw[hd.hdr..];
    assert raw[hd.hdr..][k..] == f[hd.hdr + k..cap];
  }

  /** A step on a frame that is still incomplete: it is held, or, if the buffer is full,
      reported as far as it goes. */
  lemma IncompleteStep(cap: nat, f: string, st: State, data: string)
    requires WellFormed(f, cap) && st.Hold? && data != ""
    requires |st.raw + data| <= cap && |st.raw + data| < |f| && st.raw + data == f[..|st.raw + data|]
    ensures var n, k, h := |st.raw + data|, DataStart(f, cap), MessageOf(f, cap).headers;
            NewData(cap, st, data) ==
            if n < cap then Step(Hold(f[..n]), [], Fine)
            else
              Step(Frag(k, h, |f| - k, n - k), [Event(KeepBackEof(h), f[k..n], n - k, |f| - k)], Fine)
    ensures |st.raw + data| == cap ==> DataStart(f, cap) < cap
  {
    hide NewData, Fragment, Whole, FrameHeadOf, HeaderEnd, HeaderLines, ApplyAll, CrlfEnd;
    HeldIs(cap, st, data);
    FrameHeadPrefix(f, |st.raw + data|);
    HeadFits(f, cap);
    hide WellFormed, MessageOf, DataStart;
    if |st.raw + data| == cap {
      FullBuffer(cap, f, st.raw + data);
    }
  }

  lemma HeadFits(f: string, cap: nat)
    requires WellFormed(f, cap)
    ensures var hd := FrameHeadOf(f);
            && hd.Head? && 0 <= hd.length && hd.length == |f| - hd.hdr && |f| <= INT_MAX
            && (cap < |f| ==> hd.hdr + 2 < cap)
  {
    hide FrameHeadOf, HeaderEnd;
  }

  /** A step that completes the frame in the buffer. */
  lemma CompletingStep(cap: nat, f: string, st: State, data: string)
    requires WellFormed(f, cap) && st.Hold? && data != "" && |st.raw + data| <= cap
    requires |f| <= |st.raw + data| && (st.raw + data)[..|f|] == f
    ensures var n := |f| - DataStart(f, cap);
            NewData(cap, st, data) ==
            After(Event(MessageOf(f, cap).headers, MessageOf(f, cap).data, n, n),
                  NewData(cap, Hold(""), (st.raw + data)[|f|..]))
  {
    hide NewData, Whole, FrameHeadOf, HeaderEnd, HeaderLines, ApplyAll, CrlfEnd;
    var raw := st.raw + data;
    HeldIs(cap, st, data);
    FrameHeadPrefix(raw, |f|);
    var hd := FrameHeadOf(f);
    assert raw[hd.hdr..|f|] == f[hd.hdr..];
    assert f[hd.hdr..][HeaderEnd(f[hd.hdr..])..] == f[DataStart(f, cap)..];
    WholeIs(cap, raw, hd.hdr, hd.length, f[hd.hdr..], raw[|f|..]);
  }

  /** The first frame is not complete yet. */
  lemma HoldMore(cap: nat, frames: seq<string>, st: State, data: string)
    requires st.Hold? && frames != [] && AllWellFormed(frames, cap) && data != ""
    requires |st.raw + data| <= cap && |st.raw + data| < |frames[0]|
    requires st.raw + data == frames[0][..|st.raw + data|]
    ensures Advanced(cap, frames, Nothing, NewData(cap, st, data), 0, |st.raw + data|)
  {
    hide WellFormed, NewData, MessageOf, DataStart;
    var f, n := frames[0], |st.raw + data|;
    IncompleteStep(cap, f, st, data);
    var s := NewData(cap, st, data);
    assert frames[0..] == frames;
    if n == cap {
      var e := s.events[0];
      assert s.events == [e] && s.events[1..] == [];
      assert "" + e.data == e.data;
      assert KeepBackEof(e.headers) == KeepBackEof(s.st.headers);
      assert Receive(Nothing, s.events) == Receive(Part(KeepBackEof(e.headers), e.data), []);
    }
  }

  /** The data goes on within the first frame, which is being passed through. */
  lemma PassMore(cap: nat, frames: seq<string>, r: nat, st: State, p: Partial, data: string)
    requires Tracks(cap, frames, r, st, p) && st.Frag? && data != "" && Used(st) + |data| <= cap
    requires |data| < |frames[0]| - r && data == frames[0][r..r + |data|]
    ensures Advanced(cap, frames, p, NewData(cap, st, data), 0, r + |data|)
  {
    hide WellFormed, MessageOf, DataStart;
    var f, s := frames[0], NewData(cap, st, data);
    var e := s.events[0];
    assert frames[0..] == frames;
    assert s.events == [e] && s.events[1..] == [];
    assert p.data + data == f[st.keep..r + |data|];
    assert KeepBackEof(e.headers) == KeepBackEof(st.headers);
    assert Receive(p, s.events) == Receive(Part(KeepBackEof(e.headers), p.data + data), []);
  }

  /** The data completes the first frame: one event for it, then the rest of the data. */
  lemma CompleteFirst(cap: nat, frames: seq<string>, r: nat, st: State, p: Partial, data: string)
    returns (e: Event)
    requires Tracks(cap, frames, r, st, p) && frames != [] && r < |frames[0]|
    requires data != "" && Used(st) + |data| <= cap
    requires |data| >= |frames[0]| - r && data[..|frames[0]| - r] == frames[0][r..]
    ensures e.offset == e.total && e.headers == MessageOf(frames[0], cap).headers
    ensures Joined(p, e) == MessageOf(frames[0], cap).data
    ensures NewData(cap, st, data) == After(e, NewData(cap, Hold(""), data[|frames[0]| - r..]))
  {
    hide WellFormed, ApplyAll, DataStart, FrameHeadOf, HeaderEnd, HeaderLines, CrlfEnd, NewData;
    var f := frames[0];
    var left := |f| - r;
    var m, k := MessageOf(f, cap), DataStart(f, cap);
    if st.Hold? {
      var raw := st.raw + data;
      assert raw[..|f|] == f[..r] + data[..left] == f;
      assert raw[|f|..] == data[left..];
      CompletingStep(cap, f, st, data);
      e := Event(m.headers, m.data, |f| - k, |f| - k);
      assert "" + e.data == e.data;
    } else {
      PassingIs(cap, st, data);
      e := Event(st.headers, data[..left], st.total, st.total);
      assert p.data + e.data == f[k..];
    }
  }

  /** What being in step says about the bytes at hand. */
  lemma TracksFacts(cap: nat, frames: seq<string>, r: nat, st: State, p: Partial)
    requires Tracks(cap, frames, r, st, p)
    ensures AllWellFormed(frames, cap) && Sane(st) && Used(st) < cap
    ensures if frames == [] then r == 0 else r < |frames[0]|
    ensures frames != [] ==> Tracks(cap, frames[1..], 0, Hold(""), Nothing)
    ensures Advanced(cap, frames, p, Step(st, [], Fine), 0, r)
    ensures NewData(cap, st, "") == Step(st, [], Fine)
  {
    hide WellFormed, MessageOf;
    assert frames[0..] == frames;
    assert |frames| > 1 ==> DataStart(frames[1], cap) > 0;
  }

  /** The first frame is not complete yet. */
  lemma FirstGoesOn(cap: nat, frames: seq<string>, r: nat, st: State, p: Partial, data: string)
    requires Tracks(cap, frames, r, st, p) && frames != [] && data != "" && Used(st) + |data| <= cap
    requires |data| < |frames[0]| - r && data == frames[0][r..r + |data|]
    ensures Advanced(cap, frames, p, NewData(cap, st, data), 0, r + |data|)
  {
    hide NewData, Advanced, WellFormed, MessageOf, DataStart;
    if st.Hold? {
      assert st.raw + data == frames[0][..r + |data|];
      HoldMore(cap, frames, st, data);
    } else {
      PassMore(cap, frames, r, st, p, data);
    }
  }

  /** `pk_parser_parse_new_data` keeps in step with the stream. */
  lemma {:induction false} NewDataTracks(cap: nat, frames: seq<string>, r: nat, st: State, p: Partial, data: string)
    returns (done: nat, r': nat)
    requires Tracks(cap, frames, r, st, p)
    requires r <= |Concat(frames)| && data <= Concat(frames)[r..]
    requires Sane(st) && Used(st) + |data| <= cap
    ensures done <= |frames| && Advanced(cap, frames, p, NewData(cap, st, data), done, r')
    ensures |Concat(frames)| - r - |data| == |Concat(frames[done..])| - r'
    decreases |data|, if st.Frag? then 0 else Used(st)
  {
    hide Tracks, Advanced, NewData, WellFormed;
    TracksFacts(cap, frames, r, st, p);
    assert frames[0..] == frames;
    if data == "" {
      done, r' := 0, r;
    } else {
      assert frames != [];
      var rest, left := frames[1..], |frames[0]| - r;
      FrameIn(frames, r, data);
      if |data| < left {
        FirstGoesOn(cap, frames, r, st, p, data);
        done, r' := 0, r + |data|;
      } else {
        var e := CompleteFirst(cap, frames, r, st, p, data);
        var s := NewData(cap, Hold(""), data[left..]);
        done, r' := NewDataTracks(cap, rest, 0, Hold(""), Nothing, data[left..]);
        assert rest[done..] == frames[done + 1..];
        Prepend(cap, frames, p, e, s, done, r');
        done := done + 1;
      }
    }
  }

  // ---- whole runs -------------------------------------------------------------------

  lemma {:induction false} ConcatDrop(frames: seq<string>, done: nat)
    requires done <= |frames|
    ensures |Concat(frames[done..])| <= |Concat(frames)|
    ensures Concat(frames[done..]) == Concat(frames)[|Concat(frames)| - |Concat(frames[done..])|..]
  {
    ConcatAppend(frames[..done], frames[done..]);
    assert frames[..done] + frames[done..] == frames;
  }

  lemma ConcatCovers(frames: seq<string>)
    ensures frames != [] ==> |Concat(frames)| >= |frames[0]|
  {
  }

  lemma {:induction false} AllDeliveredAppend(a: seq<string>, b: seq<string>, cap: nat)
    requires AllWellFormed(a, cap) && AllWellFormed(b, cap)
    ensures AllDelivered(a + b, cap) == AllDelivered(a, cap) + AllDelivered(b, cap)
  {
    hide WellFormed, MessageOf;
    if a == [] {
      assert a + b == b;
    } else {
      assert (a + b)[0] == a[0] && (a + b)[1..] == a[1..] + b;
      AllDeliveredAppend(a[1..], b, cap);
    }
  }

  /** n bytes further on, which is r1 bytes into frames[d1..], the stream goes on with data[n..]. */
  lemma RestOfStream(frames: seq<string>, r: nat, data: string, n: nat, d1: nat, r1: nat)
    requires d1 <= |frames| && n <= |data|
    requires r <= |Concat(frames)| && data <= Concat(frames)[r..]
    requires |Concat(frames)| - r - n == |Concat(frames[d1..])| - r1
    ensures r1 <= |Concat(frames[d1..])| && data[n..] <= Concat(frames[d1..])[r1..]
  {
    ConcatDrop(frames, d1);
    var all, rest := Concat(frames), Concat(frames[d1..]);
    assert rest[r1..] == all[r + n..];
    assert all[r..][n..] == all[r + n..];
  }

  /** Two steps in a row. */
  lemma Compose(cap: nat, frames: seq<string>, p: Partial, s: Step, d1: nat, r1: nat, t: Step, d2: nat, r2: nat)
    requires AllWellFormed(frames, cap) && Advanced(cap, frames, p, s, d1, r1)
    requires Advanced(cap, frames[d1..], Receive(p, s.events).partial, t, d2, r2)
    ensures Advanced(cap, frames, p, Step(t.st, s.events + t.events, t.code), d1 + d2, r2)
    ensures frames[d1..][d2..] == frames[d1 + d2..]
  {
    hide WellFormed, MessageOf, Tracks;
    ReceiveAppend(p, s.events, t.events);
    AllDeliveredAppend(frames[..d1], frames[d1..][..d2], cap);
    assert frames[..d1] + frames[d1..][..d2] == frames[..d1 + d2];
    assert frames[d1..][d2..] == frames[d1 + d2..];
  }

  /** `pk_parser_parse` keeps in step with the stream: it never finds its buffer full. */
  lemma {:induction false} FeedTracks(cap: nat, frames: seq<string>, r: nat, st: State, p: Partial, data: string)
    returns (done: nat, r': nat)
    requires Tracks(cap, frames, r, st, p)
    requires r <= |Concat(frames)| && data <= Concat(frames)[r..]
    ensures Sane(st) && Used(st) < cap && done <= |frames| && Advanced(cap, frames, p, Feed(cap, st, data), done, r')
    ensures r' <= |Concat(frames[done..])|
    ensures |Concat(frames)| - r - |data| == |Concat(frames[done..])| - r'
    decreases |data|
  {
    hide NewData, Tracks, WellFormed, MessageOf, Receive, Concat, AllDelivered;
    TracksFacts(cap, frames, r, st, p);
    assert frames[0..] == frames;
    if data == "" {
      done, r' := 0, r;
    } else {
      var n := if |data| > cap - Used(st) then cap - Used(st) else |data|;
      var d1, r1 := NewDataTracks(cap, frames, r, st, p, data[..n]);
      var s := NewData(cap, st, data[..n]);
      var rest := frames[d1..];
      RestOfStream(frames, r, data, n, d1, r1);
      var d2, r2 := FeedTracks(cap, rest, r1, s.st, Receive(p, s.events).partial, data[n..]);
      Compose(cap, frames, p, s, d1, r1, Feed(cap, s.st, data[n..]), d2, r2);
      done, r' := d1 + d2, r2;
    }
  }

  lemma {:induction false} FeedAllTracks(cap: nat, frames: seq<string>, r: nat, st: State, p: Partial,
                                         pieces: seq<string>)
    returns (done: nat, r': nat)
    requires Tracks(cap, frames, r, st, p)
    requires r <= |Concat(frames)| && Concat(pieces) <= Concat(frames)[r..]
    ensures Sane(st) && Used(st) <= cap && done <= |frames|
    ensures Advanced(cap, frames, p, FeedAll(cap, st, pieces), done, r')
    ensures |Concat(frames)| - r - |Concat(pieces)| == |Concat(frames[done..])| - r'
    decreases |pieces|
  {
    hide Feed, Tracks, WellFormed, MessageOf, Receive;
    TracksFacts(cap, frames, r, st, p);
    assert frames[0..] == frames;
    if pieces == [] {
      done, r' := 0, r;
    } else {
      var data, n := Concat(pieces), |pieces[0]|;
      assert data[..n] == pieces[0] && data[n..] == Concat(pieces[1..]);
      assert data[..n] <= Concat(frames)[r..];
      hide Concat, AllDelivered;
      var d1, r1 := FeedTracks(cap, frames, r, st, p, pieces[0]);
      var s := Feed(cap, st, pieces[0]);
      var rest := frames[d1..];
      RestOfStream(frames, r, data, n, d1, r1);
      var d2, r2 := FeedAllTracks(cap, rest, r1, s.st, Receive(p, s.events).partial, pieces[1..]);
      Compose(cap, frames, p, s, d1, r1, FeedAll(cap, s.st, pieces[1..]), d2, r2);
      done, r' := d1 + d2, r2;
    }
  }

  /** Safety at every moment: after any prefix of the stream, cut up anyhow, no error was
      raised, the completed messages are those of the first frames, in order, and what was
      reported of the next frame is an exact prefix of its data. */
  lemma PrefixDelivery(cap: nat, frames: seq<string>, pieces: seq<string>) returns (done: nat, r: nat)
    requires 0 < cap && AllWellFormed(frames, cap)
    requires Concat(pieces) <= Concat(frames)
    ensures var s := FeedAll(cap, Hold(""), pieces);
            && s.code == Fine && s.st != Lost && done <= |frames|
            && Receive(Nothing, s.events).messages == AllDelivered(frames[..done], cap)
            && match Receive(Nothing, s.events).partial
               case Nothing => true
               case Part(h, data) =>
                 done < |frames| && h == KeepBackEof(MessageOf(frames[done], cap).headers)
                 && data <= MessageOf(frames[done], cap).data
    ensures |Concat(frames)| - |Concat(pieces)| == |Concat(frames[done..])| - r
    ensures if done == |frames| then r == 0 else r < |frames[done]|
  {
    hide FeedAll, WellFormed;
    assert frames != [] ==> DataStart(frames[0], cap) > 0;
    done, r := FeedAllTracks(cap, frames, 0, Hold(""), Nothing, pieces);
  }

  /** Any way of cutting the stream into `pk_parser_parse` calls delivers every frame's headers
      and data, in order, and leaves the parser as it began. */
  lemma SplitInvariance(cap: nat, frames: seq<string>, pieces: seq<string>)
    requires 0 < cap && AllWellFormed(frames, cap)
    requires Concat(pieces) == Concat(frames)
    ensures var s := FeedAll(cap, Hold(""), pieces);
            && s.code == Fine && s.st == Hold("")
            && Receive(Nothing, s.events) == Received(AllDelivered(frames, cap), Nothing)
  {
    hide FeedAll, WellFormed, MessageOf;
    assert frames != [] ==> DataStart(frames[0], cap) > 0;
    var done, r := FeedAllTracks(cap, frames, 0, Hold(""), Nothing, pieces);
    var rest := frames[done..];
    assert |Concat(rest)| == r;
    ConcatCovers(rest);
    assert frames[..done] == frames;
  }

  // ---- whatever follows -------------------------------------------------------------

  /** The messages so far, and those of what comes behind it. */
  lemma MoreMessages(p: Partial, a: seq<Event>, b: seq<Event>, ms: seq<Message>, ns: seq<Message>)
    requires ms <= Receive(p, a).messages
    requires ns == [] || (ms == Receive(p, a).messages && ns <= Receive(Receive(p, a).partial, b).messages)
    ensures ms + ns <= Receive(p, a + b).messages
  {
    ReceiveAppend(p, a, b);
    hide Receive;
    if ns == [] {
      assert ms + ns == ms;
    }
  }

  lemma FirstMessage(p: Partial, e: Event, s: Step, ms: seq<Message>)
    requires e.offset == e.total && ms <= Receive(Nothing, s.events).messages
    ensures [Message(e.headers, Joined(p, e))] + ms <= Receive(p, After(e, s).events).messages
  {
    var t := After(e, s);
    assert t.events[0] == e && t.events[1..] == s.events;
  }

  /** A step that gets to the end of the frames reports all of them, whatever it meets there. */
  lemma {:induction false} NewDataCovers(cap: nat, frames: seq<string>, r: nat, st: State, p: Partial, data: string)
    requires Tracks(cap, frames, r, st, p) && Sane(st) && Used(st) + |data| <= cap
    requires r <= |Concat(frames)| && Concat(frames)[r..] <= data
    ensures AllDelivered(frames, cap) <= Receive(p, NewData(cap, st, data).events).messages
    decreases |frames|
  {
    hide Tracks, NewData, WellFormed, MessageOf, Receive, After;
    TracksFacts(cap, frames, r, st, p);
    if frames != [] {
      var rest, left := frames[1..], |frames[0]| - r;
      CoversFirst(frames, r, data);
      var e := CompleteFirst(cap, frames, r, st, p, data);
      assert Concat(rest)[0..] == Concat(rest);
      NewDataCovers(cap, rest, 0, Hold(""), Nothing, data[left..]);
      FirstMessage(p, e, NewData(cap, Hold(""), data[left..]), AllDelivered(rest, cap));
    }
  }

  lemma CoversFirst(frames: seq<string>, r: nat, data: string)
    requires frames != [] && r < |frames[0]| && Concat(frames)[r..] <= data
    ensures |data| >= |frames[0]| - r && data != "" && data[..|frames[0]| - r] == frames[0][r..]
    ensures Concat(frames[1..]) <= data[|frames[0]| - r..]
  {
    var f, rest := frames[0], Concat(frames[1..]);
    assert Concat(frames)[r..] == f[r..] + rest;
    var all := f[r..] + rest;
    assert data[..|all|] == all && all[..|f| - r] == f[r..] && all[|f| - r..] == rest;
    assert data[..|f| - r] == data[..|all|][..|f| - r];
    assert data[|f| - r..][..|rest|] == data[..|all|][|f| - r..];
  }

  /** The frames go on behind the first n bytes of data. */
  lemma CoversRest(frames: seq<string>, r: nat, data: string, n: nat, d1: nat, r1: nat)
    requires d1 <= |frames| && n <= |data| && r + n <= |Concat(frames)| && Concat(frames)[r..] <= data
    requires |Concat(frames)| - r - n == |Concat(frames[d1..])| - r1
    ensures r1 <= |Concat(frames[d1..])| && Concat(frames[d1..])[r1..] <= data[n..]
    ensures data[..n] <= Concat(frames)[r..]
  {
    ConcatDrop(frames, d1);
    var all, rest := Concat(frames), Concat(frames[d1..]);
    assert rest[r1..] == all[r + n..] == all[r..][n..];
    assert data[..|all| - r] == all[r..];
    assert data[n..][..|all| - r - n] == data[..|all| - r][n..];
    assert data[..n] == data[..|all| - r][..n];
  }

  /** A call of `pk_parser_parse` that gets to the end of the frames. */
  lemma {:induction false} FeedCovers(cap: nat, frames: seq<string>, r: nat, st: State, p: Partial, data: string)
    requires Tracks(cap, frames, r, st, p)
    requires r <= |Concat(frames)| && Concat(frames)[r..] <= data
    ensures AllDelivered(frames, cap) <= Receive(p, Feed(cap, st, data).events).messages
    decreases |data|
  {
    hide NewData, Tracks, WellFormed, MessageOf, Receive, Concat, AllDelivered;
    TracksFacts(cap, frames, r, st, p);
    if data == "" {
      NothingLeft(cap, frames, r);
    } else {
      FeedIs(cap, st, data);
      var n := if |data| > cap - Used(st) then cap - Used(st) else |data|;
      var s, t := NewData(cap, st, data[..n]), Feed(cap, NewData(cap, st, data[..n]).st, data[n..]);
      if r + n >= |Concat(frames)| {
        assert Concat(frames)[r..] <= data[..n];
        NewDataCovers(cap, frames, r, st, p, data[..n]);
        MoreMessages(p, s.events, if s.code == Fine then t.events else [], AllDelivered(frames, cap), []);
        assert AllDelivered(frames, cap) + [] == AllDelivered(frames, cap) && s.events + [] == s.events;
      } else {
        CoversFront(frames, r, data, n);
        var d1, r1 := NewDataTracks(cap, frames, r, st, p, data[..n]);
        CoversRest(frames, r, data, n, d1, r1);
        FeedCovers(cap, frames[d1..], r1, s.st, Receive(p, s.events).partial, data[n..]);
        JoinCovers(cap, frames, p, s, d1, t.events);
      }
    }
  }

  lemma CoversFront(frames: seq<string>, r: nat, data: string, n: nat)
    requires n <= |data| && r + n <= |Concat(frames)| && Concat(frames)[r..] <= data
    ensures data[..n] <= Concat(frames)[r..]
  {
    assert data[..n] == data[..|Concat(frames)| - r][..n];
  }

  lemma NothingLeft(cap: nat, frames: seq<string>, r: nat)
    requires AllWellFormed(frames, cap) && r == |Concat(frames)|
    requires if frames == [] then r == 0 else r < |frames[0]|
    ensures frames == [] && AllDelivered(frames, cap) == []
  {
  }

  /** The first d1 frames were reported, and so are the others. */
  lemma JoinCovers(cap: nat, frames: seq<string>, p: Partial, s: Step, d1: nat, more: seq<Event>)
    requires AllWellFormed(frames, cap) && d1 <= |frames| && AllWellFormed(frames[d1..], cap)
    requires Receive(p, s.events).messages == AllDelivered(frames[..d1], cap)
    requires AllDelivered(frames[d1..], cap) <= Receive(Receive(p, s.events).partial, more).messages
    ensures AllDelivered(frames, cap) <= Receive(p, s.events + more).messages
  {
    hide WellFormed, MessageOf, Receive;
    assert frames[..d1] + frames[d1..] == frames;
    AllDeliveredAppend(frames[..d1], frames[d1..], cap);
    MoreMessages(p, s.events, more, AllDelivered(frames[..d1], cap), AllDelivered(frames[d1..], cap));
  }

  /** A run of calls that gets to the end of the frames. */
  lemma {:induction false} FeedAllCovers(cap: nat, frames: seq<string>, r: nat, st: State, p: Partial,
                                         pieces: seq<string>)
    requires Tracks(cap, frames, r, st, p)
    requires r <= |Concat(frames)| && Concat(frames)[r..] <= Concat(pieces)
    ensures Sane(st) && Used(st) <= cap
    ensures AllDelivered(frames, cap) <= Receive(p, FeedAll(cap, st, pieces).events).messages
    decreases |pieces|
  {
    hide Feed, Tracks, WellFormed, MessageOf, Receive, AllDelivered;
    TracksFacts(cap, frames, r, st, p);
    if pieces == [] {
      NothingLeft(cap, frames, r);
    } else {
      var data, n := Concat(pieces), |pieces[0]|;
      assert data[..n] == pieces[0] && data[n..] == Concat(pieces[1..]);
      var s, t := Feed(cap, st, pieces[0]), FeedAll(cap, Feed(cap, st, pieces[0]).st, pieces[1..]);
      hide Concat;
      if r + n >= |Concat(frames)| {
        assert Concat(frames)[r..] <= pieces[0];
        FeedCovers(cap, frames, r, st, p, pieces[0]);
        MoreMessages(p, s.events, if s.code == Fine then t.events else [], AllDelivered(frames, cap), []);
        assert AllDelivered(frames, cap) + [] == AllDelivered(frames, cap) && s.events + [] == s.events;
      } else {
        CoversFront(frames, r, data, n);
        var d1, r1 := FeedTracks(cap, frames, r, st, p, pieces[0]);
        CoversRest(frames, r, data, n, d1, r1);
        FeedAllCovers(cap, frames[d1..], r1, s.st, Receive(p, s.events).partial, pieces[1..]);
        JoinCovers(cap, frames, p, s, d1, t.events);
      }
    }
  }

  /** Whatever comes behind well-formed frames, even an error: their messages were reported, in
      order, before anything of it. */
  lemma FirstMessages(cap: nat, frames: seq<string>, pieces: seq<string>)
    requires 0 < cap && AllWellFormed(frames, cap) && Concat(frames) <= Concat(pieces)
    ensures AllDelivered(frames, cap) <= Receive(Nothing, FeedAll(cap, Hold(""), pieces).events).messages
  {
    hide FeedAll, WellFormed, MessageOf, Receive, AllDelivered;
    assert frames != [] ==> DataStart(frames[0], cap) > 0;
    assert Concat(frames)[0..] == Concat(frames);
    FeedAllCovers(cap, frames, 0, Hold(""), Nothing, pieces);
  }
}
