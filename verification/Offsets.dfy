/** The offset and total that come with every callback of the parser, on any input. */
module Offsets {
  import opened Text
  import opened Wire
  import opened ParserSpec

  /** In front of a chunk, or so far into the data of one. */
  datatype Position = Start | Within(offset: int, total: int)

  function PositionOf(st: State): Position {
    if st.Frag? then Within(st.offset, st.total) else Start
  }

  /** The callback's offset counts the data of its chunk that was reported with and before it, and
      its total is that of the callbacks before. */
  predicate Follows(p: Position, e: Event) {
    && e.offset == (if p.Within? then p.offset else 0) + |e.data|
    && e.offset <= e.total && (p.Within? ==> e.total == p.total)
  }

  function Behind(e: Event): Position {
    if e.offset == e.total then Start else Within(e.offset, e.total)
  }

  ghost predicate Counted(p: Position, events: seq<Event>, q: Position)
    decreases |events|
  {
    if events == [] then p == q else Follows(p, events[0]) && Counted(Behind(events[0]), events[1..], q)
  }

  lemma {:induction false} CountedJoin(p: Position, a: seq<Event>, q: Position, b: seq<Event>, r: Position)
    requires Counted(p, a, q) && Counted(q, b, r)
    ensures Counted(p, a + b, r)
    decreases |a|
  {
    if a == [] {
      assert a + b == b;
    } else {
      assert (a + b)[0] == a[0] && (a + b)[1..] == a[1..] + b;
      CountedJoin(Behind(a[0]), a[1..], q, b, r);
    }
  }

  lemma CountedOne(p: Position, e: Event)
    requires Follows(p, e)
    ensures Counted(p, [e], Behind(e))
  {
    assert [e][1..] == [];
  }

  lemma CountedMore(p: Position, e: Event, s: Step, q: Position)
    requires Follows(p, e) && Behind(e) == Start && Counted(Start, s.events, q)
    ensures Counted(p, After(e, s).events, q)
  {
    CountedOne(p, e);
    CountedJoin(p, [e], Start, s.events, q);
  }

  lemma {:induction false} NewDataCounts(cap: nat, st: State, data: string) returns (q: Position)
    requires Sane(st) && Used(st) + |data| <= cap
    ensures var r := NewData(cap, st, data);
            Counted(PositionOf(st), r.events, q) && (r.code == Fine && r.st != Lost ==> q == PositionOf(r.st))
    decreases if st.Frag? then |data| else Used(st) + |data|
  {
    hide HeaderEnd, HeaderLines, ApplyAll, FrameHeadOf, CrlfEnd, NewData;
    q := PositionOf(st);
    NothingNew(cap, st);
    if data == "" {
    } else if st.Lost? {
      LostSays(cap, data);
    } else if st.Hold? {
      HeldIs(cap, st, data);
      var raw := st.raw + data;
      var f := FrameHeadOf(raw);
      if |raw| >= 3 && f.Head? && f.length >= 0 && f.length + f.hdr <= INT_MAX {
        if f.hdr + f.length <= |raw| {
          q := WholeCounts(cap, raw, f.hdr, f.length);
        } else if |raw| == cap {
          q := FragmentCounts(raw, f.hdr, f.length);
        }
      }
    } else {
      PassingIs(cap, st, data);
      var left := st.total - st.offset;
      if |data| < left {
        var e := NewData(cap, st, data).events[0];
        CountedOne(q, e);
        q := Behind(e);
      } else {
        q := NewDataCounts(cap, Hold(""), data[left..]);
        CountedMore(PositionOf(st), Event(st.headers, data[..left], st.total, st.total),
                    NewData(cap, Hold(""), data[left..]), q);
      }
    }
  }

  lemma LostSays(cap: nat, data: string)
    requires |data| <= cap
    ensures NewData(cap, Lost, data) == Step(Lost, [], Fine)
  {
  }

  lemma {:induction false} WholeCounts(cap: nat, raw: string, hdr: nat, length: nat) returns (q: Position)
    requires 2 <= hdr && hdr + length <= |raw| <= cap
    ensures var r := Whole(cap, raw, hdr, length);
            Counted(Start, r.events, q) && (r.code == Fine && r.st != Lost ==> q == PositionOf(r.st))
    decreases |raw|, 0
  {
    hide HeaderEnd, HeaderLines, ApplyAll, CrlfEnd, NewData, Whole;
    var body, rest := raw[hdr..hdr + length], raw[hdr + length..];
    WholeIs(cap, raw, hdr, length, body, rest);
    var k := HeaderEnd(body);
    q := Start;
    if k != 0 {
      q := NewDataCounts(cap, Hold(""), rest);
      CountedMore(Start, Event(ApplyAll(NO_HEADERS, HeaderLines(body)), body[k..], length - k, length - k),
                  NewData(cap, Hold(""), rest), q);
    }
  }

  lemma FragmentCounts(raw: string, hdr: nat, length: nat) returns (q: Position)
    requires hdr <= |raw| < hdr + length
    ensures var r := Fragment(raw, hdr, length);
            Counted(Start, r.events, q) && (r.code == Fine ==> q == PositionOf(r.st))
  {
    hide HeaderEnd, HeaderLines, ApplyAll, CrlfEnd;
    q := Start;
    var s := Fragment(raw, hdr, length);
    if s.events != [] {
      CountedOne(Start, s.events[0]);
      q := Behind(s.events[0]);
    }
  }

  lemma {:induction false} FeedCounts(cap: nat, st: State, data: string) returns (q: Position)
    requires Sane(st) && Used(st) <= cap
    ensures var r := Feed(cap, st, data);
            Counted(PositionOf(st), r.events, q) && (r.code == Fine && r.st != Lost ==> q == PositionOf(r.st))
    decreases |data|
  {
    hide NewData, Feed;
    q := PositionOf(st);
    if data == "" {
      FedNothing(cap, st);
    } else {
      FeedIs(cap, st, data);
      var n := if |data| > cap - Used(st) then cap - Used(st) else |data|;
      if n > 0 {
        q := NewDataCounts(cap, st, data[..n]);
        var s := NewData(cap, st, data[..n]);
        if s.code == Fine {
          if s.st == Lost {
            FeedLost(cap, data[n..]);
            assert s.events + [] == s.events;
          } else {
            var q' := FeedCounts(cap, s.st, data[n..]);
            CountedJoin(PositionOf(st), s.events, q, Feed(cap, s.st, data[n..]).events, q');
            q := q';
          }
        }
      }
    }
  }

  lemma FedNothing(cap: nat, st: State)
    requires Sane(st) && Used(st) <= cap
    ensures Feed(cap, st, "") == Step(st, [], Fine)
  {
  }

  /** Whatever bytes come, cut anyhow: the offset of every callback counts the data of its chunk that
      was reported so far, and all callbacks of a chunk give the same total. */
  lemma {:induction false} AllCounted(cap: nat, st: State, pieces: seq<string>) returns (q: Position)
    requires Sane(st) && Used(st) <= cap
    ensures var r := FeedAll(cap, st, pieces);
            Counted(PositionOf(st), r.events, q) && (r.code == Fine && r.st != Lost ==> q == PositionOf(r.st))
    decreases |pieces|
  {
    hide Feed;
    q := PositionOf(st);
    if pieces != [] {
      q := FeedCounts(cap, st, pieces[0]);
      var s := Feed(cap, st, pieces[0]);
      if s.code == Fine {
        if s.st == Lost {
          AllLost(cap, pieces[1..]);
          assert s.events + [] == s.events;
        } else {
          var q' := AllCounted(cap, s.st, pieces[1..]);
          CountedJoin(PositionOf(st), s.events, q, FeedAll(cap, s.st, pieces[1..]).events, q');
          q := q';
        }
      }
    }
  }

  // ---- the EOF header of a fragment --------------------------------------------------

  ghost predicate AllComplete(events: seq<Event>) {
    forall i :: 0 <= i < |events| ==> events[i].offset == events[i].total
  }

  /** Frames are only broken up when they fill the buffer. */
  lemma {:induction false} OnlyWhole(cap: nat, raw: string, data: string)
    requires |raw| + |data| < cap
    ensures AllComplete(NewData(cap, Hold(raw), data).events)
    decreases |raw| + |data|
  {
    hide HeaderEnd, HeaderLines, ApplyAll, FrameHeadOf, CrlfEnd, NewData;
    if data == "" {
      NothingNew(cap, Hold(raw));
    } else {
      HeldIs(cap, Hold(raw), data);
      var all := raw + data;
      var f := FrameHeadOf(all);
      if |all| >= 3 && f.Head? && f.length >= 0 && f.length + f.hdr <= |all| {
        var body, rest := all[f.hdr..f.hdr + f.length], all[f.hdr + f.length..];
        WholeIs(cap, all, f.hdr, f.length, body, rest);
        OnlyWhole(cap, "", rest);
      }
    }
  }

  /** While the buffer is full, no callback but the last one of a chunk brings its EOF header. */
  lemma EofIsKeptBack(cap: nat, st: State, data: string, i: nat)
    requires Sane(st) && Used(st) + |data| == cap && data != "" && i < |NewData(cap, st, data).events|
    ensures var e := NewData(cap, st, data).events[i];
            e.offset < e.total ==> Eof !in e.headers.strs
  {
    hide HeaderEnd, HeaderLines, ApplyAll, FrameHeadOf, CrlfEnd, NewData;
    if st.Lost? {
      LostSays(cap, data);
    } else if st.Hold? {
      HeldIs(cap, st, data);
      var raw := st.raw + data;
      var f := FrameHeadOf(raw);
      if |raw| >= 3 && f.Head? && f.length >= 0 && f.length + f.hdr <= |raw| {
        var body, rest := raw[f.hdr..f.hdr + f.length], raw[f.hdr + f.length..];
        WholeIs(cap, raw, f.hdr, f.length, body, rest);
        OnlyWhole(cap, "", rest);
      }
    } else {
      PassingIs(cap, st, data);
      var left := st.total - st.offset;
      if |data| >= left {
        OnlyWhole(cap, "", data[left..]);
      }
    }
  }
}
