/** What the incremental parser of pkproto.c does, without its buffer: a state machine over
    the bytes handed in, and the proof that how the bytes are cut up does not matter. */
module ParserSpec {
  import opened Text
  import opened Wire

  /** One call of the chunk callback: the headers, a fragment of the data, how much of the
      chunk's data has been reported with it, and how much there is in all. */
  datatype Event = Event(headers: Headers, data: string, offset: int, total: int)

  /** Hold: the bytes of a frame nothing was reported of. Frag: a frame whose first `keep` bytes
      (length line and headers) stay in the buffer while its data passes through. Lost: the
      parser swallowed an error, or saw a negative length; the model ends there. */
  datatype State = Hold(raw: string) | Frag(keep: nat, headers: Headers, total: nat, offset: nat) | Lost

  datatype Code = Fine | BadFrame | BadChunk | NoMemory | TooLong

  datatype Step = Step(st: State, events: seq<Event>, code: Code)

  function Used(st: State): nat {
    match st
    case Hold(raw) => |raw|
    case Frag(keep, _, _, _) => keep
    case Lost => 0
  }

  predicate Sane(st: State) {
    st.Frag? ==> st.offset < st.total
  }

  /** While a full buffer forces a fragment, the EOF header is kept back. */
  function KeepBackEof(h: Headers): Headers {
    h.(strs := h.strs - {Eof})
  }

  function After(e: Event, s: Step): Step {
    if s.code.Fine? then Step(s.st, [e] + s.events, Fine) else Step(Lost, [e] + s.events, Fine)
  }

  /** `pk_parser_parse_new_data`: data was put behind the Used(st) bytes already in a buffer of
      cap bytes. An error among leftovers is not passed on (Lost). */
  function NewData(cap: nat, st: State, data: string): (r: Step)
    requires Sane(st) && Used(st) + |data| <= cap
    ensures Sane(r.st) && Used(r.st) <= cap
    decreases if st.Frag? then |data| else Used(st) + |data|
  {
    if data == "" || st.Lost? then Step(st, [], Fine)
    else if st.Hold? then
      var raw := st.raw + data;
      if |raw| < 3 then Step(Hold(raw), [], Fine)
      else
        match FrameHeadOf(raw)
        case NoHead => Step(Hold(raw), [], Fine)
        case BadHead => Step(Hold(raw), [], BadFrame)
        case Head(hdr, length) =>
          if length < 0 then Step(Lost, [], Fine)
          else if length + hdr > INT_MAX then Step(Lost, [], TooLong)
          else if hdr + length <= |raw| then Whole(cap, raw, hdr, length)
          else if |raw| < cap then Step(Hold(raw), [], Fine)
          else Fragment(raw, hdr, length)
    else
      var left := st.total - st.offset;
      if |data| < left then
        var h := if st.keep + |data| == cap then KeepBackEof(st.headers) else st.headers;
        Step(st.(offset := st.offset + |data|), [Event(h, data, st.offset + |data|, st.total)], Fine)
      else
        After(Event(st.headers, data[..left], st.total, st.total), NewData(cap, Hold(""), data[left..]))
  }

  /** A frame that is wholly in the buffer is reported at once; what follows it is parsed next. */
  function Whole(cap: nat, raw: string, hdr: nat, length: nat): (r: Step)
    requires 2 <= hdr && hdr + length <= |raw| <= cap
    ensures Sane(r.st) && Used(r.st) <= cap
    decreases |raw|, 0
  {
    var body := raw[hdr..hdr + length];
    var k := HeaderEnd(body);
    if k == 0 then Step(Hold(raw), [], BadChunk)
    else
      After(Event(ApplyAll(NO_HEADERS, HeaderLines(body)), body[k..], length - k, length - k),
            NewData(cap, Hold(""), raw[hdr + length..]))
  }

  /** The buffer is full and the frame goes on: report what there is. */
  function Fragment(raw: string, hdr: nat, length: nat): (r: Step)
    requires hdr <= |raw| < hdr + length
    ensures Sane(r.st) && Used(r.st) <= |raw|
  {
    var body := raw[hdr..];
    var k := HeaderEnd(body);
    if k == 0 then Step(Hold(raw), [], BadChunk)
    else
      var h := ApplyAll(NO_HEADERS, HeaderLines(body));
      Step(Frag(hdr + k, h, length - k, |body| - k),
           [Event(KeepBackEof(h), body[k..], |body| - k, length - k)], Fine)
  }

  lemma NothingNew(cap: nat, st: State)
    requires Sane(st) && Used(st) <= cap
    ensures NewData(cap, st, "") == Step(st, [], Fine)
  {
  }

  lemma HeldIs(cap: nat, st: State, data: string)
    requires st.Hold? && data != "" && |st.raw| + |data| <= cap
    ensures var raw := st.raw + data;
            NewData(cap, st, data) ==
            if |raw| < 3 then Step(Hold(raw), [], Fine)
            else
              match FrameHeadOf(raw)
              case NoHead => Step(Hold(raw), [], Fine)
              case BadHead => Step(Hold(raw), [], BadFrame)
              case Head(hdr, length) =>
                if length < 0 then Step(Lost, [], Fine)
                else if length + hdr > INT_MAX then Step(Lost, [], TooLong)
                else if hdr + length <= |raw| then Whole(cap, raw, hdr, length)
                else if |raw| < cap then Step(Hold(raw), [], Fine)
                else Fragment(raw, hdr, length)
  {
    hide Whole, Fragment, FrameHeadOf, CrlfEnd;
  }

  lemma WholeIs(cap: nat, raw: string, hdr: nat, length: nat, body: string, rest: string)
    requires 2 <= hdr && hdr + length <= |raw| <= cap
    requires body == raw[hdr..hdr + length] && rest == raw[hdr + length..]
    ensures var k := HeaderEnd(body);
            Whole(cap, raw, hdr, length) ==
            if k == 0 then Step(Hold(raw), [], BadChunk)
            else
              After(Event(ApplyAll(NO_HEADERS, HeaderLines(body)), body[k..], length - k, length - k),
                    NewData(cap, Hold(""), rest))
  {
    hide NewData, HeaderEnd, HeaderLines, ApplyAll, CrlfEnd;
  }

  lemma PassingIs(cap: nat, st: State, data: string)
    requires st.Frag? && Sane(st) && data != "" && st.keep + |data| <= cap
    ensures var left := st.total - st.offset;
            NewData(cap, st, data) ==
            if |data| < left then
              Step(st.(offset := st.offset + |data|),
                   [Event(if st.keep + |data| == cap then KeepBackEof(st.headers) else st.headers,
                          data, st.offset + |data|, st.total)], Fine)
            else
              After(Event(st.headers, data[..left], st.total, st.total), NewData(cap, Hold(""), data[left..]))
  {
  }

  lemma PassingGoes(cap: nat, st: State, data: string)
    requires st.Frag? && Sane(st) && data != "" && st.keep + |data| <= cap && |data| < st.total - st.offset
    ensures NewData(cap, st, data) ==
            Step(Frag(st.keep, st.headers, st.total, st.offset + |data|),
                 [Event(if st.keep + |data| == cap then KeepBackEof(st.headers) else st.headers,
                        data, st.offset + |data|, st.total)], Fine)
  {
  }

  lemma PassingStops(cap: nat, st: State, data: string)
    requires st.Frag? && Sane(st) && data != "" && st.keep + |data| <= cap && |data| >= st.total - st.offset
    ensures var left := st.total - st.offset;
            NewData(cap, st, data) ==
            After(Event(st.headers, data[..left], st.total, st.total), NewData(cap, Hold(""), data[left..]))
  {
  }

  lemma AfterEvents(before: seq<Event>, e: Event, s: Step)
    ensures before + After(e, s).events == (before + [e]) + s.events
    ensures After(e, s).code == Fine && After(e, s).st == if s.code == Fine then s.st else Lost
  {
  }

  /** `pk_parser_parse`: hands data over in pieces the buffer has room for. */
  function Feed(cap: nat, st: State, data: string): (r: Step)
    requires Sane(st) && Used(st) <= cap
    ensures Sane(r.st) && Used(r.st) <= cap
    decreases |data|
  {
    if data == "" then Step(st, [], Fine)
    else if Used(st) == cap then Step(st, [], NoMemory)
    else
      var n := if |data| > cap - Used(st) then cap - Used(st) else |data|;
      var s := NewData(cap, st, data[..n]);
      if !s.code.Fine? then Step(if s.code.TooLong? then Lost else Hold(""), s.events, s.code)
      else
        var t := Feed(cap, s.st, data[n..]);
        Step(t.st, s.events + t.events, t.code)
  }

  lemma FeedIs(cap: nat, st: State, data: string)
    requires Sane(st) && Used(st) <= cap && data != ""
    ensures var n := if |data| > cap - Used(st) then cap - Used(st) else |data|;
            Feed(cap, st, data) ==
            if n == 0 then Step(st, [], NoMemory)
            else
              var s := NewData(cap, st, data[..n]);
              if !s.code.Fine? then Step(if s.code.TooLong? then Lost else Hold(""), s.events, s.code)
              else
                var t := Feed(cap, s.st, data[n..]);
                Step(t.st, s.events + t.events, t.code)
  {
    hide NewData;
  }

  /** Feeding data from st0 has so far reported `events` and come to st, with `rest` to go. */
  ghost predicate FedTo(cap: nat, st0: State, data: string, events: seq<Event>, st: State, rest: string) {
    && Sane(st0) && Used(st0) <= cap && Sane(st) && Used(st) <= cap
    && var t := Feed(cap, st, rest);
       Feed(cap, st0, data) == Step(t.st, events + t.events, t.code)
  }

  lemma FedToStart(cap: nat, st: State, data: string)
    requires Sane(st) && Used(st) <= cap
    ensures FedTo(cap, st, data, [], st, data)
  {
    hide Feed;
    assert [] + Feed(cap, st, data).events == Feed(cap, st, data).events;
  }

  lemma FedToStep(cap: nat, st0: State, data: string, events: seq<Event>, st: State, rest: string)
    requires FedTo(cap, st0, data, events, st, rest) && rest != "" && Used(st) < cap
    ensures var n := if |rest| > cap - Used(st) then cap - Used(st) else |rest|;
            var s := NewData(cap, st, rest[..n]);
            if s.code == Fine then FedTo(cap, st0, data, events + s.events, s.st, rest[n..])
            else Feed(cap, st0, data) == Step(if s.code == TooLong then Lost else Hold(""), events + s.events, s.code)
  {
    hide Feed, NewData;
    FeedIs(cap, st, rest);
    var n := if |rest| > cap - Used(st) then cap - Used(st) else |rest|;
    var s := NewData(cap, st, rest[..n]);
    if s.code == Fine {
      var t := Feed(cap, s.st, rest[n..]);
      assert events + (s.events + t.events) == events + s.events + t.events;
    }
  }

  /** Of a lost parser nothing more is said. */
  lemma {:induction false} FeedLost(cap: nat, data: string)
    ensures Feed(cap, Lost, data).st == Lost && Feed(cap, Lost, data).events == []
    decreases |data|
  {
    if data != "" && cap > 0 {
      var n := if |data| > cap then cap else |data|;
      FeedLost(cap, data[n..]);
    }
  }

  lemma FedToEnd(cap: nat, st0: State, data: string, events: seq<Event>, st: State, rest: string)
    requires FedTo(cap, st0, data, events, st, rest)
    ensures rest == "" ==> Feed(cap, st0, data) == Step(st, events, Fine)
    ensures rest != "" && Used(st) == cap ==> Feed(cap, st0, data) == Step(st, events, NoMemory)
    ensures st == Lost ==> Feed(cap, st0, data).st == Lost && Feed(cap, st0, data).events == events
  {
    hide NewData;
    FeedLost(cap, rest);
    assert events + [] == events;
  }

  /** A run of `pk_parser_parse` calls, up to the first that fails. */
  function FeedAll(cap: nat, st: State, pieces: seq<string>): (r: Step)
    requires Sane(st) && Used(st) <= cap
    ensures Sane(r.st) && Used(r.st) <= cap
    decreases |pieces|
  {
    if pieces == [] then Step(st, [], Fine)
    else
      var s := Feed(cap, st, pieces[0]);
      if !s.code.Fine? then s
      else
        var t := FeedAll(cap, s.st, pieces[1..]);
        Step(t.st, s.events + t.events, t.code)
  }

  lemma {:induction false} AllLost(cap: nat, pieces: seq<string>)
    ensures FeedAll(cap, Lost, pieces).st == Lost && FeedAll(cap, Lost, pieces).events == []
    decreases |pieces|
  {
    hide Feed;
    if pieces != [] {
      FeedLost(cap, pieces[0]);
      AllLost(cap, pieces[1..]);
    }
  }

  // ---- Reading the callbacks back ---------------------------------------------------

  /** What the receiver has of the message it is in the middle of. */
  datatype Partial = Nothing | Part(headers: Headers, data: string)

  datatype Received = Received(messages: seq<Message>, partial: Partial)

  /** Fragments are joined if they come under the same headers, except for the EOF header, which
      the callbacks report on some fragments only. */
  function Joined(p: Partial, e: Event): string {
    (if p.Part? && p.headers == KeepBackEof(e.headers) then p.data else "") + e.data
  }

  /** Joins fragments: a message is complete when all of its data was reported, with the headers
      of that callback. */
  function Receive(p: Partial, events: seq<Event>): Received
    decreases |events|
  {
    if events == [] then Received([], p)
    else
      var e := events[0];
      var data := Joined(p, e);
      if e.offset == e.total then
        var r := Receive(Nothing, events[1..]);
        Received([Message(e.headers, data)] + r.messages, r.partial)
      else Receive(Part(KeepBackEof(e.headers), data), events[1..])
  }

  lemma {:induction false} ReceiveAppend(p: Partial, a: seq<Event>, b: seq<Event>)
    ensures var r := Receive(p, a);
            var t := Receive(r.partial, b);
            Receive(p, a + b) == Received(r.messages + t.messages, t.partial)
    decreases |a|
  {
    if a == [] {
      assert a + b == b;
      var t := Receive(p, b);
      assert [] + t.messages == t.messages;
    } else {
      var e := a[0];
      assert (a + b)[0] == e && (a + b)[1..] == a[1..] + b;
      var data := Joined(p, e);
      if e.offset == e.total {
        ReceiveAppend(Nothing, a[1..], b);
      } else {
        ReceiveAppend(Part(KeepBackEof(e.headers), data), a[1..], b);
      }
    }
  }
}
