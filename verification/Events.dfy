/** Numbers as bytes. */
module Bytes {
  lemma ByteOf(i: nat)
    requires i < 256
    ensures (i as bv8) as nat == i
  {
  }
}

/** The event slots of pkhooks.c: a fixed table through which callbacks are posted, claimed by a
    worker, answered and freed. Each operation is one step here; the source takes the lock for
    posting, claiming and freeing, and not for answering and cancelling. */
module Events {
  import opened Text
  import Bytes

  const SLOTS_MAX := 256

  const EV_ALL: bv32 := 0xff00_0000
  const IS_BLOCKING: bv32 := 0x8000_0000
  const PROCESSING: bv32 := 0x4000_0000
  const SLOT_MASK: bv32 := 0x00ff_0000
  const TYPE_MASK: bv32 := 0x3f00_ffff
  const SHUTDOWN: bv32 := 0x3f00_0001

  /** A slot. Its code holds the two flags, the type and the slot number; posted is 0 when
      nothing is. */
  datatype Event = Event(code: bv32, posted: nat, info: int, text: Option<string>, response: nat)

  predicate Blocking(e: Event) {
    e.code & IS_BLOCKING != 0
  }

  predicate Processing(e: Event) {
    e.code & PROCESSING != 0
  }

  predicate Shutdown(e: Event) {
    e.code & TYPE_MASK == SHUTDOWN
  }

  /** Waiting for a worker. */
  predicate Waiting(e: Event) {
    e.posted > 0 && !Processing(e)
  }

  /** A slot that a new event may take. */
  predicate Open(e: Event) {
    !Blocking(e) && !Processing(e)
  }

  // ---- the code word ----------------------------------------------------------------

  /** i << PK_EV_SLOT_SHIFT */
  function SlotCode(i: nat): bv32
    requires i < SLOTS_MAX
  {
    ((i as bv8) as bv32) << 16
  }

  /** The index that _EV takes from a code. */
  function SlotOf(code: bv32): nat {
    SlotByte(code) as nat
  }

  function SlotByte(code: bv32): bv8 {
    ((code & SLOT_MASK) >> 16) as bv8
  }

  /** The bits of a code that hold the slot number. */
  function SlotPart(code: bv32): bv32 {
    code & SLOT_MASK
  }

  predicate Numbered(e: Event, i: nat) {
    i < SLOTS_MAX && SlotPart(e.code) == SlotCode(i)
  }

  lemma SlotBits(code: bv32, b: bv8)
    requires SlotPart(code) == (b as bv32) << 16
    ensures SlotByte(code) == b
  {
  }

  /** A slot is found again through its code. */
  lemma NumberFinds(e: Event, i: nat)
    requires Numbered(e, i)
    ensures SlotOf(e.code) == i
  {
    SlotBits(e.code, i as bv8);
    Bytes.ByteOf(i);
    hide SlotByte, SlotPart, SlotCode;
  }

  /** A type of event has no flags, and no slot number. */
  predicate Kind(kind: bv32) {
    kind & TYPE_MASK == kind
  }

  /** `(code & PK_EV_SLOT_MASK) | event_type` */
  function Retyped(code: bv32, kind: bv32, blocking: bool): bv32 {
    (code & SLOT_MASK) | (kind | if blocking then IS_BLOCKING else 0)
  }

  lemma RetypedBits(code: bv32, kind: bv32, blocking: bool)
    requires Kind(kind)
    ensures var c := Retyped(code, kind, blocking);
            && SlotPart(c) == SlotPart(code) && c & PROCESSING == 0 && (c & IS_BLOCKING != 0 <==> blocking)
            && c & TYPE_MASK == kind
  {
  }

  function Claimed(code: bv32): bv32 {
    code | PROCESSING
  }

  function Unclaimed(code: bv32): bv32 {
    code & (0xffff_ffff ^ PROCESSING)
  }

  lemma ClaimedBits(code: bv32)
    ensures var c := Claimed(code);
            && SlotPart(c) == SlotPart(code) && c & PROCESSING != 0
            && c & IS_BLOCKING == code & IS_BLOCKING && c & TYPE_MASK == code & TYPE_MASK
  {
  }

  lemma UnclaimedBits(code: bv32)
    ensures var u := Unclaimed(code);
            SlotPart(u) == SlotPart(code) && u & PROCESSING == 0 && u & IS_BLOCKING == code & IS_BLOCKING
  {
  }

  lemma SlotPartBits(code: bv32)
    ensures var f := SlotPart(code);
            SlotPart(f) == f && f & PROCESSING == 0 && f & IS_BLOCKING == 0
  {
  }

  // ---- the table --------------------------------------------------------------------

  /** Slot i keeps the number i; slot 0 is the event that means there is none. */
  ghost predicate Table(es: seq<Event>) {
    1 < |es| <= SLOTS_MAX && (forall i :: 0 <= i < |es| ==> Numbered(es[i], i)) && es[0] == Event(0, 0, 0, None, 0)
  }

  function FreedEvent(e: Event): Event {
    Event(SlotPart(e.code), 0, 0, None, 0)
  }

  /** A new event; now is the time. */
  datatype Letter = Letter(kind: bv32, blocking: bool, info: int, text: Option<string>, now: nat)

  function PostedEvent(e: Event, l: Letter): Event {
    Event(Retyped(e.code, l.kind, l.blocking), l.now, l.info, l.text, 0)
  }

  function ClaimedEvent(e: Event): Event {
    e.(code := Claimed(e.code))
  }

  /** The slot after a response to its event. */
  function AnsweredEvent(e: Event, code: nat): Event {
    if Shutdown(e) then e
    else if !Blocking(e) then e.(posted := 0, code := Unclaimed(e.code))
    else e.(response := code)
  }

  /** k is the first of the oldest slots that are open, or that wait. */
  ghost predicate OldestOpen(es: seq<Event>, k: nat) {
    && 0 < k < |es| && Open(es[k])
    && forall i :: 0 < i < |es| && Open(es[i]) ==>
         es[k].posted <= es[i].posted && (i < k ==> es[k].posted < es[i].posted)
  }

  ghost predicate OldestWaiting(es: seq<Event>, k: nat) {
    && 0 < k < |es| && Waiting(es[k])
    && forall i :: 0 < i < |es| && Waiting(es[i]) ==>
         es[k].posted <= es[i].posted && (i < k ==> es[k].posted < es[i].posted)
  }

  ghost predicate SomeOpen(es: seq<Event>) {
    exists i :: 0 < i < |es| && Open(es[i])
  }

  datatype Op = Posted(k: nat, letter: Letter) | Refused | Awaited(k: nat) | TimedOut
              | Responded(k: nat, code: nat) | Freed(k: nat) | Cancelled

  /** What each operation does to the table. */
  ghost predicate Step(a: seq<Event>, op: Op, b: seq<Event>) {
    match op
    case Posted(k, l) =>
      && 0 < k < |a| && Kind(l.kind) && 0 < l.now && b == a[k := PostedEvent(a[k], l)]
      && if SomeOpen(a) then OldestOpen(a, k) else k == 1
    case Refused => b == a
    case Awaited(k) => OldestWaiting(a, k) && b == a[k := ClaimedEvent(a[k])]
    case TimedOut => b == a && forall i :: 0 < i < |a| ==> !Waiting(a[i])
    case Responded(k, code) =>
      k < |a| && if k == 0 then b == a else Processing(a[k]) && b == a[k := AnsweredEvent(a[k], code)]
    case Freed(k) => k < |a| && b == a[k := FreedEvent(a[k])]
    case Cancelled =>
      && |b| == |a| && |a| > 0 && b[0] == a[0]
      && forall i :: 0 < i < |a| ==> b[i] == if Waiting(a[i]) then AnsweredEvent(ClaimedEvent(a[i]), 0) else a[i]
  }

  ghost predicate Run(tables: seq<seq<Event>>, ops: seq<Op>) {
    && |tables| == |ops| + 1 && Table(tables[0])
    && forall t :: 0 <= t < |ops| ==> Step(tables[t], ops[t], tables[t + 1])
  }

  lemma EventKeepsNumber(e: Event, i: nat, l: Letter, code: nat)
    requires Numbered(e, i) && Kind(l.kind)
    ensures Numbered(PostedEvent(e, l), i) && Numbered(ClaimedEvent(e), i) && Numbered(FreedEvent(e), i)
    ensures Numbered(AnsweredEvent(e, code), i)
  {
    RetypedBits(e.code, l.kind, l.blocking);
    ClaimedBits(e.code);
    UnclaimedBits(e.code);
    SlotPartBits(e.code);
    hide Retyped, Claimed, Unclaimed, SlotCode, SlotPart, Blocking, Shutdown;
  }

  /** Whatever is done, slot i's code keeps slot number i. */
  lemma StepKeepsNumbers(a: seq<Event>, op: Op, b: seq<Event>)
    requires Table(a) && Step(a, op, b)
    ensures Table(b) && |b| == |a|
  {
    assert FreedEvent(a[0]) == a[0];
    hide Numbered, Open, PostedEvent, ClaimedEvent, AnsweredEvent, FreedEvent, Waiting, Processing, Kind;
    KindZero();
    var l := if op.Posted? then op.letter else Letter(0, false, 0, None, 0);
    var code := if op.Responded? then op.code else 0;
    forall i | 0 <= i < |b|
      ensures Numbered(b[i], i)
    {
      assert Numbered(a[i], i);
      EventKeepsNumber(a[i], i, l, code);
      EventKeepsNumber(ClaimedEvent(a[i]), i, l, 0);
    }
  }

  lemma KindZero()
    ensures Kind(0)
  {
  }

  lemma {:induction false} RunKeepsNumbers(tables: seq<seq<Event>>, ops: seq<Op>, t: nat)
    requires Run(tables, ops) && t <= |ops|
    ensures Table(tables[t]) && |tables[t]| == |tables[0]|
  {
    hide Table, Step;
    if t > 0 {
      RunKeepsNumbers(tables, ops, t - 1);
      StepKeepsNumbers(tables[t - 1], ops[t - 1], tables[t - 1 + 1]);
    }
  }

  // ---- claims -----------------------------------------------------------------------

  /** What ends a claim: the answer, or, if the poster is blocked, its clean-up. */
  ghost predicate Ends(e: Event, op: Op, k: nat) {
    op == Freed(k) || (op.Responded? && op.k == k && !Blocking(e) && !Shutdown(e))
  }

  /** The event is still the one that was claimed, answered or not. */
  predicate SameClaim(e: Event, f: Event) {
    Processing(f) && f == e.(response := f.response)
  }

  /** A post leaves the event in slot k alone: only slot 1 is ever taken when no slot is open. */
  ghost predicate Spares(a: seq<Event>, op: Op, k: nat) {
    op.Posted? ==> SomeOpen(a) || k != 1
  }

  /** One step keeps a claim that it does not end, if and only if it spares it. */
  lemma ClaimStep(a: seq<Event>, op: Op, b: seq<Event>, k: nat)
    requires Step(a, op, b) && 0 < k < |a| && Processing(a[k]) && !Ends(a[k], op, k)
    ensures k < |b| && op != Awaited(k)
    ensures SameClaim(a[k], b[k]) <==> Spares(a, op, k)
    ensures Spares(a, op, k) ==> !(op.Posted? && op.k == k)
  {
    if op.Posted? {
      RetypedBits(a[op.k].code, op.letter.kind, op.letter.blocking);
    }
    hide Retyped, Claimed, Unclaimed;
  }

  /** A post keeps every claim if and only if some slot is open or slot 1 is not claimed. */
  lemma PostKeepsClaims(a: seq<Event>, op: Op, b: seq<Event>)
    requires Table(a) && Step(a, op, b) && op.Posted?
    ensures |b| == |a|
    ensures (forall i :: 0 < i < |a| && Processing(a[i]) ==> SameClaim(a[i], b[i]))
            <==> SomeOpen(a) || !Processing(a[1])
  {
    StepKeepsNumbers(a, op, b);
    hide Processing, SameClaim, Step;
    forall i | 0 < i < |a| && Processing(a[i])
      ensures SameClaim(a[i], b[i]) <==> SomeOpen(a) || i != 1
    {
      ClaimStep(a, op, b, i);
    }
  }

  /** In every run, from the moment a worker has claimed an event and until the claim is ended by
      an answer (by freeing it, if its poster is blocked), the event stays as it was claimed if
      and only if every post spares it: there is an open slot, or the event is not in slot 1.
      Then it is not given out again either. Answering a shutdown event does not end the claim. */
  lemma {:induction false} ClaimHolds(tables: seq<seq<Event>>, ops: seq<Op>, s: nat, t: nat, k: nat)
    requires Run(tables, ops) && s < t <= |ops| && ops[s] == Awaited(k)
    requires forall u :: s < u < t ==> k < |tables[u]| && !Ends(tables[u][k], ops[u], k)
    ensures 0 < k < |tables[s + 1]| && forall u :: s < u <= t ==> |tables[u]| == |tables[s + 1]|
    ensures (forall u :: s < u <= t ==> SameClaim(tables[s + 1][k], tables[u][k]))
            <==> (forall u :: s < u < t ==> Spares(tables[u], ops[u], k))
    ensures (forall u :: s < u < t ==> Spares(tables[u], ops[u], k)) ==>
              forall u :: s < u < t ==> ops[u] != Awaited(k) && !(ops[u].Posted? && ops[u].k == k)
    decreases t
  {
    assert Step(tables[s], ops[s], tables[s + 1]);
    ClaimedBits(tables[s][k].code);
    forall u | s < u <= t
      ensures |tables[u]| == |tables[s + 1]|
    {
      RunKeepsNumbers(tables, ops, u);
      RunKeepsNumbers(tables, ops, s + 1);
    }
    if t > s + 1 {
      var u := t - 1;
      ClaimHolds(tables, ops, s, u, k);
      assert Step(tables[u], ops[u], tables[u + 1]);
      hide Step, Spares, Run, Processing, Ends;
      if forall v :: s < v <= u ==> SameClaim(tables[s + 1][k], tables[v][k]) {
        assert SameClaim(tables[s + 1][k], tables[u][k]);
        ClaimStep(tables[u], ops[u], tables[t], k);
        assert SameClaim(tables[s + 1][k], tables[t][k]) <==> SameClaim(tables[u][k], tables[t][k]);
      }
    }
  }

  class EventTable {
    const events: array<Event>
    /** Which types of event anyone wants. */
    var eventMask: bv32

    ghost predicate Valid()
      reads events
    {
      Table(events[..])
    }

    /** `pke_init_events`, with 12 slots a thread. */
    constructor (threads: nat, mask: bv32)
      requires 0 < threads
      ensures Valid() && fresh(events) && eventMask == mask
      ensures events.Length == if threads * 12 > SLOTS_MAX then SLOTS_MAX else threads * 12
      ensures forall i :: 0 <= i < events.Length ==> events[i] == Event(SlotCode(i), 0, 0, None, 0)
    {
      var n := threads * 12;
      if n > SLOTS_MAX {
        n := SLOTS_MAX;
      }
      eventMask := mask;
      events := new Event[n](i => Event(if 0 <= i < SLOTS_MAX then SlotCode(i) else 0, 0, 0, None, 0));
      new;
      forall i | 0 <= i < n
        ensures Numbered(events[i], i)
      {
        NumberedAtFirst(i);
      }
      FirstIsNone();
    }

    static lemma NumberedAtFirst(i: nat)
      requires i < SLOTS_MAX
      ensures Numbered(Event(SlotCode(i), 0, 0, None, 0), i)
    {
      var b := i as bv8;
      assert ((b as bv32) << 16) & SLOT_MASK == (b as bv32) << 16;
    }

    static lemma FirstIsNone()
      ensures SlotCode(0) == 0
    {
    }

    /** `_pke_get_oldest_event`, among the slots that are not excluded; 0 if there is none. */
    method Oldest(nonzero: bool, excluded: bv32) returns (k: nat)
      requires Valid()
      ensures k < events.Length
      ensures k > 0 ==>
                && Candidate(events[k], nonzero, excluded)
                && forall i :: 0 < i < events.Length && Candidate(events[i], nonzero, excluded) ==>
                     events[k].posted <= events[i].posted && (i < k ==> events[k].posted < events[i].posted)
      ensures k == 0 ==> forall i :: 0 < i < events.Length ==> !Candidate(events[i], nonzero, excluded)
    {
      hide Candidate, Table;
      TableSize();
      k := 0;
      var i := 1;
      while i < events.Length
        invariant 1 <= i <= events.Length && k < i
        invariant k > 0 ==> Candidate(events[k], nonzero, excluded)
        invariant forall j :: 0 < j < i && Candidate(events[j], nonzero, excluded) ==>
                    k > 0 && events[k].posted <= events[j].posted && (j < k ==> events[k].posted < events[j].posted)
      {
        var ev := events[i];
        if Candidate(ev, nonzero, excluded) && (k == 0 || ev.posted < events[k].posted) {
          k := i;
          if ev.posted == 0 {
            return;
          }
        }
        i := i + 1;
      }
    }

    lemma TableSize()
      requires Valid()
      ensures 1 < events.Length
    {
    }

    predicate Candidate(e: Event, nonzero: bool, excluded: bv32) {
      e.code & excluded == 0 && (!nonzero || e.posted > 0)
    }

    static lemma ExcludedBits(code: bv32)
      ensures code & (IS_BLOCKING | PROCESSING) == 0 <==> code & IS_BLOCKING == 0 && code & PROCESSING == 0
    {
    }

    /** `_pke_unlocked_post_event` behind its test of the mask */
    method Place(l: Letter) returns (k: nat, ghost op: Op)
      requires Valid() && Kind(l.kind) && 0 < l.now
      modifies events
      ensures Valid() && op == Posted(k, l) && Step(old(events[..]), op, events[..])
    {
      ghost var was := events[..];
      k := Oldest(false, IS_BLOCKING | PROCESSING);
      forall i | 0 < i < |was|
        ensures Candidate(was[i], false, IS_BLOCKING | PROCESSING) <==> Open(was[i])
      {
        ExcludedBits(was[i].code);
      }
      hide Candidate, Open;
      if k == 0 {
        k := 1;
      }
      op := Posted(k, l);
      events[k] := PostedEvent(events[k], l);
      assert events[..] == was[k := PostedEvent(was[k], l)];
      StepKeepsNumbers(was, op, events[..]);
    }

    /** `pke_post_event` and the posting of a blocking event: the mask is asked for the type alone,
        before the flag of a blocking event is added. */
    method Post(l: Letter) returns (k: nat, ghost op: Op)
      requires Valid() && Kind(l.kind) && 0 < l.now
      modifies events
      ensures Valid() && Step(old(events[..]), op, events[..])
      ensures op == if eventMask == 0xff00_0000 || l.kind & eventMask != 0 then Posted(k, l) else Refused
    {
      hide Table, Step, Kind;
      if eventMask != EV_ALL && l.kind & eventMask == 0 {
        k, op := 0, Refused;
        Unposted(events[..]);
      } else {
        k, op := Place(l);
      }
    }

    static lemma Unposted(a: seq<Event>)
      ensures Step(a, Refused, a)
    {
    }

    /** One round of `pke_await_event`: the oldest event that waits, which is claimed, or none. */
    method Await() returns (k: nat, ghost op: Op)
      requires Valid()
      modifies events
      ensures Valid() && Step(old(events[..]), op, events[..]) && op == if k == 0 then TimedOut else Awaited(k)
    {
      ghost var was := events[..];
      k := Oldest(true, PROCESSING);
      assert forall i :: 0 < i < |was| ==> (Candidate(was[i], true, PROCESSING) <==> Waiting(was[i]));
      hide Candidate, Waiting;
      op := if k == 0 then TimedOut else Awaited(k);
      if k > 0 {
        events[k] := ClaimedEvent(events[k]);
        assert events[..] == was[k := ClaimedEvent(was[k])];
      }
      StepKeepsNumbers(was, op, events[..]);
    }

    /** The part of `pke_post_response` after its assertion. */
    method Answer(k: nat, code: nat)
      requires 0 < k < events.Length
      modifies events
      ensures events[..] == old(events[..])[k := AnsweredEvent(old(events[k]), code)]
    {
      hide Shutdown, Blocking, Unclaimed;
      ghost var was := events[..];
      var ev := events[k];
      if Shutdown(ev) {
        assert was == was[k := ev];
        return;
      }
      if !Blocking(ev) {
        events[k] := ev.(posted := 0, code := Unclaimed(ev.code));
        return;
      }
      events[k] := ev.(response := code);
    }

    /** `pke_post_response`: the answer to a claimed event, found by its code. */
    method Respond(eventCode: bv32, code: nat) returns (k: nat, ghost op: Op)
      requires Valid() && SlotOf(eventCode) < events.Length
      requires Processing(events[SlotOf(eventCode)]) || SlotOf(eventCode) == 0
      modifies events
      ensures k == SlotOf(eventCode) && op == Responded(k, code)
      ensures Valid() && Step(old(events[..]), op, events[..])
    {
      ghost var was := events[..];
      k := SlotOf(eventCode);
      op := Responded(k, code);
      if events[k].code == 0 {
        Unclaimable(was[k]);
        return;
      }
      Answer(k, code);
      StepKeepsNumbers(was, op, events[..]);
    }

    static lemma Unclaimable(e: Event)
      requires e.code == 0
      ensures !Processing(e)
    {
    }

    /** `pke_free_event` */
    method Free(eventCode: bv32) returns (k: nat, ghost op: Op)
      requires Valid() && SlotOf(eventCode) < events.Length
      modifies events
      ensures k == SlotOf(eventCode) && op == Freed(k)
      ensures Valid() && Step(old(events[..]), op, events[..])
    {
      k := SlotOf(eventCode);
      op := Freed(k);
      ghost var was := events[..];
      events[k] := FreedEvent(events[k]);
      assert events[..] == was[k := FreedEvent(was[k])];
      StepKeepsNumbers(was, op, events[..]);
    }

    /** `pke_cancel_all_events` */
    method CancelAll() returns (ghost op: Op)
      requires Valid()
      modifies events
      ensures op == Cancelled && Valid() && Step(old(events[..]), op, events[..])
    {
      op := Cancelled;
      ghost var was := events[..];
      hide AnsweredEvent, ClaimedEvent;
      var i := 1;
      while i < events.Length
        invariant 1 <= i <= events.Length && events[0] == was[0]
        invariant forall j :: i <= j < events.Length ==> events[j] == was[j]
        invariant forall j :: 0 < j < i ==>
                    events[j] == if Waiting(was[j]) then AnsweredEvent(ClaimedEvent(was[j]), 0) else was[j]
      {
        if events[i].posted > 0 && events[i].code & PROCESSING == 0 {
          events[i] := ClaimedEvent(events[i]);
          Answer(i, 0);
        }
        i := i + 1;
      }
      StepKeepsNumbers(was, op, events[..]);
    }
  }


  /** Free, and never used since it was made or freed. */
  predicate Unused(e: Event) {
    Open(e) && e.posted == 0
  }

  /** A table whose first slots are claimed and whose others are unused. */
  ghost predicate FilledUpTo(es: seq<Event>, i: nat) {
    && (forall j :: 0 < j < i && j < |es| ==> Processing(es[j]))
    && forall j :: 0 < j && i <= j < |es| ==> Unused(es[j])
  }

  /** A post takes the first unused slot, and the next claim takes its event. */
  lemma FillOne(a: seq<Event>, op: Op, b: seq<Event>, op': Op, c: seq<Event>, i: nat)
    requires FilledUpTo(a, i) && 0 < i < |a| && op.Posted? && Step(a, op, b)
    requires (op'.Awaited? || op' == TimedOut) && Step(b, op', c)
    ensures op.k == i && op' == Awaited(i) && FilledUpTo(c, i + 1)
  {
    RetypedBits(a[op.k].code, op.letter.kind, op.letter.blocking);
    hide Retyped, Claimed, Numbered;
    assert Open(a[i]);
    assert op.k == i;
    assert Waiting(b[i]);
    assert op' == Awaited(i);
    ClaimedBits(b[i].code);
  }

  lemma RunOn(tables: seq<seq<Event>>, ops: seq<Op>, op: Op, b: seq<Event>)
    requires Run(tables, ops) && Step(tables[|ops|], op, b)
    ensures Run(tables + [b], ops + [op])
  {
    hide Step, Table;
    var ts, os := tables + [b], ops + [op];
    forall t | 0 <= t < |os|
      ensures Step(ts[t], os[t], ts[t + 1])
    {
      if t < |ops| {
        assert Step(tables[t], ops[t], tables[t + 1]);
      }
    }
  }

  lemma AtFirst(es: seq<Event>)
    requires |es| <= SLOTS_MAX && forall j :: 0 <= j < |es| ==> es[j] == Event(SlotCode(j), 0, 0, None, 0)
    ensures FilledUpTo(es, 1)
  {
    forall j | 0 < j < |es|
      ensures Unused(es[j])
    {
      EventTable.NumberedAtFirst(j);
      SlotPartBits(SlotCode(j));
    }
  }

  lemma Overwritten(a: seq<Event>, l: Letter, k: nat, b: seq<Event>)
    requires Table(a) && FilledUpTo(a, |a|) && Step(a, Posted(k, l), b)
    ensures k == 1 && Processing(a[1]) && b[1] == PostedEvent(a[1], l) && !SameClaim(a[1], b[1])
  {
    RetypedBits(a[k].code, l.kind, l.blocking);
    hide Retyped, Numbered;
  }

  /** A new table for any number of threads, filled with events that were all claimed: the next
      post overwrites the one in slot 1. */
  method ClaimCanBeLost(threads: nat, l: Letter) returns (tables: seq<seq<Event>>, ghost ops: seq<Op>)
    requires 0 < threads && Kind(l.kind) && 0 < l.now
    ensures Run(tables, ops) && |ops| >= 23 && |tables[0]| >= 12
    ensures forall i :: 0 <= i < |tables[0]| ==> i < SLOTS_MAX && tables[0][i] == Event(SlotCode(i), 0, 0, None, 0)
    ensures ops[1] == Awaited(1) && ops[|ops| - 1] == Posted(1, l)
    ensures |tables[|ops| - 1]| == |tables[|ops|]| == |tables[0]|
    ensures Processing(tables[|ops| - 1][1]) && !SameClaim(tables[|ops| - 1][1], tables[|ops|][1])
  {
    var t := new EventTable(threads, EV_ALL);
    hide Step, Numbered, SlotCode, Processing, Kind;
    tables, ops := [t.events[..]], [];
    AtFirst(t.events[..]);
    var i := 1;
    while i < t.events.Length
      invariant 1 <= i <= t.events.Length && t.Valid() && t.eventMask == EV_ALL && t.events.Length >= 12
      invariant Run(tables, ops) && |ops| == 2 * (i - 1) && tables[|ops|] == t.events[..]
      invariant |tables[0]| == t.events.Length
      invariant forall j :: 0 <= j < |tables[0]| ==> j < SLOTS_MAX && tables[0][j] == Event(SlotCode(j), 0, 0, None, 0)
      invariant i > 1 ==> ops[1] == Awaited(1)
      invariant FilledUpTo(t.events[..], i)
    {
      hide FilledUpTo, Run, Table;
      ghost var a := t.events[..];
      var k, op := t.Post(l);
      var b := t.events[..];
      RunOn(tables, ops, op, b);
      tables, ops := tables + [b], ops + [op];
      var k', op' := t.Await();
      RunOn(tables, ops, op', t.events[..]);
      tables, ops := tables + [t.events[..]], ops + [op'];
      FillOne(a, op, b, op', t.events[..], i);
      i := i + 1;
    }
    ghost var a := t.events[..];
    var k, op := t.Post(l);
    Overwritten(a, l, k, t.events[..]);
    RunOn(tables, ops, op, t.events[..]);
    tables, ops := tables + [t.events[..]], ops + [op];
  }
}
