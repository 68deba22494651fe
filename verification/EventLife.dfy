/** The life of an event from its post to the next one in its slot, said bit by bit. */
module EventLife {
  import opened Text
  import opened Events

  // ---- one operation ----------------------------------------------------------------

  /** A post sets the type, the flag of a blocking event and the time, and waits for a worker. */
  lemma PostSays(a: seq<Event>, k: nat, l: Letter, b: seq<Event>)
    requires Step(a, Posted(k, l), b)
    ensures |b| == |a| && 0 < k < |a| && a[k].code & 0x00ff_0000 == b[k].code & 0x00ff_0000
    ensures b[k].code & 0x3f00_ffff == l.kind && b[k].code & 0x4000_0000 == 0
    ensures b[k].code & 0x8000_0000 != 0 <==> l.blocking
    ensures b[k].posted == l.now > 0 && b[k].info == l.info && b[k].text == l.text && b[k].response == 0
    ensures Waiting(b[k]) && forall i :: 0 <= i < |a| && i != k ==> b[i] == a[i]
  {
    PostedBits(a[k].code, l);
    hide Retyped, Open, OldestOpen, SomeOpen, Kind;
  }

  /** It goes to the slot that was posted to the longest ago, of those that are neither blocking nor
      claimed, the first of them if there are several; or to slot 1 when there is none. */
  lemma PostChooses(a: seq<Event>, k: nat, l: Letter, b: seq<Event>)
    requires Step(a, Posted(k, l), b)
    ensures forall i :: 0 < i < |a| && a[i].code & 0x8000_0000 == 0 && a[i].code & 0x4000_0000 == 0 ==>
              && a[k].code & 0x8000_0000 == 0 && a[k].code & 0x4000_0000 == 0
              && a[k].posted <= a[i].posted && (i < k ==> a[k].posted < a[i].posted)
    ensures k == 1 || (a[k].code & 0x8000_0000 == 0 && a[k].code & 0x4000_0000 == 0)
  {
    forall i | 0 < i < |a|
      ensures Open(a[i]) <==> a[i].code & 0x8000_0000 == 0 && a[i].code & 0x4000_0000 == 0
    {
      WaitingIs(a[i]);
    }
    hide Open, Retyped, Kind;
  }

  lemma PostedBits(code: bv32, l: Letter)
    requires Kind(l.kind)
    ensures var c := Retyped(code, l.kind, l.blocking);
            && c & 0x00ff_0000 == code & 0x00ff_0000 && c & 0x3f00_ffff == l.kind && c & 0x4000_0000 == 0
            && (c & 0x8000_0000 != 0 <==> l.blocking)
  {
    RetypedBits(code, l.kind, l.blocking);
    hide Retyped;
  }

  lemma WaitingIs(e: Event)
    ensures Waiting(e) <==> e.posted > 0 && e.code & 0x4000_0000 == 0
    ensures Open(e) <==> e.code & 0x8000_0000 == 0 && e.code & 0x4000_0000 == 0
  {
  }

  /** A claim only sets the flag, so that the event no longer waits. */
  lemma AwaitSays(a: seq<Event>, k: nat, b: seq<Event>)
    requires Step(a, Awaited(k), b)
    ensures |b| == |a| && 0 < k < |a| && a[k].posted > 0 && a[k].code & 0x4000_0000 == 0
    ensures b[k] == a[k].(code := a[k].code | 0x4000_0000) && !Waiting(b[k])
    ensures forall i :: 0 < i < |a| && a[i].posted > 0 && a[i].code & 0x4000_0000 == 0 ==>
              a[k].posted <= a[i].posted && (i < k ==> a[k].posted < a[i].posted)
    ensures forall i :: 0 <= i < |a| && i != k ==> b[i] == a[i]
  {
    ClaimedBits(a[k].code);
  }

  /** An answer to an event nobody is blocked by: nothing is posted there any more, and the slot is
      open; of its code only the flag of the claim is gone. */
  lemma AnswerOpens(a: seq<Event>, k: nat, code: nat, b: seq<Event>)
    requires Step(a, Responded(k, code), b) && 0 < k
    requires a[k].code & 0x8000_0000 == 0 && a[k].code & 0x3f00_ffff != 0x3f00_0001
    ensures |b| == |a| && k < |a| && b[k] == a[k].(posted := 0, code := a[k].code & 0xbfff_ffff)
    ensures Open(b[k]) && !Waiting(b[k])
  {
    UnclaimedBits(a[k].code);
    assert 0xffff_ffff ^ PROCESSING == 0xbfff_ffff;
    hide Unclaimed;
  }

  /** An answer to a blocking event is kept for the thread that waits for it; the claim stays. */
  lemma AnswerIsKept(a: seq<Event>, k: nat, code: nat, b: seq<Event>)
    requires Step(a, Responded(k, code), b) && 0 < k
    requires a[k].code & 0x8000_0000 != 0 && a[k].code & 0x3f00_ffff != 0x3f00_0001
    ensures |b| == |a| && k < |a| && b[k] == a[k].(response := code) && b[k].code & 0x4000_0000 != 0 && !Waiting(b[k])
  {
  }

  /** A shutdown event stays as it is, whatever is answered. */
  lemma ShutdownStays(a: seq<Event>, k: nat, code: nat, b: seq<Event>)
    requires Step(a, Responded(k, code), b) && 0 < k < |a| && a[k].code & 0x3f00_ffff == 0x3f00_0001
    ensures b == a
  {
  }

  /** A slot that is freed is open and empty, and keeps its number. */
  lemma FreeSays(a: seq<Event>, k: nat, b: seq<Event>)
    requires Step(a, Freed(k), b)
    ensures |b| == |a| && k < |a| && b[k] == Event(a[k].code & 0x00ff_0000, 0, 0, None, 0)
    ensures Open(b[k]) && !Waiting(b[k])
  {
    SlotPartBits(a[k].code);
  }

  /** What cancellation makes of an event: one that waited is as if it had been claimed and
      answered, and none waits any more. */
  ghost predicate CancelledTo(e: Event, f: Event) {
    && (f.posted == 0 || f.code & 0x4000_0000 != 0)
    && (!Waiting(e) ==> f == e)
    && (Waiting(e) && e.code & 0x3f00_ffff != 0x3f00_0001 ==>
          if e.code & 0x8000_0000 == 0 then f == e.(posted := 0)
          else f == e.(code := e.code | 0x4000_0000, response := 0))
  }

  lemma CancelSays(a: seq<Event>, b: seq<Event>, k: nat)
    requires Step(a, Cancelled, b) && 0 < k < |a|
    ensures |b| == |a| && CancelledTo(a[k], b[k])
  {
    hide AnsweredEvent, ClaimedEvent, Waiting, CancelledTo;
    assert b[k] == if Waiting(a[k]) then AnsweredEvent(ClaimedEvent(a[k]), 0) else a[k];
    if Waiting(a[k]) {
      CancelledEvent(a[k]);
    } else {
      RestingEvent(a[k]);
    }
  }

  lemma RestingEvent(e: Event)
    requires !Waiting(e)
    ensures CancelledTo(e, e)
  {
  }

  lemma CancelledEvent(e: Event)
    requires Waiting(e)
    ensures CancelledTo(e, AnsweredEvent(ClaimedEvent(e), 0))
  {
    ClaimedBits(e.code);
    ClaimedAndBack(e.code);
    hide Unclaimed;
  }

  lemma CancelledRests(e: Event, f: Event)
    requires CancelledTo(e, f)
    ensures !Waiting(f)
  {
  }

  lemma ClaimedAndBack(code: bv32)
    ensures code & 0x4000_0000 == 0 ==> Unclaimed(Claimed(code)) == code
    ensures Claimed(code) == code | 0x4000_0000
  {
  }

  // ---- runs -------------------------------------------------------------------------

  /** Only a post makes an event wait. */
  lemma OnlyPostsWait(a: seq<Event>, op: Op, b: seq<Event>, k: nat)
    requires Table(a) && Step(a, op, b) && 0 < k < |a| && !Waiting(a[k]) && !(op.Posted? && op.k == k)
    ensures |b| == |a| && !Waiting(b[k]) && op != Awaited(k)
  {
    StepKeepsNumbers(a, op, b);
    hide Numbered;
    match op {
      case Responded(j, code) =>
        if j == k {
          UnclaimedBits(a[k].code);
        }
      case Cancelled =>
        CancelSays(a, b, k);
        CancelledRests(a[k], b[k]);
      case Awaited(j) =>
      case Freed(j) =>
        SlotPartBits(a[k].code);
      case Posted(j, l) =>
      case Refused =>
      case TimedOut =>
    }
  }

  /** In every run an event that does not wait, because it was answered, freed, cancelled or never
      posted, is not given to a worker before something is posted in its slot. */
  lemma {:induction false} NotAwaitedAgain(tables: seq<seq<Event>>, ops: seq<Op>, s: nat, t: nat, k: nat)
    requires Run(tables, ops) && s <= t <= |ops| && 0 < k < |tables[s]| && !Waiting(tables[s][k])
    requires forall u :: s <= u < t ==> !(ops[u].Posted? && ops[u].k == k)
    ensures k < |tables[t]| && !Waiting(tables[t][k])
    ensures forall u :: s <= u < t ==> ops[u] != Awaited(k)
    decreases t
  {
    hide Waiting, Step, Table;
    if s < t {
      var u := t - 1;
      NotAwaitedAgain(tables, ops, s, u, k);
      RunKeepsNumbers(tables, ops, u);
      assert Step(tables[u], ops[u], tables[u + 1]);
      OnlyPostsWait(tables[u], ops[u], tables[u + 1], k);
    }
  }

  /** What an answer leaves does not wait. */
  lemma AnsweredRests(a: seq<Event>, k: nat, code: nat, b: seq<Event>)
    requires Step(a, Responded(k, code), b) && 0 < k
    ensures |b| == |a| && k < |a| && !Waiting(b[k])
  {
    UnclaimedBits(a[k].code);
    hide Unclaimed;
  }

  /** So an answered event is not given out again, in any run, before its slot is posted to anew. */
  lemma AnsweredOnce(tables: seq<seq<Event>>, ops: seq<Op>, s: nat, t: nat, k: nat)
    requires Run(tables, ops) && s < t <= |ops| && 0 < k && ops[s].Responded? && ops[s].k == k
    requires forall u :: s < u < t ==> !(ops[u].Posted? && ops[u].k == k)
    ensures forall u :: s < u < t ==> ops[u] != Awaited(k)
    ensures k < |tables[t]| && !Waiting(tables[t][k])
  {
    assert Step(tables[s], ops[s], tables[s + 1]);
    AnsweredRests(tables[s], k, ops[s].code, tables[s + 1]);
    NotAwaitedAgain(tables, ops, s + 1, t, k);
  }

  /** And after a cancellation nothing is given out that was not posted later. */
  lemma CancelledOnce(tables: seq<seq<Event>>, ops: seq<Op>, s: nat, t: nat, k: nat)
    requires Run(tables, ops) && s < t <= |ops| && 0 < k < |tables[s]| && ops[s] == Cancelled
    requires forall u :: s < u < t ==> !(ops[u].Posted? && ops[u].k == k)
    ensures forall u :: s < u < t ==> ops[u] != Awaited(k)
    ensures k < |tables[t]| && !Waiting(tables[t][k])
  {
    assert Step(tables[s], ops[s], tables[s + 1]);
    CancelSays(tables[s], tables[s + 1], k);
    CancelledRests(tables[s][k], tables[s + 1][k]);
    NotAwaitedAgain(tables, ops, s + 1, t, k);
  }

  /** Answered and not yet freed: the thread that posted a blocking event finds the answer there,
      whatever else happens, as long as posts spare the slot and nobody answers twice. */
  lemma {:induction false} AnswerWaits(tables: seq<seq<Event>>, ops: seq<Op>, s: nat, t: nat, k: nat, code: nat)
    requires Run(tables, ops) && s < t <= |ops| && 0 < k < |tables[s]| && ops[s] == Responded(k, code)
    requires tables[s][k].code & 0x8000_0000 != 0 && tables[s][k].code & 0x3f00_ffff != 0x3f00_0001
    requires forall u :: s < u < t ==> ops[u] != Freed(k) && !(ops[u].Responded? && ops[u].k == k)
    requires forall u :: s < u < t ==> Spares(tables[u], ops[u], k)
    ensures k < |tables[t]| && tables[t][k] == tables[s][k].(response := code)
    decreases t
  {
    if t == s + 1 {
      assert Step(tables[s], ops[s], tables[s + 1]);
      AnswerIsKept(tables[s], k, code, tables[s + 1]);
    } else {
      var u := t - 1;
      AnswerWaits(tables, ops, s, u, k, code);
      assert Step(tables[s], ops[s], tables[s + 1]) && Step(tables[u], ops[u], tables[u + 1]);
      OthersLeaveIt(tables[u], ops[u], tables[u + 1], k);
    }
  }

  lemma OthersLeaveIt(a: seq<Event>, op: Op, b: seq<Event>, k: nat)
    requires Step(a, op, b) && 0 < k < |a| && Processing(a[k]) && Blocking(a[k])
    requires op != Freed(k) && !(op.Responded? && op.k == k) && Spares(a, op, k)
    ensures k < |b| && b[k] == a[k]
  {
    ClaimStep(a, op, b, k);
  }
}
