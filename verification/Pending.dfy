/** The pending queues of libev's ev.c: one array of events per priority, watchers that know their
    place in it, and the loop that calls them back. */
module Pending {
  const NUMPRI := 5

  /** An event in a queue; a cleared watcher's place is taken by the dummy watcher, None. */
  datatype Slot = Slot(w: Who, events: bv16)
  datatype Who = Dummy | Watcher(id: nat)

  /** A watcher's priority (counted from 0) and its place in that queue plus 1, or 0. */
  datatype Watch = Watch(pri: nat, pending: nat)

  /** A callback that was made, and how many events of higher priority were pending then. */
  datatype Call = Call(w: nat, events: bv16, above: nat)

  /** What a callback may do to the queues. */
  datatype Action = FeedIt(w: nat, events: bv16) | ClearIt(w: nat)

  predicate GoodWatch(qs: seq<seq<Slot>>, ps: seq<Watch>, w: nat)
    requires |qs| == NUMPRI && w < |ps|
  {
    && ps[w].pri < NUMPRI
    && (ps[w].pending > 0 ==>
          ps[w].pending <= |qs[ps[w].pri]| && qs[ps[w].pri][ps[w].pending - 1].w == Watcher(w))
  }

  predicate GoodSlot(qs: seq<seq<Slot>>, ps: seq<Watch>, pri: nat, j: nat)
    requires |qs| == NUMPRI && pri < NUMPRI && j < |qs[pri]|
  {
    var w := qs[pri][j].w;
    w.Watcher? ==> w.id < |ps| && ps[w.id] == Watch(pri, j + 1)
  }

  /** What `verify_watcher` asserts at run time, and its converse: a watcher is in one place at
      most, and its index points there. */
  ghost predicate Good(qs: seq<seq<Slot>>, ps: seq<Watch>) {
    && |qs| == NUMPRI
    && (forall w :: 0 <= w < |ps| ==> GoodWatch(qs, ps, w))
    && (forall pri, j :: 0 <= pri < NUMPRI && 0 <= j < |qs[pri]| ==> GoodSlot(qs, ps, pri, j))
  }

  /** A watcher that is not pending, such as one that was cleared, is in no queue; one that is, is
      in one place only. */
  lemma OnePlace(qs: seq<seq<Slot>>, ps: seq<Watch>, p: nat, j: nat)
    requires Good(qs, ps) && p < NUMPRI && j < |qs[p]| && qs[p][j].w.Watcher?
    ensures var w := qs[p][j].w.id;
            && w < |ps| && ps[w].pending > 0
            && forall p', j' :: 0 <= p' < NUMPRI && 0 <= j' < |qs[p']| && qs[p'][j'].w == Watcher(w) ==>
                 p' == p && j' == j
  {
    var w := qs[p][j].w.id;
    assert GoodSlot(qs, ps, p, j);
    forall p', j' | 0 <= p' < NUMPRI && 0 <= j' < |qs[p']| && qs[p'][j'].w == Watcher(w)
      ensures p' == p && j' == j
    {
      assert GoodSlot(qs, ps, p', j');
    }
  }

  /** The events pending for a watcher. */
  function EventsOf(qs: seq<seq<Slot>>, ps: seq<Watch>, w: nat): bv16
    requires |qs| == NUMPRI && w < |ps| && GoodWatch(qs, ps, w)
  {
    if ps[w].pending > 0 then qs[ps[w].pri][ps[w].pending - 1].events else 0
  }

  /** Only watcher w's events changed, to e; `pending` says whether it is pending now. */
  ghost predicate Changed(qs: seq<seq<Slot>>, ps: seq<Watch>, rs: seq<seq<Slot>>, us: seq<Watch>,
                          w: nat, e: bv16, pending: bool)
    requires Good(qs, ps)
  {
    && Good(rs, us) && |us| == |ps| && w < |ps|
    && EventsOf(rs, us, w) == e && (us[w].pending > 0 <==> pending) && us[w].pri == ps[w].pri
    && forall v :: 0 <= v < |ps| && v != w ==> us[v] == ps[v] && EventsOf(rs, us, v) == EventsOf(qs, ps, v)
  }

  /** In the queues: watcher w waits with the events e, or not at all, and any other as before. */
  lemma ChangedSays(qs: seq<seq<Slot>>, ps: seq<Watch>, rs: seq<seq<Slot>>, us: seq<Watch>, w: nat, e: bv16,
                    pending: bool, v: nat)
    requires Good(qs, ps) && Changed(qs, ps, rs, us, w, e, pending) && v < |ps|
    ensures w < |us| == |ps| && (us[w].pending > 0 <==> pending) && us[w].pri == ps[w].pri < |rs|
    ensures us[w].pending > 0 ==>
              us[w].pending <= |rs[us[w].pri]| && rs[us[w].pri][us[w].pending - 1] == Slot(Watcher(w), e)
    ensures v != w ==> us[v] == ps[v]
    ensures v != w && ps[v].pending > 0 ==>
              && ps[v].pri < |qs| == |rs| && ps[v].pending <= |qs[ps[v].pri]| && ps[v].pending <= |rs[ps[v].pri]|
              && rs[ps[v].pri][ps[v].pending - 1] == qs[ps[v].pri][ps[v].pending - 1]
              && qs[ps[v].pri][ps[v].pending - 1].w == Watcher(v)
  {
    assert GoodWatch(qs, ps, w) && GoodWatch(rs, us, w) && GoodWatch(qs, ps, v) && GoodWatch(rs, us, v);
  }

  lemma AppendChanges(qs: seq<seq<Slot>>, ps: seq<Watch>, w: nat, e: bv16)
    requires Good(qs, ps) && w < |ps| && ps[w].pending == 0
    ensures ps[w].pri < NUMPRI
    ensures var pri := ps[w].pri;
            Changed(qs, ps, qs[pri := qs[pri] + [Slot(Watcher(w), e)]], ps[w := Watch(pri, |qs[pri]| + 1)], w, e, true)
  {
    assert GoodWatch(qs, ps, w);
    var pri := ps[w].pri;
    var rs, us := qs[pri := qs[pri] + [Slot(Watcher(w), e)]], ps[w := Watch(pri, |qs[pri]| + 1)];
    forall v | 0 <= v < |us|
      ensures GoodWatch(rs, us, v)
      ensures v != w ==> us[v] == ps[v] && EventsOf(rs, us, v) == EventsOf(qs, ps, v)
    {
      assert GoodWatch(qs, ps, v);
    }
    forall p, j | 0 <= p < NUMPRI && 0 <= j < |rs[p]|
      ensures GoodSlot(rs, us, p, j)
    {
      assert p != pri || j < |qs[pri]| ==> GoodSlot(qs, ps, p, j);
    }
  }

  lemma MergeChanges(qs: seq<seq<Slot>>, ps: seq<Watch>, w: nat, e: bv16)
    requires Good(qs, ps) && w < |ps| && ps[w].pending > 0
    ensures GoodWatch(qs, ps, w)
    ensures var pri, j := ps[w].pri, ps[w].pending - 1;
            Changed(qs, ps, qs[pri := qs[pri][j := Slot(Watcher(w), e)]], ps, w, e, true)
  {
    assert GoodWatch(qs, ps, w);
    var pri, k := ps[w].pri, ps[w].pending - 1;
    var rs := qs[pri := qs[pri][k := Slot(Watcher(w), e)]];
    forall v | 0 <= v < |ps|
      ensures GoodWatch(rs, ps, v)
      ensures v != w ==> EventsOf(rs, ps, v) == EventsOf(qs, ps, v)
    {
      assert GoodWatch(qs, ps, v);
    }
    forall p, j | 0 <= p < NUMPRI && 0 <= j < |rs[p]|
      ensures GoodSlot(rs, ps, p, j)
    {
      assert GoodSlot(qs, ps, p, j);
    }
  }

  lemma DummyChanges(qs: seq<seq<Slot>>, ps: seq<Watch>, w: nat)
    requires Good(qs, ps) && w < |ps| && ps[w].pending > 0
    ensures GoodWatch(qs, ps, w)
    ensures var pri, j := ps[w].pri, ps[w].pending - 1;
            Changed(qs, ps, qs[pri := qs[pri][j := qs[pri][j].(w := Dummy)]], ps[w := Watch(pri, 0)], w, 0, false)
  {
    assert GoodWatch(qs, ps, w);
    var pri, k := ps[w].pri, ps[w].pending - 1;
    var rs, us := qs[pri := qs[pri][k := qs[pri][k].(w := Dummy)]], ps[w := Watch(pri, 0)];
    forall v | 0 <= v < |ps|
      ensures GoodWatch(rs, us, v)
      ensures v != w ==> us[v] == ps[v] && EventsOf(rs, us, v) == EventsOf(qs, ps, v)
    {
      assert GoodWatch(qs, ps, v);
    }
    forall p, j | 0 <= p < NUMPRI && 0 <= j < |rs[p]|
      ensures GoodSlot(rs, us, p, j)
    {
      assert GoodSlot(qs, ps, p, j);
    }
  }

  /** The last event of a queue is taken off and its watcher unmarked. */
  lemma PopChanges(qs: seq<seq<Slot>>, ps: seq<Watch>, pri: nat)
    requires Good(qs, ps) && pri < NUMPRI && qs[pri] != []
    ensures var n := |qs[pri]| - 1;
            var s, rs := qs[pri][n], qs[pri := qs[pri][..n]];
            if s.w == Dummy then Good(rs, ps)
            else
              && s.w.id < |ps| && GoodWatch(qs, ps, s.w.id) && s.events == EventsOf(qs, ps, s.w.id)
              && Changed(qs, ps, rs, ps[s.w.id := ps[s.w.id].(pending := 0)], s.w.id, 0, false)
  {
    var n := |qs[pri]| - 1;
    var s, rs := qs[pri][n], qs[pri := qs[pri][..n]];
    assert GoodSlot(qs, ps, pri, n);
    var us := if s.w == Dummy then ps else ps[s.w.id := ps[s.w.id].(pending := 0)];
    forall v | 0 <= v < |ps|
      ensures GoodWatch(rs, us, v) && GoodWatch(qs, ps, v)
      ensures s.w != Watcher(v) ==> us[v] == ps[v] && EventsOf(rs, us, v) == EventsOf(qs, ps, v)
    {
      assert GoodWatch(qs, ps, v);
      assert s.w != Watcher(v) && ps[v].pending > 0 ==> ps[v].pri != pri || ps[v].pending - 1 < n;
    }
    forall p, j | 0 <= p < NUMPRI && 0 <= j < |rs[p]|
      ensures GoodSlot(rs, us, p, j)
    {
      assert GoodSlot(qs, ps, p, j);
    }
  }

  // ---- in what order they are delivered ---------------------------------------------

  /** One queue, last event first, without dummies. */
  function Backwards(q: seq<Slot>): seq<Call> {
    if q == [] then []
    else
      var s := q[|q| - 1];
      (if s.w.Watcher? then [Call(s.w.id, s.events, 0)] else []) + Backwards(q[..|q| - 1])
  }

  /** The queues below `pri`, highest priority first. */
  function Deliveries(qs: seq<seq<Slot>>, pri: nat): seq<Call>
    requires pri <= |qs|
  {
    if pri == 0 then [] else Backwards(qs[pri - 1]) + Deliveries(qs, pri - 1)
  }

  /** How many events wait at priority `pri` or above. */
  function Above(qs: seq<seq<Slot>>, pri: nat): nat
    requires pri <= |qs|
    decreases |qs| - pri
  {
    if pri == |qs| then 0 else |qs[pri]| + Above(qs, pri + 1)
  }

  lemma {:induction false} SameBelow(qs: seq<seq<Slot>>, rs: seq<seq<Slot>>, pri: nat)
    requires pri <= |qs| == |rs| && qs[..pri] == rs[..pri]
    ensures Deliveries(qs, pri) == Deliveries(rs, pri)
  {
    if pri > 0 {
      assert qs[pri - 1] == qs[..pri][pri - 1] && rs[pri - 1] == rs[..pri][pri - 1];
      assert qs[..pri - 1] == qs[..pri][..pri - 1];
      SameBelow(qs, rs, pri - 1);
    }
  }

  lemma {:induction false} AbovePop(qs: seq<seq<Slot>>, rs: seq<seq<Slot>>, pri: nat, from: nat)
    requires from <= |qs| == |rs| && pri < |qs| && qs[pri] != [] && rs == qs[pri := qs[pri][..|qs[pri]| - 1]]
    ensures Above(rs, from) == Above(qs, from) - if from <= pri then 1 else 0
    decreases |qs| - from
  {
    if from < |qs| {
      AbovePop(qs, rs, pri, from + 1);
    }
  }

  lemma {:induction false} AboveSame(qs: seq<seq<Slot>>, rs: seq<seq<Slot>>, from: nat)
    requires from <= |qs| == |rs| && forall p :: 0 <= p < |qs| ==> |rs[p]| == |qs[p]|
    ensures Above(rs, from) == Above(qs, from)
    decreases |qs| - from
  {
    if from < |qs| {
      AboveSame(qs, rs, from + 1);
    }
  }

  lemma {:induction false} NoneAbove(qs: seq<seq<Slot>>, from: nat)
    requires from <= |qs| && Above(qs, from) == 0
    ensures forall p :: from <= p < |qs| ==> qs[p] == []
    decreases |qs| - from
  {
    if from < |qs| {
      NoneAbove(qs, from + 1);
    }
  }

  /** Popping the last event of the highest non-empty queue delivers the next call. */
  lemma PopDelivers(qs: seq<seq<Slot>>, pri: nat)
    requires pri < |qs| && qs[pri] != []
    ensures var n := |qs[pri]| - 1;
            var s := qs[pri][n];
            Deliveries(qs, pri + 1) ==
            (if s.w.Watcher? then [Call(s.w.id, s.events, 0)] else []) + Deliveries(qs[pri := qs[pri][..n]], pri + 1)
  {
    var n := |qs[pri]| - 1;
    var rs := qs[pri := qs[pri][..n]];
    assert qs[..pri] == rs[..pri];
    SameBelow(qs, rs, pri);
  }

  // ---- the calls that callbacks cannot change ------------------------------------------

  /** The calls of some watchers. */
  function Of(calls: seq<Call>, keep: set<nat>): seq<Call> {
    if calls == [] then []
    else (if calls[0].w in keep then [calls[0]] else []) + Of(calls[1..], keep)
  }

  /** A callback that neither feeds nor clears any of them. */
  ghost predicate SparesIn(actions: seq<Action>, keep: set<nat>) {
    forall i :: 0 <= i < |actions| ==> actions[i].w !in keep
  }

  ghost predicate Spares(script: seq<seq<Action>>, keep: set<nat>) {
    forall i :: 0 <= i < |script| ==> SparesIn(script[i], keep)
  }

  lemma {:induction false} OfAppend(a: seq<Call>, b: seq<Call>, keep: set<nat>)
    ensures Of(a + b, keep) == Of(a, keep) + Of(b, keep)
  {
    if a == [] {
      assert a + b == b && [] + Of(b, keep) == Of(b, keep);
    } else {
      var s, first := a + b, if a[0].w in keep then [a[0]] else [];
      assert s[0] == a[0] && s[1..] == a[1..] + b;
      OfAppend(a[1..], b, keep);
      assert first + Of(a[1..], keep) + Of(b, keep) == first + (Of(a[1..], keep) + Of(b, keep));
    }
  }

  predicate IsKept(s: Slot, keep: set<nat>) {
    s.w.Watcher? && s.w.id in keep
  }

  /** Their events are in the same places of both queues. */
  ghost predicate SameKept(q: seq<Slot>, r: seq<Slot>, keep: set<nat>) {
    && (forall j :: 0 <= j < |q| && IsKept(q[j], keep) ==> j < |r| && r[j] == q[j])
    && (forall j :: 0 <= j < |r| && IsKept(r[j], keep) ==> j < |q| && q[j] == r[j])
  }

  lemma DropLast(q: seq<Slot>, keep: set<nat>)
    requires q != []
    ensures var n := |q| - 1;
            Of(Backwards(q), keep) ==
            (if IsKept(q[n], keep) then [Call(q[n].w.id, q[n].events, 0)] else []) + Of(Backwards(q[..n]), keep)
  {
    var s := q[|q| - 1];
    var first := if s.w.Watcher? then [Call(s.w.id, s.events, 0)] else [];
    var rest := Backwards(q[..|q| - 1]);
    OfAppend(first, rest, keep);
    assert first != [] ==> first[1..] == [];
  }

  lemma {:induction false} SameCalls(q: seq<Slot>, r: seq<Slot>, keep: set<nat>)
    requires SameKept(q, r, keep)
    ensures Of(Backwards(q), keep) == Of(Backwards(r), keep)
    decreases |q| + |r|
  {
    hide Backwards, Of, IsKept;
    if q != [] {
      DropLast(q, keep);
    }
    if r != [] {
      DropLast(r, keep);
    }
    if |q| > |r| {
      SameCalls(q[..|q| - 1], r, keep);
    } else if |q| < |r| {
      SameCalls(q, r[..|r| - 1], keep);
    } else if q != [] {
      SameCalls(q[..|q| - 1], r[..|r| - 1], keep);
    } else {
      assert q == r;
    }
  }

  lemma {:induction false} SameDeliveries(qs: seq<seq<Slot>>, rs: seq<seq<Slot>>, pri: nat, keep: set<nat>)
    requires pri <= |qs| == |rs| && forall p :: 0 <= p < |qs| ==> SameKept(qs[p], rs[p], keep)
    ensures Of(Deliveries(qs, pri), keep) == Of(Deliveries(rs, pri), keep)
  {
    hide Of, SameKept, Backwards;
    if pri > 0 {
      SameCalls(qs[pri - 1], rs[pri - 1], keep);
      SameDeliveries(qs, rs, pri - 1, keep);
      OfAppend(Backwards(qs[pri - 1]), Deliveries(qs, pri - 1), keep);
      OfAppend(Backwards(rs[pri - 1]), Deliveries(rs, pri - 1), keep);
    }
  }

  /** What is fed to or cleared from another watcher is nothing to them. */
  lemma ChangedSpares(qs: seq<seq<Slot>>, ps: seq<Watch>, rs: seq<seq<Slot>>, us: seq<Watch>,
                      w: nat, e: bv16, pending: bool, keep: set<nat>)
    requires Good(qs, ps) && Changed(qs, ps, rs, us, w, e, pending) && w !in keep
    ensures Of(Deliveries(qs, NUMPRI), keep) == Of(Deliveries(rs, NUMPRI), keep)
  {
    forall p | 0 <= p < NUMPRI
      ensures SameKept(qs[p], rs[p], keep)
    {
      OtherSlots(qs, ps, rs, us, w, e, pending, keep, p);
    }
    SameDeliveries(qs, rs, NUMPRI, keep);
  }

  lemma OtherSlots(qs: seq<seq<Slot>>, ps: seq<Watch>, rs: seq<seq<Slot>>, us: seq<Watch>,
                   w: nat, e: bv16, pending: bool, keep: set<nat>, p: nat)
    requires Good(qs, ps) && Changed(qs, ps, rs, us, w, e, pending) && w !in keep && p < NUMPRI
    ensures SameKept(qs[p], rs[p], keep)
  {
    forall j | 0 <= j < |qs[p]| && IsKept(qs[p][j], keep)
      ensures j < |rs[p]| && rs[p][j] == qs[p][j]
    {
      assert GoodSlot(qs, ps, p, j) && GoodWatch(rs, us, qs[p][j].w.id);
    }
    forall j | 0 <= j < |rs[p]| && IsKept(rs[p][j], keep)
      ensures j < |qs[p]| && qs[p][j] == rs[p][j]
    {
      assert GoodSlot(rs, us, p, j) && GoodWatch(qs, ps, rs[p][j].w.id);
    }
  }

  /** Nothing waits above: what is delivered comes from below. */
  lemma {:induction false} FromBelow(qs: seq<seq<Slot>>, pri: nat, top: nat)
    requires pri <= top <= |qs| && forall p :: pri <= p < top ==> qs[p] == []
    ensures Deliveries(qs, top) == Deliveries(qs, pri)
    decreases top
  {
    if pri < top {
      FromBelow(qs, pri, top - 1);
      assert [] + Deliveries(qs, top - 1) == Deliveries(qs, top - 1);
    }
  }

  class Pendings {
    const ps: array<Watch>
    const queues: array<seq<Slot>>
    /** Where the loop that invokes them is; feeding an event sends it back to the top. */
    var pendingPri: nat
    /** The callbacks made so far, and what the next ones will do. */
    var calls: seq<Call>
    var script: seq<seq<Action>>

    ghost predicate Valid()
      reads this, ps, queues
    {
      Good(queues[..], ps[..])
    }

    /** Nothing is pending; pris are the watchers' priorities. */
    constructor (pris: seq<nat>, script: seq<seq<Action>>)
      requires forall w :: 0 <= w < |pris| ==> pris[w] < NUMPRI
      ensures Valid() && calls == [] && this.script == script && fresh(ps) && fresh(queues)
      ensures ps.Length == |pris| && forall w :: 0 <= w < |pris| ==> ps[w] == Watch(pris[w], 0)
      ensures forall p :: 0 <= p < queues.Length ==> queues[p] == []
    {
      ps := new Watch[|pris|](w requires 0 <= w < |pris| => Watch(pris[w], 0));
      queues := new seq<Slot>[NUMPRI](_ => []);
      pendingPri, calls, this.script := NUMPRI - 1, [], script;
    }

    ghost function Events(w: nat): bv16
      reads this, ps, queues
      requires Valid() && w < ps.Length
    {
      assert GoodWatch(queues[..], ps[..], w);
      EventsOf(queues[..], ps[..], w)
    }

    lemma PriorityInRange(w: nat)
      requires Valid() && w < ps.Length
      ensures ps[w].pri < NUMPRI == queues.Length && ps[w].pending <= |queues[ps[w].pri]|
      ensures Events(w) == if ps[w].pending > 0 then queues[ps[w].pri][ps[w].pending - 1].events else 0
      ensures ps[w].pending > 0 ==> queues[ps[w].pri][ps[w].pending - 1].w == Watcher(w)
    {
      assert GoodWatch(queues[..], ps[..], w);
    }

    /** A watcher that is pending already: the events are joined. */
    method FeedMore(w: nat, events: bv16)
      requires Valid() && w < ps.Length && ps[w].pending > 0
      modifies queues
      ensures Changed(old(queues[..]), ps[..], queues[..], ps[..], w, old(Events(w)) | events, true)
      ensures forall p :: 0 <= p < queues.Length ==> |queues[p]| == |old(queues[..])[p]|
      ensures forall p, j :: 0 <= p < queues.Length && 0 <= j < |queues[p]| ==>
                queues[p][j] == old(queues[..])[p][j] || (p == ps[w].pri && j == ps[w].pending - 1)
    {
      ghost var qs := queues[..];
      PriorityInRange(w);
      hide Good, Changed, Events;
      var pri, j := ps[w].pri, ps[w].pending - 1;
      var e := queues[pri][j].events | events;
      MergeChanges(qs, ps[..], w, e);
      queues[pri] := queues[pri][j := queues[pri][j].(events := e)];
      assert queues[..] == qs[pri := qs[pri][j := Slot(Watcher(w), e)]];
    }

    method FeedFirst(w: nat, events: bv16)
      requires Valid() && w < ps.Length && ps[w].pending == 0
      modifies ps, queues
      ensures Changed(old(queues[..]), old(ps[..]), queues[..], ps[..], w, events, true)
      ensures var pri := old(ps[w].pri);
              && pri < NUMPRI == queues.Length
              && queues[..] == old(queues[..])[pri := old(queues[..])[pri] + [Slot(Watcher(w), events)]]
              && ps[..] == old(ps[..])[w := Watch(pri, |old(queues[..])[pri]| + 1)]
    {
      ghost var qs, us := queues[..], ps[..];
      PriorityInRange(w);
      hide Good, Changed, Events;
      var pri := ps[w].pri;
      AppendChanges(qs, us, w, events);
      ps[w] := Watch(pri, |queues[pri]| + 1);
      queues[pri] := queues[pri] + [Slot(Watcher(w), events)];
      assert queues[..] == qs[pri := qs[pri] + [Slot(Watcher(w), events)]];
      assert ps[..] == us[w := Watch(pri, |qs[pri]| + 1)];
    }

    /** `ev_feed_event`: delivered once, with all the events that were fed. */
    method Feed(w: nat, events: bv16)
      requires Valid() && w < ps.Length
      modifies this`pendingPri, ps, queues
      ensures Changed(old(queues[..]), old(ps[..]), queues[..], ps[..], w, old(Events(w)) | events, true)
      ensures pendingPri == NUMPRI - 1
      ensures old(ps[w].pending) == 0 ==>
                var pri := old(ps[w].pri);
                && pri < NUMPRI == queues.Length
                && queues[..] == old(queues[..])[pri := old(queues[..])[pri] + [Slot(Watcher(w), events)]]
                && ps[..] == old(ps[..])[w := Watch(pri, |old(queues[..])[pri]| + 1)]
      ensures old(ps[w].pending) > 0 ==>
                && ps[..] == old(ps[..])
                && (forall p :: 0 <= p < queues.Length ==> |queues[p]| == |old(queues[..])[p]|)
                && (forall p, j :: 0 <= p < queues.Length && 0 <= j < |queues[p]| ==>
                      queues[p][j] == old(queues[..])[p][j] || (p == ps[w].pri && j == ps[w].pending - 1))
    {
      PriorityInRange(w);
      hide Good, Changed, Events;
      if ps[w].pending > 0 {
        FeedMore(w, events);
      } else {
        assert 0 | events == events;
        FeedFirst(w, events);
      }
      pendingPri := NUMPRI - 1;
    }

    /** `ev_clear_pending`: the dummy watcher takes the place. */
    method Clear(w: nat) returns (events: bv16)
      requires Valid() && w < ps.Length
      modifies ps, queues
      ensures events == old(Events(w))
      ensures Changed(old(queues[..]), old(ps[..]), queues[..], ps[..], w, 0, false)
      ensures forall p :: 0 <= p < queues.Length ==> |queues[p]| == |old(queues[..])[p]|
      ensures ps[..] == old(ps[..])[w := old(ps[w]).(pending := 0)]
    {
      ghost var qs, us := queues[..], ps[..];
      assert GoodWatch(qs, us, w);
      if ps[w].pending > 0 {
        DummyChanges(qs, us, w);
        hide Good, Changed;
        var pri, j := ps[w].pri, ps[w].pending - 1;
        events := queues[pri][j].events;
        queues[pri] := queues[pri][j := queues[pri][j].(w := Dummy)];
        ps[w] := ps[w].(pending := 0);
        assert queues[..] == qs[pri := qs[pri][j := qs[pri][j].(w := Dummy)]];
        assert ps[..] == us[w := Watch(pri, 0)];
      } else {
        events := 0;
        assert us == us[w := us[w].(pending := 0)];
      }
    }

    /** A callback's doings. Whatever is fed, nothing waits above pendingPri. */
    method RunCallback(actions: seq<Action>, ghost keep: set<nat>)
      requires Valid() && pendingPri < NUMPRI && Above(queues[..], pendingPri + 1) == 0
      modifies this`pendingPri, ps, queues
      ensures Valid() && pendingPri < NUMPRI && Above(queues[..], pendingPri + 1) == 0 && queues.Length == NUMPRI
      ensures SparesIn(actions, keep) ==>
                Of(Deliveries(queues[..], NUMPRI), keep) == Of(Deliveries(old(queues[..]), NUMPRI), keep)
    {
      GoodLength(queues[..], ps[..]);
      hide Good, Above, Of, Deliveries, Changed;
      ghost var start := queues[..];
      var i := 0;
      while i < |actions|
        invariant i <= |actions| && Valid() && pendingPri < NUMPRI && queues.Length == NUMPRI
        invariant Above(queues[..], pendingPri + 1) == 0
        invariant SparesIn(actions, keep) ==>
                    Of(Deliveries(queues[..], NUMPRI), keep) == Of(Deliveries(start, NUMPRI), keep)
      {
        ghost var qs, us := queues[..], ps[..];
        match actions[i] {
          case FeedIt(w, events) =>
            if w < ps.Length {
              ghost var e := Events(w) | events;
              Feed(w, events);
              NothingOnTop(queues[..]);
              if w !in keep {
                ChangedSpares(qs, us, queues[..], ps[..], w, e, true, keep);
              }
            }
          case ClearIt(w) =>
            if w < ps.Length {
              var _ := Clear(w);
              AboveSame(qs, queues[..], pendingPri + 1);
              if w !in keep {
                ChangedSpares(qs, us, queues[..], ps[..], w, 0, false, keep);
              }
            }
        }
        i := i + 1;
      }
    }

    lemma NothingOnTop(qs: seq<seq<Slot>>)
      requires |qs| == NUMPRI
      ensures Above(qs, NUMPRI - 1 + 1) == 0
    {
    }

    /** `p = pendings [pendingpri] + --pendingcnt [pendingpri]; p->w->pending = 0` */
    method Pop() returns (s: Slot)
      requires Valid() && pendingPri < NUMPRI == queues.Length && queues[pendingPri] != []
      requires Above(queues[..], pendingPri + 1) == 0
      modifies ps, queues
      ensures Valid() && Above(queues[..], pendingPri + 1) == 0
      ensures Above(queues[..], 0) == Above(old(queues[..]), 0) - 1
      ensures s == old(queues[pendingPri][|queues[pendingPri]| - 1])
      ensures s.w.Watcher? ==> s.w.id < ps.Length && s.events == old(Events(s.w.id))
      ensures var call := if s.w.Watcher? then [Call(s.w.id, s.events, 0)] else [];
              && Deliveries(old(queues[..]), pendingPri + 1) == call + Deliveries(queues[..], pendingPri + 1)
              && Deliveries(old(queues[..]), NUMPRI) == call + Deliveries(queues[..], NUMPRI)
    {
      ghost var qs, us := queues[..], ps[..];
      var pri := pendingPri;
      PopChanges(qs, us, pri);
      PopDelivers(qs, pri);
      var n := |queues[pri]| - 1;
      s := queues[pri][n];
      queues[pri] := queues[pri][..n];
      ghost var rs := qs[pri := qs[pri][..n]];
      assert queues[..] == rs;
      AbovePop(qs, rs, pri, 0);
      AbovePop(qs, rs, pri, pri + 1);
      NoneAbove(qs, pri + 1);
      FromBelow(qs, pri + 1, NUMPRI);
      FromBelow(rs, pri + 1, NUMPRI);
      hide Good, Above, Deliveries, Changed;
      if s.w.Watcher? {
        ps[s.w.id] := ps[s.w.id].(pending := 0);
        assert ps[..] == us[s.w.id := us[s.w.id].(pending := 0)];
        assert Valid() by {
          ChangedIsGood(qs, us, rs, ps[..], s.w.id, 0, false);
        }
      } else {
        assert ps[..] == us;
      }
    }

    /** One turn of the inner loop of `ev_invoke_pending`. */
    method InvokeOne(ghost keep: set<nat>)
      requires Valid() && pendingPri < NUMPRI == queues.Length && queues[pendingPri] != []
      requires Above(queues[..], pendingPri + 1) == 0
      modifies this, ps, queues
      ensures Valid() && pendingPri < NUMPRI && Above(queues[..], pendingPri + 1) == 0
      ensures old(calls) <= calls && forall c :: |old(calls)| <= c < |calls| ==> calls[c].above == 0
      ensures |script| < |old(script)| ||
              (script == old(script) && pendingPri == old(pendingPri)
               && Above(queues[..], 0) < Above(old(queues[..]), 0))
      ensures old(script) == [] ==>
                && script == [] && pendingPri == old(pendingPri)
                && old(calls) + Deliveries(old(queues[..]), pendingPri + 1)
                   == calls + Deliveries(queues[..], pendingPri + 1)
      ensures Spares(old(script), keep) ==>
                && Spares(script, keep)
                && Of(calls + Deliveries(queues[..], NUMPRI), keep)
                   == Of(old(calls) + Deliveries(old(queues[..]), NUMPRI), keep)
      ensures var s := old(queues[pendingPri][|queues[pendingPri]| - 1]);
              s.w.Watcher? ==>
                && s.w.id < ps.Length && s.events == old(Events(s.w.id))
                && |calls| == |old(calls)| + 1 && calls[|calls| - 1] == Call(s.w.id, s.events, 0)
                && script == old(if script == [] then [] else script[1..])
    {
      hide Good, Above, Deliveries, Changed, Of, Spares;
      ghost var before := calls;
      PriorityOfLast();
      var s := Pop();
      if s.w.Watcher? {
        var call := Call(s.w.id, s.events, Above(queues[..], pendingPri + 1));
        OneCalled(before, call, Deliveries(queues[..], pendingPri + 1));
        OneCalled(before, call, Deliveries(queues[..], NUMPRI));
        calls := calls + [call];
        CallBack(keep);
      } else {
        NoCall(Deliveries(queues[..], pendingPri + 1));
        NoCall(Deliveries(queues[..], NUMPRI));
      }
    }

    lemma PriorityOfLast()
      requires Valid() && pendingPri < NUMPRI == queues.Length && queues[pendingPri] != []
      ensures var s := queues[pendingPri][|queues[pendingPri]| - 1]; s.w.Watcher? ==> s.w.id < ps.Length
    {
      assert GoodSlot(queues[..], ps[..], pendingPri, |queues[pendingPri]| - 1);
    }

    /** What the callback that was just called does. */
    method CallBack(ghost keep: set<nat>)
      requires Valid() && pendingPri < NUMPRI == queues.Length && Above(queues[..], pendingPri + 1) == 0
      modifies this`script, this`pendingPri, ps, queues
      ensures Valid() && pendingPri < NUMPRI && Above(queues[..], pendingPri + 1) == 0
      ensures script == old(if script == [] then [] else script[1..])
      ensures old(script) == [] ==> pendingPri == old(pendingPri) && queues[..] == old(queues[..])
      ensures Spares(old(script), keep) ==>
                && Spares(script, keep)
                && Of(calls + Deliveries(queues[..], NUMPRI), keep)
                   == Of(calls + Deliveries(old(queues[..]), NUMPRI), keep)
    {
      hide Good, Above, Deliveries, Of, SparesIn;
      if script != [] {
        var actions := script[0];
        script := script[1..];
        ghost var qs := queues[..];
        RunCallback(actions, keep);
        OfAppend(calls, Deliveries(qs, NUMPRI), keep);
        OfAppend(calls, Deliveries(queues[..], NUMPRI), keep);
      }
    }

    lemma OneCalled(before: seq<Call>, call: Call, rest: seq<Call>)
      ensures before + ([call] + rest) == before + [call] + rest
    {
    }

    lemma NoCall(rest: seq<Call>)
      ensures [] + rest == rest
    {
    }

    lemma ChangedIsGood(qs: seq<seq<Slot>>, us: seq<Watch>, rs: seq<seq<Slot>>, vs: seq<Watch>,
                        w: nat, e: bv16, pending: bool)
      requires Good(qs, us) && Changed(qs, us, rs, vs, w, e, pending)
      ensures Good(rs, vs)
    {
    }

    /** `ev_invoke_pending`: when it returns nothing is pending; no callback started while an event
        of higher priority was; and of the watchers that the callbacks neither feed nor clear, each
        that is pending is called once, with all of its events, by priority and last fed first. */
    method InvokePending(ghost keep: set<nat>)
      requires Valid()
      modifies this, ps, queues
      ensures Valid() && forall p :: 0 <= p < queues.Length ==> queues[p] == []
      ensures old(calls) <= calls && forall c :: |old(calls)| <= c < |calls| ==> calls[c].above == 0
      ensures old(script) == [] ==> calls == old(calls) + Deliveries(old(queues[..]), queues.Length)
      ensures queues.Length == NUMPRI
      ensures Spares(old(script), keep) ==>
                Of(calls, keep) == Of(old(calls), keep) + Of(Deliveries(old(queues[..]), NUMPRI), keep)
    {
      hide Good, Above, Deliveries, Of, Spares;
      ghost var qs, before := queues[..], calls;
      GoodLength(qs, ps[..]);
      pendingPri := NUMPRI;
      NothingAtEnd(qs);
      while pendingPri > 0
        invariant Valid() && pendingPri <= NUMPRI && Above(queues[..], pendingPri) == 0
        invariant before <= calls && forall c :: |before| <= c < |calls| ==> calls[c].above == 0
        invariant old(script) == [] ==>
                    script == [] && calls + Deliveries(queues[..], pendingPri) == before + Deliveries(qs, NUMPRI)
        invariant queues.Length == NUMPRI
        invariant Spares(old(script), keep) ==>
                    && Spares(script, keep)
                    && Of(calls + Deliveries(queues[..], NUMPRI), keep) == Of(before + Deliveries(qs, NUMPRI), keep)
        decreases |script|, Above(queues[..], 0), pendingPri
      {
        pendingPri := pendingPri - 1;
        ghost var scripted, waiting, at := |script|, Above(queues[..], 0), pendingPri;
        while queues[pendingPri] != []
          invariant Valid() && pendingPri < NUMPRI && Above(queues[..], pendingPri + 1) == 0
          invariant before <= calls && forall c :: |before| <= c < |calls| ==> calls[c].above == 0
          invariant old(script) == [] ==>
                      script == [] && calls + Deliveries(queues[..], pendingPri + 1) == before + Deliveries(qs, NUMPRI)
          invariant queues.Length == NUMPRI
          invariant Spares(old(script), keep) ==>
                      && Spares(script, keep)
                      && Of(calls + Deliveries(queues[..], NUMPRI), keep) == Of(before + Deliveries(qs, NUMPRI), keep)
          invariant |script| < scripted ||
                    (|script| == scripted && pendingPri == at && Above(queues[..], 0) <= waiting)
          decreases |script|, Above(queues[..], 0)
        {
          InvokeOne(keep);
        }
        EmptyOnTop(queues[..], pendingPri);
      }
      NoneAbove(queues[..], 0);
      NoDeliveries(queues[..]);
      FromBelow(queues[..], 0, NUMPRI);
      assert calls + [] == calls;
      OfAppend(before, Deliveries(qs, NUMPRI), keep);
    }

    lemma GoodLength(qs: seq<seq<Slot>>, us: seq<Watch>)
      requires Good(qs, us)
      ensures |qs| == NUMPRI
    {
    }

    lemma NothingAtEnd(qs: seq<seq<Slot>>)
      requires |qs| == NUMPRI
      ensures Above(qs, NUMPRI) == 0
    {
    }

    lemma EmptyOnTop(qs: seq<seq<Slot>>, pri: nat)
      requires pri < |qs| && qs[pri] == []
      ensures Above(qs, pri) == Above(qs, pri + 1) && Deliveries(qs, pri + 1) == Deliveries(qs, pri)
    {
      assert [] + Deliveries(qs, pri) == Deliveries(qs, pri);
    }

    lemma NoDeliveries(qs: seq<seq<Slot>>)
      ensures Deliveries(qs, 0) == []
    {
    }
  }
}
