/** Timer expiry in libev's ev.c: from the heap through the feed list into the pending queues. */
module Timers {
  import opened Heap
  import opened Pending

  const EV_TIMER: bv16 := 0x100

  predicate Due(t: Timer, now: int) {
    t.active != 0 && t.at < now
  }

  /** What firing makes of a timer, wherever it ends up in the heap. */
  predicate Fired(t: Timer, u: Timer, now: int) {
    && u.repeat == t.repeat
    && if t.repeat != 0 then
         u.active != 0 && u.at == (if t.at + t.repeat < now then now else t.at + t.repeat)
       else u.active == 0 && u.at == t.at - now
  }

  predicate Moved(t: Timer, u: Timer) {
    u == t.(active := u.active) && (u.active == 0 <==> t.active == 0)
  }

  ghost predicate Distinct(f: seq<nat>) {
    forall i, j :: 0 <= i < j < |f| ==> f[i] != f[j]
  }

  /** The timers in f fired, in order of their deadlines; nothing that is still due is earlier. */
  ghost predicate Firing(a: seq<Timer>, b: seq<Timer>, f: seq<nat>, now: int) {
    && |a| == |b| && Distinct(f)
    && (forall i :: 0 <= i < |f| ==> f[i] < |a| && Due(a[f[i]], now) && Fired(a[f[i]], b[f[i]], now))
    && (forall w :: 0 <= w < |a| && w !in f ==> Moved(a[w], b[w]))
    && (forall i, j :: 0 <= i < j < |f| ==> a[f[i]].at <= a[f[j]].at)
    && (forall i, w :: 0 <= i < |f| && 0 <= w < |a| && w !in f && Due(a[w], now) ==> a[f[i]].at <= a[w].at)
  }

  /** What that means for one timer: if it fired it was running and its deadline was before now, and
      it is stopped if it does not repeat, or else runs again, one period later but not in the past;
      if it did not fire it is as it was. */
  lemma FiringSays(a: seq<Timer>, b: seq<Timer>, f: seq<nat>, now: int, w: nat)
    requires Firing(a, b, f, now) && w < |a|
    ensures w in f ==>
              && a[w].active != 0 && a[w].at < now && b[w].repeat == a[w].repeat
              && (b[w].active != 0 <==> a[w].repeat != 0)
              && (a[w].repeat != 0 ==> b[w].at == if a[w].at + a[w].repeat < now then now else a[w].at + a[w].repeat)
              && (a[w].repeat == 0 ==> b[w].at == a[w].at - now)
    ensures w !in f ==>
              && b[w].at == a[w].at && b[w].repeat == a[w].repeat && (b[w].active != 0 <==> a[w].active != 0)
              && forall i :: 0 <= i < |f| && a[w].active != 0 && a[w].at < now ==> a[f[i]].at <= a[w].at
  {
    if w in f {
      var i :| 0 <= i < |f| && f[i] == w;
    }
  }

  lemma FiredIsNotDue(a: seq<Timer>, b: seq<Timer>, f: seq<nat>, now: int)
    requires Firing(a, b, f, now)
    ensures forall i :: 0 <= i < |f| ==> f[i] < |b| && !Due(b[f[i]], now)
  {
    forall i | 0 <= i < |f|
      ensures f[i] < |b| && !Due(b[f[i]], now)
    {
      assert Fired(a[f[i]], b[f[i]], now);
    }
  }

  /** What one step of the loop does: w is due and no due timer is earlier, and it alone fires. */
  ghost predicate FiresNext(b: seq<Timer>, c: seq<Timer>, w: nat, now: int) {
    && w < |b| == |c| && Due(b[w], now) && Fired(b[w], c[w], now)
    && (forall v :: 0 <= v < |b| && Due(b[v], now) ==> b[w].at <= b[v].at)
    && (forall v :: 0 <= v < |b| && v != w ==> Moved(b[v], c[v]))
  }

  /** One more timer fires: w, which no due timer precedes. */
  lemma FireNext(a: seq<Timer>, b: seq<Timer>, c: seq<Timer>, f: seq<nat>, w: nat, now: int)
    requires Firing(a, b, f, now) && FiresNext(b, c, w, now)
    requires forall v :: 0 <= v < |a| ==> a[v].repeat >= 0
    ensures Firing(a, c, f + [w], now)
  {
    NewlyFired(a, b, f, w, now);
    FiredOnce(a, b, c, f, w, now);
    RestMoved(a, b, c, f, w, now);
    InOrder(a, b, f, w, now);
    NoneEarlier(a, b, f, w, now);
  }

  lemma NewlyFired(a: seq<Timer>, b: seq<Timer>, f: seq<nat>, w: nat, now: int)
    requires Firing(a, b, f, now) && w < |b| && Due(b[w], now)
    ensures w !in f && Moved(a[w], b[w]) && Distinct(f + [w])
  {
    FiredIsNotDue(a, b, f, now);
    hide Due, Fired, Moved;
    assert w !in f;
    var g := f + [w];
    forall i, j | 0 <= i < j < |g|
      ensures g[i] != g[j]
    {
      assert f[i] in f;
    }
  }

  lemma FiredOnce(a: seq<Timer>, b: seq<Timer>, c: seq<Timer>, f: seq<nat>, w: nat, now: int)
    requires Firing(a, b, f, now) && FiresNext(b, c, w, now) && w !in f && Moved(a[w], b[w])
    ensures forall i :: 0 <= i < |f| + 1 ==>
              (f + [w])[i] < |a| && Due(a[(f + [w])[i]], now) && Fired(a[(f + [w])[i]], c[(f + [w])[i]], now)
  {
    forall i | 0 <= i < |f|
      ensures f[i] < |a| && Due(a[f[i]], now) && Fired(a[f[i]], c[f[i]], now)
    {
      assert f[i] in f && Moved(b[f[i]], c[f[i]]);
    }
  }

  lemma RestMoved(a: seq<Timer>, b: seq<Timer>, c: seq<Timer>, f: seq<nat>, w: nat, now: int)
    requires Firing(a, b, f, now) && FiresNext(b, c, w, now)
    ensures forall v :: 0 <= v < |a| && v !in f + [w] ==> Moved(a[v], c[v])
  {
    hide Due, Fired;
    forall v | 0 <= v < |a| && v !in f + [w]
      ensures Moved(a[v], c[v])
    {
      assert (f + [w])[|f|] == w && forall i :: 0 <= i < |f| ==> (f + [w])[i] == f[i];
      assert v !in f && v != w;
    }
  }

  lemma InOrder(a: seq<Timer>, b: seq<Timer>, f: seq<nat>, w: nat, now: int)
    requires Firing(a, b, f, now) && w < |a| && w !in f && Moved(a[w], b[w]) && Due(b[w], now)
    ensures forall i, j :: 0 <= i < j < |f| + 1 ==> a[(f + [w])[i]].at <= a[(f + [w])[j]].at
  {
    hide Fired;
    assert Due(a[w], now);
  }

  lemma NoneEarlier(a: seq<Timer>, b: seq<Timer>, f: seq<nat>, w: nat, now: int)
    requires Firing(a, b, f, now) && w < |b| && Moved(a[w], b[w])
    requires forall v :: 0 <= v < |b| && Due(b[v], now) ==> b[w].at <= b[v].at
    ensures forall i, v :: 0 <= i < |f| + 1 && 0 <= v < |a| && v !in f + [w] && Due(a[v], now) ==>
              a[(f + [w])[i]].at <= a[v].at
  {
    hide Fired;
    forall i, v | 0 <= i < |f| + 1 && 0 <= v < |a| && v !in f + [w] && Due(a[v], now)
      ensures a[(f + [w])[i]].at <= a[v].at
    {
      assert forall k :: 0 <= k < |f| ==> (f + [w])[k] == f[k];
      assert v !in f && Moved(a[v], b[v]) && Due(b[v], now);
    }
  }

  function Members(f: seq<nat>): (s: set<nat>) {
    if f == [] then {} else Members(f[..|f| - 1]) + {f[|f| - 1]}
  }

  lemma {:induction false} MembersAreIn(f: seq<nat>, x: nat)
    ensures x in Members(f) ==> x in f
  {
    if f != [] {
      MembersAreIn(f[..|f| - 1], x);
    }
  }

  lemma {:induction false} MembersCount(f: seq<nat>)
    requires Distinct(f)
    ensures |Members(f)| == |f|
  {
    if f != [] {
      LastIsNew(f);
      hide Distinct;
      MembersCount(f[..|f| - 1]);
      MembersAreIn(f[..|f| - 1], f[|f| - 1]);
    }
  }

  lemma LastIsNew(f: seq<nat>)
    requires Distinct(f) && f != []
    ensures Distinct(f[..|f| - 1]) && f[|f| - 1] !in f[..|f| - 1]
  {
  }

  function Below(n: nat): (s: set<nat>)
    ensures |s| == n && forall i: nat :: i in s <==> i < n
  {
    if n == 0 then {} else Below(n - 1) + {n - 1}
  }

  lemma {:induction false} Contained(a: set<nat>, b: set<nat>)
    requires a <= b
    ensures |a| <= |b|
  {
    if a != {} {
      var x :| x in a;
      Contained(a - {x}, b - {x});
    }
  }

  lemma DistinctBound(f: seq<nat>, n: nat)
    requires Distinct(f) && forall i :: 0 <= i < |f| ==> f[i] < n
    ensures |f| <= n
  {
    MembersCount(f);
    forall x | x in Members(f)
      ensures x in Below(n)
    {
      MembersAreIn(f, x);
    }
    Contained(Members(f), Below(n));
  }

  // ---- what the feed list adds to the queues ----------------------------------------

  /** The slots that feeding f from its end puts behind queue p. */
  function NewSlots(f: seq<nat>, ps: seq<Watch>, p: nat): seq<Slot> {
    if f == [] then []
    else
      NewSlots(f[1..], ps, p)
      + if f[0] < |ps| && ps[f[0]] == Watch(p, 0) then [Slot(Watcher(f[0]), EV_TIMER)] else []
  }

  /** The callbacks for the timers in f that have priority p and were not pending, in order. */
  function TimerCalls(f: seq<nat>, ps: seq<Watch>, p: nat): seq<Call> {
    if f == [] then []
    else
      (if f[0] < |ps| && ps[f[0]] == Watch(p, 0) then [Call(f[0], EV_TIMER, 0)] else [])
      + TimerCalls(f[1..], ps, p)
  }

  lemma BackwardsSnoc(q: seq<Slot>, w: nat, e: bv16)
    ensures Backwards(q + [Slot(Watcher(w), e)]) == [Call(w, e, 0)] + Backwards(q)
  {
    var all := q + [Slot(Watcher(w), e)];
    assert all[|all| - 1] == Slot(Watcher(w), e) && all[..|all| - 1] == q;
  }

  /** Reversed on the way in, reversed on the way out. */
  lemma {:induction false} TwoReversals(q: seq<Slot>, f: seq<nat>, ps: seq<Watch>, p: nat)
    ensures Backwards(q + NewSlots(f, ps, p)) == TimerCalls(f, ps, p) + Backwards(q)
  {
    hide Backwards;
    if f == [] {
      assert q + [] == q && [] + Backwards(q) == Backwards(q);
    } else {
      var more, calls := NewSlots(f[1..], ps, p), TimerCalls(f[1..], ps, p);
      TwoReversals(q, f[1..], ps, p);
      if f[0] < |ps| && ps[f[0]] == Watch(p, 0) {
        var s, c := Slot(Watcher(f[0]), EV_TIMER), Call(f[0], EV_TIMER, 0);
        BackwardsSnoc(q + more, f[0], EV_TIMER);
        assert q + (more + [s]) == (q + more) + [s];
        assert [c] + (calls + Backwards(q)) == ([c] + calls) + Backwards(q);
      } else {
        assert more + [] == more && [] + calls == calls;
      }
    }
  }

  /** The queues were r; feeding the timers in f made them q. */
  ghost predicate FedTo(r: seq<seq<Slot>>, q: seq<seq<Slot>>, f: seq<nat>, ps: seq<Watch>) {
    |r| == |q| && forall p :: 0 <= p < |r| ==> |r[p]| <= |q[p]| && q[p][|r[p]|..] == NewSlots(f, ps, p)
  }

  lemma FedNothing(r: seq<seq<Slot>>, q: seq<seq<Slot>>, ps: seq<Watch>)
    requires |r| == |q| && forall p :: 0 <= p < |r| ==> |r[p]| == |q[p]|
    ensures FedTo(r, q, [], ps)
  {
  }

  lemma FedOne(r: seq<seq<Slot>>, q: seq<seq<Slot>>, f: seq<nat>, ps: seq<Watch>, w: nat)
    requires FedTo(r, q, f, ps) && w < |ps| && ps[w].pending == 0 && ps[w].pri < |q|
    ensures FedTo(r, q[ps[w].pri := q[ps[w].pri] + [Slot(Watcher(w), EV_TIMER)]], [w] + f, ps)
  {
    var g := [w] + f;
    assert g[0] == w && g[1..] == f;
    var q' := q[ps[w].pri := q[ps[w].pri] + [Slot(Watcher(w), EV_TIMER)]];
    forall p | 0 <= p < |r|
      ensures |r[p]| <= |q'[p]| && q'[p][|r[p]|..] == NewSlots(g, ps, p)
    {
      if p == ps[w].pri {
        assert q'[p][|r[p]|..] == q[p][|r[p]|..] + [Slot(Watcher(w), EV_TIMER)];
      } else {
        assert NewSlots(f, ps, p) + [] == NewSlots(f, ps, p);
      }
    }
  }

  lemma FedAgain(r: seq<seq<Slot>>, q: seq<seq<Slot>>, q': seq<seq<Slot>>, f: seq<nat>, ps: seq<Watch>, w: nat)
    requires FedTo(r, q, f, ps) && w < |ps| && 0 < ps[w].pending && ps[w].pri < |r| && ps[w].pending <= |r[ps[w].pri]|
    requires |q'| == |q| && forall p :: 0 <= p < |q| ==> |q'[p]| == |q[p]|
    requires forall p, j :: 0 <= p < |q'| && 0 <= j < |q'[p]| ==>
               q'[p][j] == q[p][j] || (p == ps[w].pri && j == ps[w].pending - 1)
    ensures FedTo(r, q', [w] + f, ps)
  {
    var g := [w] + f;
    assert g[0] == w && g[1..] == f;
    forall p | 0 <= p < |r|
      ensures |r[p]| <= |q'[p]| && q'[p][|r[p]|..] == NewSlots(g, ps, p)
    {
      assert q'[p][|r[p]|..] == q[p][|r[p]|..];
      assert NewSlots(f, ps, p) + [] == NewSlots(f, ps, p);
    }
  }

  /** Of the watchers that are not in f, none was fed or cleared. */
  ghost predicate OthersKept(qs: seq<seq<Slot>>, ps: seq<Watch>, rs: seq<seq<Slot>>, us: seq<Watch>, f: seq<nat>) {
    && Good(qs, ps) && Good(rs, us) && |us| == |ps|
    && forall v :: 0 <= v < |ps| && v !in f ==> KeptOne(qs, ps, rs, us, v)
  }

  ghost predicate KeptOne(qs: seq<seq<Slot>>, ps: seq<Watch>, rs: seq<seq<Slot>>, us: seq<Watch>, v: nat)
    requires Good(qs, ps) && Good(rs, us) && v < |ps| == |us|
  {
    assert GoodWatch(qs, ps, v) && GoodWatch(rs, us, v);
    us[v] == ps[v] && EventsOf(rs, us, v) == EventsOf(qs, ps, v)
  }

  lemma KeptByNothing(qs: seq<seq<Slot>>, ps: seq<Watch>, f: seq<nat>)
    requires Good(qs, ps)
    ensures OthersKept(qs, ps, qs, ps, f)
  {
    hide EventsOf;
  }

  lemma KeptByChange(qs: seq<seq<Slot>>, ps: seq<Watch>, rs: seq<seq<Slot>>, us: seq<Watch>,
                     w: nat, e: bv16, pending: bool)
    requires Good(qs, ps) && Changed(qs, ps, rs, us, w, e, pending)
    ensures OthersKept(qs, ps, rs, us, [w]) && Good(rs, us)
  {
    hide EventsOf, Good, GoodWatch;
  }

  lemma KeptTwice(qs: seq<seq<Slot>>, ps: seq<Watch>, rs: seq<seq<Slot>>, us: seq<Watch>,
                  ts: seq<seq<Slot>>, vs: seq<Watch>, f: seq<nat>, g: seq<nat>, h: seq<nat>)
    requires OthersKept(qs, ps, rs, us, f) && OthersKept(rs, us, ts, vs, g)
    requires (forall v :: v in f ==> v in h) && (forall v :: v in g ==> v in h)
    ensures OthersKept(qs, ps, ts, vs, h)
  {
    hide EventsOf, Good, GoodWatch;
    forall v | 0 <= v < |ps| && v !in h
      ensures KeptOne(qs, ps, ts, vs, v)
    {
      assert v !in f && v !in g;
      assert KeptOne(qs, ps, rs, us, v) && KeptOne(rs, us, ts, vs, v);
    }
  }

  // ---- the loop ---------------------------------------------------------------------

  class EvLoop {
    const timers: TimerHeap
    const pend: Pendings
    /** mn_now, and the list that the fired timers are collected in */
    var now: int
    var rfeeds: seq<nat>

    /** Every timer is also a watcher, under the same number. */
    ghost predicate Valid()
      reads this, timers, timers.ws, timers.heap, pend, pend.ps, pend.queues
    {
      && timers.Valid() && pend.Valid() && rfeeds == [] && timers.ws.Length <= pend.ps.Length
      && forall w :: 0 <= w < timers.ws.Length ==> timers.ws[w].repeat >= 0
    }

    constructor (timers: TimerHeap, pend: Pendings, now: int)
      requires timers.Valid() && pend.Valid() && timers.ws.Length <= pend.ps.Length
      requires forall w :: 0 <= w < timers.ws.Length ==> timers.ws[w].repeat >= 0
      ensures Valid() && this.timers == timers && this.pend == pend
    {
      this.timers, this.pend, this.now, rfeeds := timers, pend, now, [];
    }

    /** `ev_timer_stop` */
    method TimerStop(w: nat)
      requires timers.Valid() && pend.Valid() && w < timers.ws.Length <= pend.ps.Length
      modifies timers`count, timers.ws, timers.heap, pend.ps, pend.queues
      ensures timers.Valid() && pend.Valid()
      ensures pend.ps[..] == old(pend.ps[..])[w := old(pend.ps[w]).(pending := 0)]
      ensures forall p :: 0 <= p < pend.queues.Length ==> |pend.queues[p]| == |old(pend.queues[..])[p]|
      ensures OthersKept(old(pend.queues[..]), old(pend.ps[..]), pend.queues[..], pend.ps[..], [w])
      ensures old(timers.ws[w].active) == 0 ==> timers.ws[..] == old(timers.ws[..])
      ensures old(timers.ws[w].active) != 0 ==>
                timers.Became(old(timers.ws[..]), timers.ws[..], w, false, old(timers.ws[w].at) - now)
    {
      hide TimerHeap.Became, TimerHeap.Valid, Good, Changed, OthersKept;
      ghost var q, us := pend.queues[..], pend.ps[..];
      var _ := pend.Clear(w);
      KeptByChange(q, us, pend.queues[..], pend.ps[..], w, 0, false);
      timers.Stop(w, now);
    }

    /** One turn of the loop of `timers_reify`: the earliest timer fires. */
    method FireRoot() returns (w: nat)
      requires timers.Valid() && pend.Valid() && timers.ws.Length <= pend.ps.Length
      requires 0 < timers.count && HEAP0 < timers.heap.Length && timers.heap[HEAP0].at < now
      requires forall v :: 0 <= v < timers.ws.Length ==> timers.ws[v].repeat >= 0
      modifies timers`count, timers.ws, timers.heap, pend.ps, pend.queues
      ensures timers.Valid() && pend.Valid()
      ensures var b, c := old(timers.ws[..]), timers.ws[..];
              && w < |b| == |c| && Due(b[w], now) && Fired(b[w], c[w], now)
              && (forall v :: 0 <= v < |b| && Due(b[v], now) ==> b[w].at <= b[v].at)
              && (forall v :: 0 <= v < |b| && v != w ==> Moved(b[v], c[v]))
      ensures pend.ps[..] == if old(timers.ws[..])[w].repeat == 0
                             then old(pend.ps[..])[w := old(pend.ps[..])[w].(pending := 0)] else old(pend.ps[..])
      ensures forall p :: 0 <= p < pend.queues.Length ==> |pend.queues[p]| == |old(pend.queues[..])[p]|
      ensures OthersKept(old(pend.queues[..]), old(pend.ps[..]), pend.queues[..], pend.ps[..], [w])
    {
      timers.RootTimer(timers.heap[..], timers.ws[..], timers.count);
      w := timers.heap[HEAP0].w;
      forall v | 0 <= v < timers.ws.Length && Due(timers.ws[v], now)
        ensures timers.ws[w].at <= timers.ws[v].at
      {
        timers.RootIsEarliest(v);
      }
      hide TimerHeap.Valid, Good, OthersKept;
      KeptByNothing(pend.queues[..], pend.ps[..], [w]);
      if timers.ws[w].repeat != 0 {
        var at := timers.ws[w].at + timers.ws[w].repeat;
        if at < now {
          at := now;
        }
        var _ := timers.RescheduleRoot(at);
      } else {
        TimerStop(w);
      }
    }

    /** What is left of the pending marks when nonrepeating timers were stopped. */
    ghost predicate Unmarked(a: seq<Timer>, us: seq<Watch>, vs: seq<Watch>, f: seq<nat>) {
      && |us| == |vs| && |a| <= |us|
      && forall v :: 0 <= v < |us| ==>
           vs[v] == if v in f && v < |a| && a[v].repeat == 0 then us[v].(pending := 0) else us[v]
    }

    lemma UnmarkOne(a: seq<Timer>, us: seq<Watch>, vs: seq<Watch>, f: seq<nat>, w: nat)
      requires Unmarked(a, us, vs, f) && w < |a| && w !in f
      ensures Unmarked(a, us, if a[w].repeat == 0 then vs[w := vs[w].(pending := 0)] else vs, f + [w])
    {
    }

    /** The first half of `timers_reify`: everything due fires, in order. */
    method FireAll(ghost a: seq<Timer>)
      requires Valid() && a == timers.ws[..]
      modifies this`rfeeds, timers`count, timers.ws, timers.heap, pend.ps, pend.queues
      ensures timers.Valid() && pend.Valid() && Firing(a, timers.ws[..], rfeeds, now)
      ensures forall w :: 0 <= w < |a| ==> !Due(timers.ws[w], now)
      ensures Unmarked(a, old(pend.ps[..]), pend.ps[..], rfeeds)
      ensures OthersKept(old(pend.queues[..]), old(pend.ps[..]), pend.queues[..], pend.ps[..], rfeeds)
      ensures forall p :: 0 <= p < pend.queues.Length ==> |pend.queues[p]| == |old(pend.queues[..])[p]|
    {
      hide TimerHeap.Valid, Good, Firing, Unmarked, Due, OthersKept;
      ghost var q, us := pend.queues[..], pend.ps[..];
      FiringNone(a, us);
      KeptByNothing(q, us, rfeeds);
      while timers.count > 0 && RootAt() < now
        invariant timers.Valid() && pend.Valid()
        invariant Firing(a, timers.ws[..], rfeeds, now) && Unmarked(a, us, pend.ps[..], rfeeds)
        invariant OthersKept(q, us, pend.queues[..], pend.ps[..], rfeeds)
        invariant forall p :: 0 <= p < pend.queues.Length ==> |pend.queues[p]| == |old(pend.queues[..])[p]|
        decreases |a| - |rfeeds|
      {
        ghost var b, vs, r := timers.ws[..], pend.ps[..], pend.queues[..];
        FiringFacts(a, b, rfeeds, us, vs);
        RootExists();
        var w := FireRoot();
        FiredOnce(a, b, rfeeds, w);
        FireNext(a, b, timers.ws[..], rfeeds, w, now);
        UnmarkOne(a, us, vs, rfeeds, w);
        KeptTwice(q, us, r, vs, pend.queues[..], pend.ps[..], rfeeds, [w], rfeeds + [w]);
        rfeeds := rfeeds + [w];
        FiringBound(a, timers.ws[..], rfeeds);
      }
      forall w | 0 <= w < |a|
        ensures !Due(timers.ws[w], now)
      {
        FiringFacts(a, timers.ws[..], rfeeds, us, pend.ps[..]);
        NotDue(w);
      }
    }

    /** ANHE_at (timers [HEAP0]) */
    function RootAt(): int
      reads timers, timers.ws, timers.heap
      requires timers.Valid() && 0 < timers.count
    {
      timers.heap[HEAP0].at
    }

    lemma RootExists()
      requires timers.Valid() && 0 < timers.count
      ensures HEAP0 < timers.heap.Length && timers.heap[HEAP0].at == RootAt()
    {
    }

    lemma FiringNone(a: seq<Timer>, us: seq<Watch>)
      requires |a| <= |us|
      ensures Firing(a, a, [], now) && Unmarked(a, us, us, [])
    {
    }

    lemma FiringFacts(a: seq<Timer>, b: seq<Timer>, f: seq<nat>, us: seq<Watch>, vs: seq<Watch>)
      requires Firing(a, b, f, now) && Unmarked(a, us, vs, f)
      requires forall w :: 0 <= w < |a| ==> a[w].repeat >= 0
      ensures |a| == |b| && |us| == |vs| && |a| <= |us|
      ensures forall w :: 0 <= w < |b| ==> b[w].repeat == a[w].repeat >= 0
    {
      forall w | 0 <= w < |b|
        ensures b[w].repeat == a[w].repeat
      {
        if w in f {
          var i :| 0 <= i < |f| && f[i] == w;
          assert Fired(a[f[i]], b[f[i]], now);
        } else {
          assert Moved(a[w], b[w]);
        }
      }
    }

    lemma FiredOnce(a: seq<Timer>, b: seq<Timer>, f: seq<nat>, w: nat)
      requires Firing(a, b, f, now) && w < |b| && Due(b[w], now)
      ensures w !in f && b[w].repeat == a[w].repeat
    {
      FiredIsNotDue(a, b, f, now);
      assert w !in f;
      assert Moved(a[w], b[w]);
    }

    lemma FiringBound(a: seq<Timer>, b: seq<Timer>, f: seq<nat>)
      requires Firing(a, b, f, now)
      ensures |f| <= |a|
    {
      DistinctBound(f, |a|);
    }

    lemma NotDue(w: nat)
      requires timers.Valid() && w < timers.ws.Length && !(timers.count > 0 && RootAt() < now)
      ensures !Due(timers.ws[w], now)
    {
      if timers.ws[w].active != 0 {
        timers.RootIsEarliest(w);
      }
    }

    lemma NotYet(f: seq<nat>, k: nat)
      requires Distinct(f) && k < |f|
      ensures f[k] !in f[k + 1..]
    {
    }

    lemma InRange(qs: seq<seq<Slot>>, ps: seq<Watch>, w: nat)
      requires Good(qs, ps) && w < |ps|
      ensures ps[w].pri < |qs| && ps[w].pending <= |qs[ps[w].pri]|
    {
      assert GoodWatch(qs, ps, w);
    }

    lemma KeptIsGood(qs: seq<seq<Slot>>, ps: seq<Watch>, rs: seq<seq<Slot>>, us: seq<Watch>, f: seq<nat>)
      requires OthersKept(qs, ps, rs, us, f)
      ensures Good(qs, ps) && |us| == |ps|
    {
    }

    lemma KeptHere(qs: seq<seq<Slot>>, ps: seq<Watch>, rs: seq<seq<Slot>>, us: seq<Watch>, f: seq<nat>, v: nat)
      requires OthersKept(qs, ps, rs, us, f) && v < |ps| && v !in f
      ensures |us| == |ps| && us[v] == ps[v]
    {
    }

    /** The second half: the list is fed from its end. */
    method FeedAll(ghost r: seq<seq<Slot>>, ghost mid: seq<Watch>) returns (ghost f: seq<nat>)
      requires pend.Valid() && r == pend.queues[..] && mid == pend.ps[..] && Distinct(rfeeds)
      requires forall i :: 0 <= i < |rfeeds| ==> rfeeds[i] < |mid|
      modifies this`rfeeds, pend`pendingPri, pend.ps, pend.queues
      ensures pend.Valid() && rfeeds == [] && f == old(rfeeds) && FedTo(r, pend.queues[..], f, mid)
      ensures OthersKept(r, mid, pend.queues[..], pend.ps[..], f)
    {
      f := rfeeds;
      FedNothing(r, r, mid);
      assert f[|f|..] == [];
      KeptByNothing(r, mid, f);
      hide Good, FedTo, Distinct, Changed, Pendings.Events, OthersKept, EventsOf, GoodWatch;
      while rfeeds != []
        invariant |rfeeds| <= |f| && rfeeds == f[..|rfeeds|]
        invariant pend.Valid() && FedTo(r, pend.queues[..], f[|rfeeds|..], mid)
        invariant OthersKept(r, mid, pend.queues[..], pend.ps[..], f[|rfeeds|..])
        decreases |rfeeds|
      {
        ghost var k := |rfeeds| - 1;
        var w := rfeeds[|rfeeds| - 1];
        NotYet(f, k);
        assert f[k..] == [w] + f[k + 1..];
        rfeeds := rfeeds[..|rfeeds| - 1];
        KeptIsGood(r, mid, pend.queues[..], pend.ps[..], f[k + 1..]);
        FeedOne(w, r, mid, f[k + 1..]);
      }
    }

    /** One turn of that loop, when those in f were fed. */
    method FeedOne(w: nat, ghost r: seq<seq<Slot>>, ghost mid: seq<Watch>, ghost f: seq<nat>)
      requires pend.Valid() && w < |mid| == pend.ps.Length && w !in f
      requires FedTo(r, pend.queues[..], f, mid) && OthersKept(r, mid, pend.queues[..], pend.ps[..], f)
      modifies pend`pendingPri, pend.ps, pend.queues
      ensures pend.Valid() && FedTo(r, pend.queues[..], [w] + f, mid)
      ensures OthersKept(r, mid, pend.queues[..], pend.ps[..], [w] + f)
    {
      KeptIsGood(r, mid, pend.queues[..], pend.ps[..], f);
      hide Good, FedTo, Distinct, Changed, Pendings.Events, OthersKept, EventsOf, GoodWatch;
      InRange(r, mid, w);
      ghost var q, us, e := pend.queues[..], pend.ps[..], pend.Events(w) | EV_TIMER;
      KeptHere(r, mid, q, us, f, w);
      pend.Feed(w, EV_TIMER);
      pend.ChangedIsGood(q, us, pend.queues[..], pend.ps[..], w, e, true);
      KeptByChange(q, us, pend.queues[..], pend.ps[..], w, e, true);
      KeptTwice(r, mid, q, us, pend.queues[..], pend.ps[..], f, [w], [w] + f);
      if mid[w].pending == 0 {
        FedOne(r, q, f, mid, w);
      } else {
        FedAgain(r, q, pend.queues[..], f, mid, w);
      }
    }

    /** `timers_reify`: the timers that are due fire, each once, in order of their deadlines. Of
        those that were not pending before, the ones of one priority are queued so that the last
        to fire is at the bottom. `mid` is what the watchers were once the timers were stopped. */
    method TimersReify() returns (ghost f: seq<nat>, ghost mid: seq<Watch>)
      requires Valid()
      modifies this`rfeeds, timers`count, timers.ws, timers.heap, pend`pendingPri, pend.ps, pend.queues
      ensures Valid()
      ensures Firing(old(timers.ws[..]), timers.ws[..], f, now)
      ensures forall w :: 0 <= w < timers.ws.Length ==>
                var t := old(timers.ws[..])[w]; w in f <==> t.active != 0 && t.at < now
      ensures forall w :: 0 <= w < timers.ws.Length ==> timers.ws[w].active == 0 || timers.ws[w].at >= now
      ensures Unmarked(old(timers.ws[..]), old(pend.ps[..]), mid, f)
      ensures FedTo(old(pend.queues[..]), pend.queues[..], f, mid)
      ensures OthersKept(old(pend.queues[..]), old(pend.ps[..]), pend.queues[..], pend.ps[..], f)
    {
      hide TimerHeap.Valid, Good, Unmarked, FedTo, OthersKept;
      ghost var a, q := timers.ws[..], pend.queues[..];
      FireAll(a);
      f, mid := rfeeds, pend.ps[..];
      FiringFacts(a, timers.ws[..], f, old(pend.ps[..]), mid);
      ghost var r := pend.queues[..];
      if rfeeds != [] {
        var _ := FeedAll(r, mid);
        KeptTwice(q, old(pend.ps[..]), r, mid, pend.queues[..], pend.ps[..], f, f, f);
      } else {
        FedNothing(q, r, mid);
      }
      SameLengths(q, r, pend.queues[..], f, mid);
      forall w | 0 <= w < |a|
        ensures w in f <==> Due(a[w], now)
      {
        if w !in f {
          assert Moved(a[w], timers.ws[..][w]);
        }
      }
    }

    lemma SameLengths(q: seq<seq<Slot>>, r: seq<seq<Slot>>, t: seq<seq<Slot>>, f: seq<nat>, ps: seq<Watch>)
      requires |q| == |r| && forall p :: 0 <= p < |r| ==> |r[p]| == |q[p]|
      ensures FedTo(r, t, f, ps) ==> FedTo(q, t, f, ps)
    {
    }

    /** All priorities, highest first: the timers, and then what was in the queue before. */
    function AllCalls(f: seq<nat>, ps: seq<Watch>, held: seq<seq<Slot>>, pri: nat): seq<Call>
      requires pri <= |held|
    {
      if pri == 0 then []
      else TimerCalls(f, ps, pri - 1) + Backwards(held[pri - 1]) + AllCalls(f, ps, held, pri - 1)
    }

    /** The first slots of every queue, as many as there were in r. */
    function Front(q: seq<seq<Slot>>, r: seq<seq<Slot>>): (held: seq<seq<Slot>>)
      requires |q| == |r| && forall p :: 0 <= p < |r| ==> |r[p]| <= |q[p]|
      ensures |held| == |q| && forall p :: 0 <= p < |r| ==> held[p] == q[p][..|r[p]|]
    {
      seq(|q|, p requires 0 <= p < |q| => q[p][..|r[p]|])
    }

    lemma DeliversOne(queue: seq<Slot>, n: nat, f: seq<nat>, ps: seq<Watch>, p: nat)
      requires n <= |queue| && queue[n..] == NewSlots(f, ps, p)
      ensures Backwards(queue) == TimerCalls(f, ps, p) + Backwards(queue[..n])
    {
      hide NewSlots, TimerCalls;
      assert queue == queue[..n] + NewSlots(f, ps, p);
      TwoReversals(queue[..n], f, ps, p);
    }

    lemma {:induction false} DeliversAll(r: seq<seq<Slot>>, q: seq<seq<Slot>>, f: seq<nat>, ps: seq<Watch>, pri: nat)
      requires FedTo(r, q, f, ps) && pri <= |r|
      ensures Deliveries(q, pri) == AllCalls(f, ps, Front(q, r), pri)
    {
      hide NewSlots, TimerCalls;
      if pri > 0 {
        var p := pri - 1;
        DeliversAll(r, q, f, ps, p);
        DeliversOne(q[p], |r[p]|, f, ps, p);
      }
    }

    /** What `ev_run` does with timers: those that are due and not pending already are called back
        once each, higher priorities first, and timers of one priority in the order of their
        deadlines. What was in the queue before is called after the timers of its priority: `held`,
        which is the same slots as before for the watchers that did not fire (`OthersKept`). This
        goes for the calls of any set of watchers that the callbacks neither feed nor clear,
        whatever else they feed and clear; for all calls, if they do neither. */
    method ExpireTimers(ghost keep: set<nat>)
      returns (ghost f: seq<nat>, ghost mid: seq<Watch>, ghost held: seq<seq<Slot>>)
      requires Valid()
      modifies this`rfeeds, timers`count, timers.ws, timers.heap, pend, pend.ps, pend.queues
      ensures timers.Valid() && pend.Valid()
      ensures Firing(old(timers.ws[..]), timers.ws[..], f, now)
      ensures forall w :: 0 <= w < timers.ws.Length ==>
                var t := old(timers.ws[..])[w]; w in f <==> t.active != 0 && t.at < now
      ensures Unmarked(old(timers.ws[..]), old(pend.ps[..]), mid, f)
      ensures |held| == NUMPRI == pend.queues.Length
      ensures forall p :: 0 <= p < NUMPRI ==> |held[p]| == |old(pend.queues[..])[p]|
      ensures exists q, us :: OthersKept(old(pend.queues[..]), old(pend.ps[..]), q, us, f)
                              && FedTo(old(pend.queues[..]), q, f, mid) && held == Front(q, old(pend.queues[..]))
      ensures old(pend.calls) <= pend.calls
      ensures old(pend.script) == [] ==> pend.calls == old(pend.calls) + AllCalls(f, mid, held, NUMPRI)
      ensures Spares(old(pend.script), keep) ==>
                Of(pend.calls, keep) == Of(old(pend.calls), keep) + Of(AllCalls(f, mid, held, NUMPRI), keep)
    {
      hide TimerHeap.Valid, Firing, Unmarked, OthersKept, Spares, Of;
      ghost var us, q := pend.ps[..], pend.queues[..];
      QueueCount(q, us);
      hide Good;
      f, mid := TimersReify();
      ghost var q', us' := pend.queues[..], pend.ps[..];
      DeliversAll(q, q', f, mid, NUMPRI);
      held := Front(q', q);
      pend.InvokePending(keep);
      assert OthersKept(q, us, q', us', f) && FedTo(q, q', f, mid) && held == Front(q', q);
    }

    lemma QueueCount(qs: seq<seq<Slot>>, ps: seq<Watch>)
      requires Good(qs, ps)
      ensures |qs| == NUMPRI
    {
    }

    /** `ev_timer_start` */
    method TimerStart(w: nat)
      requires Valid() && w < timers.ws.Length
      modifies timers, timers.ws, timers.heap
      ensures Valid()
      ensures old(timers.ws[w].active) == 0 ==>
                timers.Became(old(timers.ws[..]), timers.ws[..], w, true, old(timers.ws[w].at) + now)
      ensures old(timers.ws[w].active) != 0 ==> timers.ws[..] == old(timers.ws[..])
    {
      hide TimerHeap.Valid, Good;
      timers.Start(w, now);
    }

    /** `ev_timer_again` */
    method TimerAgain(w: nat)
      requires Valid() && w < timers.ws.Length
      modifies timers, timers.ws, timers.heap, pend.ps, pend.queues
      ensures Valid() && pend.ps[..] == old(pend.ps[..])[w := old(pend.ps[w]).(pending := 0)]
      ensures old(timers.ws[w].repeat) > 0 ==>
                timers.Became(old(timers.ws[..]), timers.ws[..], w, true, now + old(timers.ws[w].repeat))
      ensures old(timers.ws[w].repeat) == 0 && old(timers.ws[w].active) != 0 ==>
                timers.Became(old(timers.ws[..]), timers.ws[..], w, false, old(timers.ws[w].at) - now)
      ensures old(timers.ws[w].repeat) == 0 && old(timers.ws[w].active) == 0 ==> timers.ws[..] == old(timers.ws[..])
    {
      hide TimerHeap.Valid, Good;
      var _ := pend.Clear(w);
      timers.Again(w, now);
    }
  }
}
