/** The timer heap of libev's ev.c: a 4-ary heap of deadlines in an array from index 3 on, with an
    index in every timer that points back at its place. */
module Heap {
  const HEAP0 := 3
  const DHEAP := 4

  /** A heap entry caches its timer's deadline. */
  datatype Node = Node(at: int, w: nat)

  /** active: the timer's place in the heap, or 0. While the timer is stopped, `at` is relative. */
  datatype Timer = Timer(active: nat, at: int, repeat: int)

  function Parent(k: nat): (p: nat)
    requires HEAP0 <= k
    ensures HEAP0 <= p <= k && (p == k <==> k == HEAP0)
  {
    if k == HEAP0 then HEAP0 else (k - HEAP0 - 1) / DHEAP + HEAP0
  }

  lemma Children(k: nat, i: nat)
    requires HEAP0 <= k && HEAP0 < i
    ensures Parent(i) == k <==> DHEAP * (k - HEAP0) + HEAP0 + 1 <= i < DHEAP * (k - HEAP0) + HEAP0 + 1 + DHEAP
  {
  }

  // ---- what holds of the two arrays -------------------------------------------------

  ghost predicate LinkedAt(h: seq<Node>, ts: seq<Timer>, i: nat)
    requires i < |h|
  {
    h[i].w < |ts| && ts[h[i].w].active == i && h[i].at == ts[h[i].w].at
  }

  ghost predicate PlacedAt(h: seq<Node>, ts: seq<Timer>, n: nat, w: nat)
    requires w < |ts| && n + HEAP0 <= |h|
  {
    ts[w].active != 0 ==> HEAP0 <= ts[w].active < n + HEAP0 && h[ts[w].active].w == w
  }

  /** Back-indices and cached deadlines agree, in both directions. */
  ghost predicate Linked(h: seq<Node>, ts: seq<Timer>, n: nat) {
    && n + HEAP0 <= |h|
    && (forall i :: HEAP0 <= i < n + HEAP0 ==> LinkedAt(h, ts, i))
    && (forall w :: 0 <= w < |ts| ==> PlacedAt(h, ts, n, w))
  }

  /** They do except for the timer of entry e, which belongs into the hole at k. */
  ghost predicate Hole(h: seq<Node>, ts: seq<Timer>, n: nat, k: nat, e: Node) {
    && n + HEAP0 <= |h| && HEAP0 <= k < n + HEAP0
    && e.w < |ts| && e.at == ts[e.w].at && ts[e.w].active != 0
    && (forall i :: HEAP0 <= i < n + HEAP0 && i != k ==> LinkedAt(h, ts, i) && h[i].w != e.w)
    && (forall w :: 0 <= w < |ts| && w != e.w ==> PlacedAt(h, ts, n, w) && ts[w].active != k)
  }

  /** Heap order among the first m entries, everywhere but at k. */
  ghost predicate OrderedElsewhere(h: seq<Node>, k: nat, m: nat)
    requires m + HEAP0 <= |h|
  {
    forall i :: HEAP0 < i < m + HEAP0 && i != k && Parent(i) != k ==> h[Parent(i)].at <= h[i].at
  }

  /** From k's parent to k's children. */
  ghost predicate OrderedAcross(h: seq<Node>, k: nat, m: nat)
    requires HEAP0 <= k < m + HEAP0 <= |h|
  {
    k > HEAP0 ==> forall i :: HEAP0 < i < m + HEAP0 && Parent(i) == k ==> h[Parent(k)].at <= h[i].at
  }

  /** From a deadline t at k to k's children. */
  ghost predicate OrderedBelow(h: seq<Node>, k: nat, m: nat, t: int)
    requires m + HEAP0 <= |h|
  {
    forall i :: HEAP0 < i < m + HEAP0 && Parent(i) == k ==> t <= h[i].at
  }

  /** From k's parent to t. */
  ghost predicate OrderedAbove(h: seq<Node>, k: nat, t: int)
    requires HEAP0 <= k < |h|
  {
    k > HEAP0 ==> h[Parent(k)].at <= t
  }

  ghost predicate Ordered(h: seq<Node>, m: nat)
    requires m + HEAP0 <= |h|
  {
    forall i :: HEAP0 < i < m + HEAP0 ==> h[Parent(i)].at <= h[i].at
  }

  /** Timers were moved, but none started, stopped or rescheduled. */
  ghost predicate OnlyMoved(a: seq<Timer>, b: seq<Timer>) {
    && |a| == |b|
    && forall w :: 0 <= w < |a| ==> b[w] == a[w].(active := b[w].active) && (b[w].active == 0 <==> a[w].active == 0)
  }

  // ---- moving the hole --------------------------------------------------------------

  lemma OpenHole(h: seq<Node>, ts: seq<Timer>, n: nat, k: nat)
    requires Linked(h, ts, n) && HEAP0 <= k < n + HEAP0
    ensures Hole(h, ts, n, k, h[k])
  {
    assert LinkedAt(h, ts, k);
    forall i | HEAP0 <= i < n + HEAP0 && i != k
      ensures LinkedAt(h, ts, i) && h[i].w != h[k].w
    {
    }
    forall w | 0 <= w < |ts| && w != h[k].w
      ensures PlacedAt(h, ts, n, w) && ts[w].active != k
    {
      assert PlacedAt(h, ts, n, w);
    }
  }

  lemma MoveHole(h: seq<Node>, ts: seq<Timer>, n: nat, k: nat, e: Node, p: nat)
    requires Hole(h, ts, n, k, e) && HEAP0 <= p < n + HEAP0 && p != k
    ensures LinkedAt(h, ts, p)
    ensures var w := h[p].w;
            Hole(h[k := h[p]], ts[w := ts[w].(active := k)], n, p, e)
  {
    assert LinkedAt(h, ts, p);
    var v := h[p].w;
    var g, us := h[k := h[p]], ts[v := ts[v].(active := k)];
    forall i | HEAP0 <= i < n + HEAP0 && i != p
      ensures LinkedAt(g, us, i) && g[i].w != e.w
    {
      assert i != k ==> LinkedAt(h, ts, i);
    }
    forall w | 0 <= w < |us| && w != e.w
      ensures PlacedAt(g, us, n, w) && us[w].active != p
    {
      assert PlacedAt(h, ts, n, w);
    }
  }

  lemma FillHole(h: seq<Node>, ts: seq<Timer>, n: nat, k: nat, e: Node)
    requires Hole(h, ts, n, k, e)
    ensures Linked(h[k := e], ts[e.w := ts[e.w].(active := k)], n)
  {
    var g, us := h[k := e], ts[e.w := ts[e.w].(active := k)];
    forall i | HEAP0 <= i < n + HEAP0
      ensures LinkedAt(g, us, i)
    {
      assert i != k ==> LinkedAt(h, ts, i) && h[i].w != e.w;
    }
    forall w | 0 <= w < |us|
      ensures PlacedAt(g, us, n, w)
    {
      assert w != e.w ==> PlacedAt(h, ts, n, w) && ts[w].active != k;
    }
  }

  /** The hole moves to its parent p, whose deadline is later than t. */
  lemma HoleUp(h: seq<Node>, k: nat, m: nat, t: int)
    requires HEAP0 < k < m + HEAP0 <= |h|
    requires OrderedElsewhere(h, k, m) && OrderedAcross(h, k, m) && OrderedBelow(h, k, m, t) && t < h[Parent(k)].at
    ensures var g, p := h[k := h[Parent(k)]], Parent(k);
            OrderedElsewhere(g, p, m) && OrderedAcross(g, p, m) && OrderedBelow(g, p, m, t)
  {
    var p := Parent(k);
    var g := h[k := h[p]];
    forall i | HEAP0 < i < m + HEAP0 && i != p && Parent(i) != p
      ensures g[Parent(i)].at <= g[i].at
    {
    }
    forall i | HEAP0 < i < m + HEAP0 && Parent(i) == p
      ensures t <= g[i].at && h[p].at <= g[i].at && (p > HEAP0 ==> g[Parent(p)].at <= g[i].at)
    {
      assert i != k ==> h[p].at <= h[i].at;
      assert p > HEAP0 ==> h[Parent(p)].at <= h[p].at;
    }
  }

  /** The hole moves to its earliest child c, whose deadline is earlier than t. */
  lemma HoleDown(h: seq<Node>, k: nat, m: nat, c: nat, t: int)
    requires HEAP0 <= k < m + HEAP0 <= |h| && HEAP0 < c < m + HEAP0 && Parent(c) == k
    requires OrderedElsewhere(h, k, m) && OrderedAcross(h, k, m) && OrderedAbove(h, k, t) && h[c].at < t
    requires OrderedBelow(h, k, m, h[c].at)
    ensures var g := h[k := h[c]];
            OrderedElsewhere(g, c, m) && OrderedAcross(g, c, m) && OrderedAbove(g, c, t)
  {
    var g := h[k := h[c]];
    forall i | HEAP0 < i < m + HEAP0 && i != c && Parent(i) != c
      ensures g[Parent(i)].at <= g[i].at
    {
      if i == k {
        assert h[Parent(k)].at <= h[c].at;
      } else if Parent(i) != k {
        assert h[Parent(i)].at <= h[i].at;
      }
    }
    forall i | HEAP0 < i < m + HEAP0 && Parent(i) == c
      ensures g[k].at <= g[i].at
    {
      assert h[Parent(i)].at <= h[i].at;
    }
  }

  /** Putting deadline t where it fits closes the hole. */
  lemma HoleFits(h: seq<Node>, k: nat, m: nat, e: Node)
    requires HEAP0 <= k < m + HEAP0 <= |h|
    requires OrderedElsewhere(h, k, m) && OrderedBelow(h, k, m, e.at) && OrderedAbove(h, k, e.at)
    ensures Ordered(h[k := e], m)
  {
  }

  lemma OnlyMovedStep(a: seq<Timer>, b: seq<Timer>, w: nat, k: nat)
    requires OnlyMoved(a, b) && w < |b| && (b[w].active == 0 <==> k == 0)
    ensures OnlyMoved(a, b[w := b[w].(active := k)])
  {
  }

  lemma OnlyMovedItself(a: seq<Timer>)
    ensures OnlyMoved(a, a)
  {
  }

  lemma OnlyMovedTwice(a: seq<Timer>, b: seq<Timer>, c: seq<Timer>)
    requires OnlyMoved(a, b) && OnlyMoved(b, c)
    ensures OnlyMoved(a, c)
  {
    forall w | 0 <= w < |a|
      ensures c[w] == a[w].(active := c[w].active)
    {
      assert b[w] == a[w].(active := b[w].active);
    }
  }

  class TimerHeap {
    const ws: array<Timer>
    var heap: array<Node>
    var count: nat

    /** What `verify_heap` asserts at run time, and that every active timer is in the heap. */
    ghost predicate Valid()
      reads this, ws, heap
    {
      Linked(heap[..], ws[..], count) && Ordered(heap[..], count)
    }

    constructor (timers: nat)
      ensures Valid() && count == 0 && fresh(ws) && fresh(heap) && ws.Length == timers
      ensures forall w :: 0 <= w < ws.Length ==> ws[w].active == 0
    {
      ws := new Timer[timers](_ => Timer(0, 0, 0));
      heap := new Node[HEAP0](_ => Node(0, 0));
      count := 0;
    }

    /** heap [k] = e; ev_active (ANHE_w (e)) = k */
    method PutAt(k: nat, e: Node)
      requires k < heap.Length && e.w < ws.Length
      modifies ws, heap
      ensures heap[..] == old(heap[..])[k := e]
      ensures ws[..] == old(ws[..])[e.w := old(ws[..])[e.w].(active := k)]
    {
      heap[k] := e;
      ws[e.w] := ws[e.w].(active := k);
    }

    /** `upheap`: towards the root, among the first m entries. */
    method UpHeap(start: nat, ghost m: nat)
      requires start < heap.Length && Hole(heap[..], ws[..], count, start, heap[start])
      requires HEAP0 <= start < m + HEAP0 && m <= count && count + HEAP0 <= heap.Length
      requires OrderedElsewhere(heap[..], start, m) && OrderedAcross(heap[..], start, m)
      requires OrderedBelow(heap[..], start, m, heap[start].at)
      modifies ws, heap
      ensures Linked(heap[..], ws[..], count) && Ordered(heap[..], m) && OnlyMoved(old(ws[..]), ws[..])
    {
      hide Linked, Hole, OrderedElsewhere, OrderedAcross, OrderedBelow, OnlyMoved, Ordered;
      ghost var n, was := count, ws[..];
      var k, e := start, heap[start];
      OnlyMovedItself(was);
      while true
        invariant HEAP0 <= k < m + HEAP0 && Hole(heap[..], ws[..], n, k, e) && OnlyMoved(was, ws[..])
        invariant OrderedElsewhere(heap[..], k, m) && OrderedAcross(heap[..], k, m)
        invariant OrderedBelow(heap[..], k, m, e.at)
        decreases k
      {
        var p := Parent(k);
        if p == k || heap[p].at <= e.at {
          break;
        }
        HoleUp(heap[..], k, m, e.at);
        MoveHole(heap[..], ws[..], n, k, e, p);
        HoleFacts(heap[..], ws[..], n, k, e);
        OnlyMovedStep(was, ws[..], heap[p].w, k);
        PutAt(k, heap[p]);
        k := p;
      }
      HoleFacts(heap[..], ws[..], n, k, e);
      FillHole(heap[..], ws[..], n, k, e);
      HoleFits(heap[..], k, m, e);
      OnlyMovedStep(was, ws[..], e.w, k);
      PutAt(k, e);
    }

    /** The search of `downheap` for the first of the earliest of the children that start at pos. */
    method MinChild(pos: nat, end: nat) returns (min: nat)
      requires pos < end <= heap.Length
      ensures pos <= min < end && min < pos + DHEAP
      ensures forall i :: pos <= i < end && i < pos + DHEAP ==> heap[min].at <= heap[i].at
      ensures forall i :: pos <= i < min ==> heap[min].at < heap[i].at
    {
      min := pos;
      var minat := heap[pos].at;
      if pos + DHEAP - 1 < end {
        if heap[pos + 1].at < minat {
          min, minat := pos + 1, heap[pos + 1].at;
        }
        if heap[pos + 2].at < minat {
          min, minat := pos + 2, heap[pos + 2].at;
        }
        if heap[pos + 3].at < minat {
          min, minat := pos + 3, heap[pos + 3].at;
        }
      } else {
        if pos + 1 < end && heap[pos + 1].at < minat {
          min, minat := pos + 1, heap[pos + 1].at;
        }
        if pos + 2 < end && heap[pos + 2].at < minat {
          min, minat := pos + 2, heap[pos + 2].at;
        }
        // The fourth test of this path can never succeed: pos + 3 < end took the other one.
        assert !(pos + 3 < end);
      }
    }

    /** No child of k is earlier than t. */
    lemma NothingBelow(h: seq<Node>, k: nat, m: nat, pos: nat, t: int)
      requires HEAP0 <= k < m + HEAP0 <= |h| && pos == DHEAP * (k - HEAP0) + HEAP0 + 1
      requires forall i :: pos <= i < m + HEAP0 && i < pos + DHEAP ==> t <= h[i].at
      ensures OrderedBelow(h, k, m, t)
    {
      forall i | HEAP0 < i < m + HEAP0 && Parent(i) == k
        ensures t <= h[i].at
      {
        Children(k, i);
      }
    }

    /** `downheap`: away from the root. */
    method DownHeap(start: nat)
      requires HEAP0 <= start < count + HEAP0 <= heap.Length && Hole(heap[..], ws[..], count, start, heap[start])
      requires OrderedElsewhere(heap[..], start, count) && OrderedAcross(heap[..], start, count)
      requires OrderedAbove(heap[..], start, heap[start].at)
      modifies ws, heap
      ensures Valid() && OnlyMoved(old(ws[..]), ws[..])
    {
      hide Linked, Hole, OrderedElsewhere, OrderedAcross, OrderedBelow, OrderedAbove, OnlyMoved, Ordered;
      ghost var n, was := count, ws[..];
      var k, e := start, heap[start];
      OnlyMovedItself(was);
      var end := count + HEAP0;
      while true
        invariant HEAP0 <= k < end && Hole(heap[..], ws[..], n, k, e) && OnlyMoved(was, ws[..])
        invariant OrderedElsewhere(heap[..], k, n) && OrderedAcross(heap[..], k, n)
        invariant OrderedAbove(heap[..], k, e.at)
        decreases end - k
      {
        var pos := DHEAP * (k - HEAP0) + HEAP0 + 1;
        if pos >= end {
          NothingBelow(heap[..], k, n, pos, e.at);
          break;
        }
        var c := MinChild(pos, end);
        NothingBelow(heap[..], k, n, pos, heap[c].at);
        if e.at <= heap[c].at {
          NothingBelow(heap[..], k, n, pos, e.at);
          break;
        }
        Children(k, c);
        HoleDown(heap[..], k, n, c, e.at);
        MoveHole(heap[..], ws[..], n, k, e, c);
        HoleFacts(heap[..], ws[..], n, k, e);
        OnlyMovedStep(was, ws[..], heap[c].w, k);
        PutAt(k, heap[c]);
        k := c;
      }
      HoleFacts(heap[..], ws[..], n, k, e);
      FillHole(heap[..], ws[..], n, k, e);
      HoleFits(heap[..], k, n, e);
      OnlyMovedStep(was, ws[..], e.w, k);
      PutAt(k, e);
    }

    /** `adjustheap`: entry k may have any deadline. */
    method AdjustHeap(k: nat)
      requires HEAP0 <= k < count + HEAP0 <= heap.Length && Hole(heap[..], ws[..], count, k, heap[k])
      requires OrderedElsewhere(heap[..], k, count) && OrderedAcross(heap[..], k, count)
      modifies ws, heap
      ensures Valid() && OnlyMoved(old(ws[..]), ws[..])
    {
      hide Hole, Linked, Ordered, OrderedElsewhere, OrderedAcross, OrderedBelow, OnlyMoved;
      if k > HEAP0 && heap[k].at <= heap[Parent(k)].at {
        EarlierThanBelow(heap[..], k, count);
        UpHeap(k, count);
      } else {
        LaterThanAbove(heap[..], k);
        DownHeap(k);
      }
    }

    lemma LaterThanAbove(h: seq<Node>, k: nat)
      requires HEAP0 <= k < |h| && !(k > HEAP0 && h[k].at <= h[Parent(k)].at)
      ensures OrderedAbove(h, k, h[k].at)
    {
    }

    lemma EarlierThanBelow(h: seq<Node>, k: nat, m: nat)
      requires HEAP0 < k < m + HEAP0 <= |h| && OrderedAcross(h, k, m) && h[k].at <= h[Parent(k)].at
      ensures OrderedBelow(h, k, m, h[k].at)
    {
    }

    /** `reheap`: makes a heap of entries in any order. */
    method ReHeap()
      requires Linked(heap[..], ws[..], count)
      modifies ws, heap
      ensures Valid() && OnlyMoved(old(ws[..]), ws[..])
    {
      hide Linked, Hole, OnlyMoved, Ordered, OrderedElsewhere, OrderedAcross, OrderedBelow;
      ghost var was := ws[..];
      LinkedBounds(heap[..], ws[..], count);
      OnlyMovedItself(was);
      NoneOrdered(heap[..]);
      var i := 0;
      while i < count
        invariant i <= count && Linked(heap[..], ws[..], count) && OnlyMoved(was, ws[..])
        invariant Ordered(heap[..], i)
      {
        ghost var before := ws[..];
        LastHasNoChildren(heap[..], i);
        OpenHole(heap[..], ws[..], count, i + HEAP0);
        LinkedBounds(heap[..], ws[..], count);
        UpHeap(i + HEAP0, i + 1);
        OnlyMovedTwice(was, before, ws[..]);
        i := i + 1;
      }
    }

    lemma NoneOrdered(h: seq<Node>)
      requires HEAP0 <= |h|
      ensures Ordered(h, 0)
    {
    }

    lemma LastHasNoChildren(h: seq<Node>, i: nat)
      requires i + HEAP0 < |h| && Ordered(h, i)
      ensures OrderedElsewhere(h, i + HEAP0, i + 1) && OrderedAcross(h, i + HEAP0, i + 1)
      ensures OrderedBelow(h, i + HEAP0, i + 1, h[i + HEAP0].at)
    {
    }

    // ---- starting and stopping ------------------------------------------------------

    /** array_needsize: room for one more entry. */
    method Grow()
      requires count + HEAP0 <= heap.Length
      modifies this`heap
      ensures count + HEAP0 < heap.Length && heap[..count + HEAP0] == old(heap[..count + HEAP0])
      ensures heap == old(heap) || fresh(heap)
    {
      if count + HEAP0 == heap.Length {
        var olds, n := heap, count + HEAP0;
        var more := new Node[2 * n](_ => Node(0, 0));
        var i := 0;
        while i < n
          invariant i <= n && forall j :: 0 <= j < i ==> more[j] == olds[j]
        {
          more[i] := olds[i];
          i := i + 1;
        }
        heap := more;
      }
    }

    lemma LinkedFront(h: seq<Node>, g: seq<Node>, ts: seq<Timer>, n: nat)
      requires n + HEAP0 <= |h| && n + HEAP0 <= |g| && h[..n + HEAP0] == g[..n + HEAP0]
      ensures Linked(h, ts, n) ==> Linked(g, ts, n)
      ensures Ordered(h, n) ==> Ordered(g, n)
    {
      assert forall i :: 0 <= i < n + HEAP0 ==> h[i] == h[..n + HEAP0][i] == g[..n + HEAP0][i] == g[i];
      if Linked(h, ts, n) {
        forall i | HEAP0 <= i < n + HEAP0
          ensures LinkedAt(g, ts, i)
        {
          assert LinkedAt(h, ts, i);
        }
        forall w | 0 <= w < |ts|
          ensures PlacedAt(g, ts, n, w)
        {
          assert PlacedAt(h, ts, n, w);
        }
      }
    }

    /** A new last entry. */
    lemma LinkLast(h: seq<Node>, ts: seq<Timer>, n: nat, w: nat, t: Timer)
      requires Linked(h, ts, n) && n + HEAP0 < |h| && w < |ts| && ts[w].active == 0
      requires t.active == n + HEAP0
      ensures Linked(h[n + HEAP0 := Node(t.at, w)], ts[w := t], n + 1)
    {
      var g, us, m := h[n + HEAP0 := Node(t.at, w)], ts[w := t], n + 1;
      forall i | HEAP0 <= i < m + HEAP0
        ensures LinkedAt(g, us, i)
      {
        assert i < n + HEAP0 ==> LinkedAt(h, ts, i);
      }
      forall v | 0 <= v < |us|
        ensures PlacedAt(g, us, m, v)
      {
        assert PlacedAt(h, ts, n, v);
      }
    }

    lemma OrderedFront(h: seq<Node>, n: nat, e: Node)
      requires n + HEAP0 < |h| && Ordered(h, n)
      ensures Ordered(h[n + HEAP0 := e], n)
    {
    }

    /** Timer w is as `t`, wherever it is in the heap; the others were only moved. */
    ghost predicate Became(a: seq<Timer>, b: seq<Timer>, w: nat, running: bool, at: int) {
      && |a| == |b| && w < |a|
      && b[w] == Timer(b[w].active, at, a[w].repeat) && (b[w].active != 0 <==> running)
      && forall v :: 0 <= v < |a| && v != w ==>
           b[v] == a[v].(active := b[v].active) && (b[v].active == 0 <==> a[v].active == 0)
    }

    lemma BecameThenMoved(a: seq<Timer>, b: seq<Timer>, c: seq<Timer>, w: nat, running: bool, at: int)
      requires Became(a, b, w, running, at) && OnlyMoved(b, c)
      ensures Became(a, c, w, running, at)
    {
      forall v | 0 <= v < |a| && v != w
        ensures c[v] == a[v].(active := c[v].active)
      {
        assert c[v] == b[v].(active := c[v].active);
      }
      assert c[w] == b[w].(active := c[w].active);
    }

    lemma BecameNow(a: seq<Timer>, w: nat, t: Timer)
      requires w < |a| && t.repeat == a[w].repeat
      ensures Became(a, a[w := t], w, t.active != 0, t.at)
    {
    }

    /** `ev_timer_start`: the deadline becomes absolute. */
    method Start(w: nat, now: int)
      requires Valid() && w < ws.Length && ws[w].repeat >= 0
      modifies this, ws, heap
      ensures Valid() && (heap == old(heap) || fresh(heap))
      ensures old(ws[w].active) != 0 ==> ws[..] == old(ws[..])
      ensures old(ws[w].active) == 0 ==> Became(old(ws[..]), ws[..], w, true, old(ws[w].at) + now)
    {
      hide Linked, Hole, Ordered, OrderedElsewhere, OrderedAcross, OrderedBelow, OnlyMoved, Became;
      if ws[w].active != 0 {
        return;
      }
      ghost var was, n := ws[..], count;
      LinkedBounds(heap[..], was, n);
      ghost var before := heap[..];
      Grow();
      LinkedFront(before, heap[..], was, n);
      var t := Timer(count + HEAP0, ws[w].at + now, ws[w].repeat);
      var e := Node(t.at, w);
      LinkLast(heap[..], was, n, w, t);
      OrderedFront(heap[..], n, e);
      BecameNow(was, w, t);
      count := count + 1;
      ws[w] := t;
      heap[t.active] := e;
      assert ws[..] == was[w := t];
      LastHasNoChildren(heap[..], n);
      OpenHole(heap[..], ws[..], n + 1, n + HEAP0);
      UpHeap(t.active, n + 1);
      BecameThenMoved(was, was[w := t], ws[..], w, true, t.at);
    }

    /** The last entry takes the place of timer w's. */
    lemma UnlinkLast(h: seq<Node>, ts: seq<Timer>, n: nat, w: nat, t: Timer)
      requires Linked(h, ts, n + 1) && w < |ts| && ts[w].active != 0 && t.active == 0
      ensures var k := ts[w].active;
              && HEAP0 <= k <= n + HEAP0
              && if k == n + HEAP0 then Linked(h, ts[w := t], n)
                 else Hole(h[k := h[n + HEAP0]], ts[w := t], n, k, h[n + HEAP0])
    {
      var k, us := ts[w].active, ts[w := t];
      assert PlacedAt(h, ts, n + 1, w);
      var g, last := h[k := h[n + HEAP0]], h[n + HEAP0];
      assert LinkedAt(h, ts, n + HEAP0) && LinkedAt(h, ts, k);
      forall i | HEAP0 <= i < n + HEAP0 && i != k
        ensures LinkedAt(g, us, i) && LinkedAt(h, us, i) && h[i].w != last.w
      {
        assert LinkedAt(h, ts, i);
      }
      forall v | 0 <= v < |us| && v != last.w
        ensures PlacedAt(g, us, n, v) && PlacedAt(h, us, n, v) && us[v].active != k
      {
        assert PlacedAt(h, ts, n + 1, v);
      }
      assert k == n + HEAP0 ==> PlacedAt(h, us, n, w);
    }

    lemma OrderedWithout(h: seq<Node>, n: nat, k: nat, e: Node)
      requires HEAP0 <= k < n + HEAP0 < |h| && Ordered(h, n + 1)
      ensures OrderedElsewhere(h[k := e], k, n) && OrderedAcross(h[k := e], k, n)
    {
      var g := h[k := e];
      if k > HEAP0 {
        forall i | HEAP0 < i < n + HEAP0 && Parent(i) == k
          ensures g[Parent(k)].at <= g[i].at
        {
          assert h[Parent(k)].at <= h[k].at && h[Parent(i)].at <= h[i].at;
        }
      }
    }

    lemma OrderedFewer(h: seq<Node>, n: nat)
      requires n + HEAP0 < |h| && Ordered(h, n + 1)
      ensures Ordered(h, n)
    {
    }

    /** `ev_timer_stop` (less its `clear_pending`): the deadline becomes relative again. The timer
        is unmarked before the heap is mended, not after; mending does not look at it. */
    method Stop(w: nat, now: int)
      requires Valid() && w < ws.Length
      modifies this`count, ws, heap
      ensures Valid()
      ensures old(ws[w].active) == 0 ==> ws[..] == old(ws[..])
      ensures old(ws[w].active) != 0 ==> Became(old(ws[..]), ws[..], w, false, old(ws[w].at) - now)
    {
      hide Linked, Hole, Ordered, OrderedElsewhere, OrderedAcross, OnlyMoved, Became;
      var active := ws[w].active;
      if active == 0 {
        return;
      }
      ghost var was := ws[..];
      SomeEntry(heap[..], was, count, w);
      LinkedBounds(heap[..], was, count);
      count := count - 1;
      var t := Timer(0, ws[w].at - now, ws[w].repeat);
      UnlinkLast(heap[..], was, count, w, t);
      BecameNow(was, w, t);
      OrderedFewer(heap[..], count);
      ws[w] := t;
      assert ws[..] == was[w := t];
      if active < count + HEAP0 {
        OrderedWithout(heap[..], count, active, heap[count + HEAP0]);
        heap[active] := heap[count + HEAP0];
        AdjustHeap(active);
        BecameThenMoved(was, was[w := t], ws[..], w, false, t.at);
      }
    }

    lemma SomeEntry(h: seq<Node>, ts: seq<Timer>, n: nat, w: nat)
      requires Linked(h, ts, n) && w < |ts| && ts[w].active != 0
      ensures 0 < n && HEAP0 <= ts[w].active < n + HEAP0 <= |h| && h[ts[w].active] == Node(ts[w].at, w)
    {
      assert PlacedAt(h, ts, n, w);
      assert LinkedAt(h, ts, ts[w].active);
    }

    /** A running timer gets another deadline. */
    lemma Relink(h: seq<Node>, ts: seq<Timer>, n: nat, w: nat, t: Timer)
      requires Linked(h, ts, n) && w < |ts| && ts[w].active != 0 && t.active == ts[w].active
      ensures HEAP0 <= t.active < n + HEAP0 <= |h| && Linked(h[t.active := Node(t.at, w)], ts[w := t], n)
    {
      SomeEntry(h, ts, n, w);
      var g, us := h[t.active := Node(t.at, w)], ts[w := t];
      forall i | HEAP0 <= i < n + HEAP0
        ensures LinkedAt(g, us, i)
      {
        assert LinkedAt(h, ts, i);
      }
      forall v | 0 <= v < |us|
        ensures PlacedAt(g, us, n, v)
      {
        assert PlacedAt(h, ts, n, v);
      }
    }

    lemma OrderedBut(h: seq<Node>, n: nat, k: nat, e: Node)
      requires HEAP0 <= k < n + HEAP0 <= |h| && Ordered(h, n)
      ensures OrderedElsewhere(h[k := e], k, n) && OrderedAcross(h[k := e], k, n)
    {
      var g := h[k := e];
      if k > HEAP0 {
        forall i | HEAP0 < i < n + HEAP0 && Parent(i) == k
          ensures g[Parent(k)].at <= g[i].at
        {
          assert h[Parent(k)].at <= h[k].at && h[Parent(i)].at <= h[i].at;
        }
      }
    }

    /** ev_at (w) = at, the cache, and mending the heap. */
    method Reschedule(w: nat, at: int)
      requires Valid() && w < ws.Length && ws[w].active != 0
      modifies ws, heap
      ensures Valid() && Became(old(ws[..]), ws[..], w, true, at)
    {
      hide Linked, Hole, Ordered, OrderedElsewhere, OrderedAcross, OnlyMoved, Became;
      ghost var was := ws[..];
      var k, t := ws[w].active, ws[w].(at := at);
      Relink(heap[..], was, count, w, t);
      OrderedBut(heap[..], count, k, Node(at, w));
      BecameNow(was, w, t);
      ws[w] := t;
      heap[k] := Node(at, w);
      assert ws[..] == was[w := t];
      OpenHole(heap[..], ws[..], count, k);
      AdjustHeap(k);
      BecameThenMoved(was, was[w := t], ws[..], w, true, at);
    }

    /** The timer at the root gets another deadline; `timers_reify` always sifts it down. */
    method RescheduleRoot(at: int) returns (w: nat)
      requires Valid() && 0 < count
      modifies ws, heap
      ensures Valid() && w < ws.Length && w == old(heap[HEAP0].w)
      ensures Became(old(ws[..]), ws[..], w, true, at)
    {
      hide Linked, Hole, Ordered, OrderedElsewhere, OrderedAcross, OnlyMoved, Became;
      ghost var was := ws[..];
      LinkedBounds(heap[..], was, count);
      w := heap[HEAP0].w;
      RootTimer(heap[..], was, count);
      var t := ws[w].(at := at);
      Relink(heap[..], was, count, w, t);
      OrderedBut(heap[..], count, HEAP0, Node(at, w));
      BecameNow(was, w, t);
      ws[w] := t;
      heap[HEAP0] := Node(at, w);
      assert ws[..] == was[w := t];
      OpenHole(heap[..], ws[..], count, HEAP0);
      NothingAboveRoot(heap[..], at);
      DownHeap(HEAP0);
      BecameThenMoved(was, was[w := t], ws[..], w, true, at);
    }

    lemma NothingAboveRoot(h: seq<Node>, at: int)
      requires HEAP0 < |h|
      ensures OrderedAbove(h, HEAP0, at)
    {
    }

    lemma RootTimer(h: seq<Node>, ts: seq<Timer>, n: nat)
      requires Linked(h, ts, n) && 0 < n
      ensures HEAP0 < |h| && h[HEAP0].w < |ts| && ts[h[HEAP0].w].active == HEAP0 && ts[h[HEAP0].w].at == h[HEAP0].at
    {
      assert LinkedAt(h, ts, HEAP0);
    }

    /** No running timer has an earlier deadline than the root. */
    lemma RootIsEarliest(w: nat)
      requires Valid() && w < ws.Length && ws[w].active != 0
      ensures 0 < count && HEAP0 < heap.Length && heap[HEAP0].at <= ws[w].at
    {
      SomeEntry(heap[..], ws[..], count, w);
      RootIsFirst(heap[..], count, ws[w].active);
    }

    /** `ev_timer_again` (less its `clear_pending`): restart a repeating timer, stop any other. */
    method Again(w: nat, now: int)
      requires Valid() && w < ws.Length && ws[w].repeat >= 0
      modifies this, ws, heap
      ensures Valid() && (heap == old(heap) || fresh(heap))
      ensures old(ws[w].repeat) > 0 ==> Became(old(ws[..]), ws[..], w, true, now + old(ws[w].repeat))
      ensures old(ws[w].repeat) == 0 && old(ws[w].active) != 0 ==>
                Became(old(ws[..]), ws[..], w, false, old(ws[w].at) - now)
      ensures old(ws[w].repeat) == 0 && old(ws[w].active) == 0 ==> ws[..] == old(ws[..])
    {
      hide Linked, Ordered, Became;
      if ws[w].active != 0 {
        if ws[w].repeat != 0 {
          Reschedule(w, now + ws[w].repeat);
        } else {
          Stop(w, now);
        }
      } else if ws[w].repeat != 0 {
        ghost var was := ws[..];
        StoppedLinked(heap[..], was, count, w, ws[w].(at := ws[w].repeat));
        ws[w] := ws[w].(at := ws[w].repeat);
        ghost var mid := ws[..];
        assert mid == was[w := was[w].(at := was[w].repeat)];
        Start(w, now);
        BecameTwice(was, mid, ws[..], w, now + was[w].repeat);
      }
    }

    lemma BecameTwice(a: seq<Timer>, b: seq<Timer>, c: seq<Timer>, w: nat, at: int)
      requires w < |a| && b == a[w := a[w].(at := a[w].repeat)] && Became(b, c, w, true, at)
      ensures Became(a, c, w, true, at)
    {
    }

    lemma StoppedLinked(h: seq<Node>, ts: seq<Timer>, n: nat, w: nat, t: Timer)
      requires Linked(h, ts, n) && w < |ts| && ts[w].active == t.active == 0
      ensures Linked(h, ts[w := t], n)
    {
      var us := ts[w := t];
      forall i | HEAP0 <= i < n + HEAP0
        ensures LinkedAt(h, us, i)
      {
        assert LinkedAt(h, ts, i);
      }
      forall v | 0 <= v < |us|
        ensures PlacedAt(h, us, n, v)
      {
        assert PlacedAt(h, ts, n, v);
      }
    }

    /** The root is the earliest deadline. */
    lemma {:induction false} RootIsFirst(h: seq<Node>, n: nat, i: nat)
      requires HEAP0 <= i < n + HEAP0 <= |h| && Ordered(h, n)
      ensures h[HEAP0].at <= h[i].at
      decreases i
    {
      if i > HEAP0 {
        RootIsFirst(h, n, Parent(i));
      }
    }

    lemma LinkedBounds(h: seq<Node>, ts: seq<Timer>, n: nat)
      requires Linked(h, ts, n)
      ensures n + HEAP0 <= |h|
    {
    }

    lemma HoleFacts(h: seq<Node>, ts: seq<Timer>, n: nat, k: nat, e: Node)
      requires Hole(h, ts, n, k, e)
      ensures e.w < |ts| && ts[e.w].active != 0 && n + HEAP0 <= |h|
      ensures forall p :: HEAP0 <= p < n + HEAP0 && p != k ==> h[p].w < |ts| && ts[h[p].w].active != 0
    {
      forall p | HEAP0 <= p < n + HEAP0 && p != k
        ensures h[p].w < |ts| && ts[h[p].w].active != 0
      {
        assert LinkedAt(h, ts, p);
      }
    }
  }
}
