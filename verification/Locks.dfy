/** The lock protocol between the event loop's thread and the threads that block: pkmanager.c
    hands the loop over through three mutexes and an async wake-up. One main thread, any number
    of others, every interleaving. */
module Locks {
  datatype Owner = Free | Main | Worker(i: nat)

  /** Where the main thread is: in `ev_loop` (polling, between callbacks, in a callback which may
      hold the config lock, in a yield), or in the stations of `pkm_interrupt_cb`, or past the
      loop, waiting for the blockers to end. */
  datatype MainPc = Start | Poll | Dispatch | Callback(cfg: bool) | Yielded(cfg: bool)
                  | IntrWait | IntrBack | IntrExit | Stopping | Joining | Ended

  /** Where another thread is; cfg says whether it holds the config lock in `pkm_block`. Only the
      wrong order of `pkm_reconnect_all` leads to Backwards. */
  datatype WorkerPc = Idle | Cfg | TryLoop(cfg: bool) | WantIntr(cfg: bool) | HasIntr(cfg: bool)
                    | WantLoop(cfg: bool) | HasBoth(cfg: bool) | InLoop(cfg: bool)
                    | Dropping | Connecting | WantCfg | Exited | Backwards

  /** The three mutexes, the wake-up (sent: `ev_async_send` was called since the loop last looked;
      fed: the loop saw it and has the interrupt callback pending) and the main thread. */
  datatype Shared = Shared(config: Owner, intr: Owner, loop: Owner, sent: bool, fed: bool, main: MainPc)

  /** The first `blockers` workers are blocker threads, the rest application threads. */
  datatype World = World(s: Shared, workers: seq<WorkerPc>, blockers: nat)

  predicate Init(w: World) {
    && w.s == Shared(Free, Free, Free, false, false, Start)
    && w.blockers <= |w.workers| && forall i :: 0 <= i < |w.workers| ==> w.workers[i] == Idle
  }

  /** A step of the main thread; `joined` says whether all blockers have exited. */
  predicate MainMove(s: Shared, t: Shared, joined: bool) {
    match s.main
    case Start => s.loop == Free && t == s.(loop := Main, main := Poll)
    case Poll => t == s.(main := Dispatch, sent := false, fed := s.sent)
    case Dispatch =>
      || (s.fed && t == s.(fed := false, loop := Free, main := IntrWait))
      || t == s.(main := Callback(false))
      || (s.config == Free && t == s.(config := Main, main := Callback(true)))
      || (!s.fed && t == s.(main := Poll))
      || (!s.fed && t == s.(main := Stopping))
    case Callback(cfg) =>
      || t == s.(loop := Free, main := Yielded(cfg))
      || (cfg && t == s.(config := Free, main := Callback(false)))
      || (!cfg && t == s.(main := Dispatch))
    case Yielded(cfg) => s.loop == Free && t == s.(loop := Main, main := Callback(cfg))
    case IntrWait => s.intr == Free && t == s.(intr := Main, main := IntrBack)
    case IntrBack => s.loop == Free && t == s.(loop := Main, main := IntrExit)
    case IntrExit => t == s.(intr := Free, main := Dispatch)
    case Stopping => t == s.(loop := Free, main := Joining)
    case Joining => joined && t == s.(main := Ended)
    case Ended => false
  }

  /** A step of worker i, a blocker or not, from p to q. */
  predicate WorkerMove(s: Shared, p: WorkerPc, t: Shared, q: WorkerPc, i: nat, blocker: bool) {
    match p
    case Idle =>
      || (blocker && s.config == Free && q == Cfg && t == s.(config := Worker(i)))
      || (blocker && s.main == Joining && q == Exited && t == s)
      || (!blocker && q == TryLoop(false) && t == s)
    case Cfg => (q == TryLoop(true) && t == s) || (q == Idle && t == s.(config := Free))
    case TryLoop(cfg) =>
      if s.loop == Free then q == InLoop(cfg) && t == s.(loop := Worker(i)) else q == WantIntr(cfg) && t == s
    case WantIntr(cfg) => s.intr == Free && q == HasIntr(cfg) && t == s.(intr := Worker(i))
    case HasIntr(cfg) => q == WantLoop(cfg) && t == s.(sent := true)
    case WantLoop(cfg) => s.loop == Free && q == HasBoth(cfg) && t == s.(loop := Worker(i))
    case HasBoth(cfg) => q == InLoop(cfg) && t == s.(intr := Free)
    case InLoop(cfg) =>
      || (q == (if cfg then Cfg else Idle) && t == s.(loop := Free))
      || (cfg && q == Dropping && t == s.(config := Free))
    case Dropping => q == Connecting && t == s.(loop := Free)
    case Connecting => q == WantCfg && t == s
    case WantCfg => s.config == Free && q == TryLoop(true) && t == s.(config := Worker(i))
    case Exited => false
    case Backwards => false
  }

  predicate Joined(w: World) {
    forall i :: 0 <= i < w.blockers && i < |w.workers| ==> w.workers[i] == Exited
  }

  predicate MainStep(w: World, v: World) {
    v == w.(s := v.s) && MainMove(w.s, v.s, Joined(w))
  }

  predicate WorkerStep(w: World, v: World, i: nat)
    requires i < |w.workers|
  {
    && |v.workers| == |w.workers| && v == World(v.s, w.workers[i := v.workers[i]], w.blockers)
    && WorkerMove(w.s, w.workers[i], v.s, v.workers[i], i, i < w.blockers)
  }

  ghost predicate Next(w: World, v: World) {
    MainStep(w, v) || exists i: nat :: i < |w.workers| && WorkerStep(w, v, i)
  }

  ghost predicate Run(ws: seq<World>) {
    ws != [] && forall k :: 0 <= k < |ws| - 1 ==> Next(ws[k], ws[k + 1])
  }

  // ---- what every reachable state keeps ---------------------------------------------

  predicate MainHoldsConfig(m: MainPc) {
    (m.Callback? || m.Yielded?) && m.cfg
  }

  predicate MainHoldsIntr(m: MainPc) {
    m == IntrBack || m == IntrExit
  }

  /** The main thread runs the loop and its callbacks only with the loop lock. */
  predicate MainHoldsLoop(m: MainPc) {
    m.Poll? || m.Dispatch? || m.Callback? || m.IntrExit? || m.Stopping?
  }

  predicate HoldsConfig(p: WorkerPc) {
    match p
    case Cfg => true
    case TryLoop(c) => c
    case WantIntr(c) => c
    case HasIntr(c) => c
    case WantLoop(c) => c
    case HasBoth(c) => c
    case InLoop(c) => c
    case _ => false
  }

  predicate HoldsIntr(p: WorkerPc) {
    p.HasIntr? || p.WantLoop? || p.HasBoth?
  }

  predicate HoldsLoop(p: WorkerPc) {
    p.HasBoth? || p.InLoop? || p.Dropping?
  }

  /** What is so of worker i, which is at p. */
  predicate WorkerOk(s: Shared, p: WorkerPc, i: nat) {
    && (HoldsConfig(p) <==> s.config == Worker(i))
    && (HoldsIntr(p) <==> s.intr == Worker(i))
    && (HoldsLoop(p) <==> s.loop == Worker(i))
    && (p.WantLoop? ==> s.sent || s.fed || s.main == IntrWait)
    && !p.Backwards? && (p.Exited? ==> s.main.Joining? || s.main.Ended?)
  }

  predicate MainOk(s: Shared, n: nat) {
    && (MainHoldsConfig(s.main) <==> s.config == Main)
    && (MainHoldsIntr(s.main) <==> s.intr == Main)
    && (MainHoldsLoop(s.main) <==> s.loop == Main)
    && (s.fed ==> s.main.Dispatch? || s.main.Callback? || s.main.Yielded?)
    && (s.config.Worker? ==> s.config.i < n)
    && (s.intr.Worker? ==> s.intr.i < n)
    && (s.loop.Worker? ==> s.loop.i < n)
  }

  ghost predicate Inv(w: World) {
    && MainOk(w.s, |w.workers|) && w.blockers <= |w.workers|
    && forall i :: 0 <= i < |w.workers| ==> WorkerOk(w.s, w.workers[i], i)
  }

  lemma MainKeepsWorker(s: Shared, t: Shared, joined: bool, n: nat, p: WorkerPc, i: nat)
    requires MainOk(s, n) && MainMove(s, t, joined) && WorkerOk(s, p, i)
    ensures WorkerOk(t, p, i)
  {
  }

  lemma MainKeepsMain(s: Shared, t: Shared, joined: bool, n: nat)
    requires MainOk(s, n) && MainMove(s, t, joined)
    ensures MainOk(t, n)
  {
  }

  lemma WorkerKeepsMain(s: Shared, p: WorkerPc, t: Shared, q: WorkerPc, i: nat, blocker: bool, n: nat)
    requires MainOk(s, n) && i < n && WorkerMove(s, p, t, q, i, blocker) && WorkerOk(s, p, i)
    ensures MainOk(t, n)
  {
  }

  lemma WorkerKeepsItself(s: Shared, p: WorkerPc, t: Shared, q: WorkerPc, i: nat, blocker: bool)
    requires WorkerMove(s, p, t, q, i, blocker) && WorkerOk(s, p, i)
    ensures WorkerOk(t, q, i)
  {
  }

  lemma WorkerKeepsOther(s: Shared, p: WorkerPc, t: Shared, q: WorkerPc, i: nat, blocker: bool, o: WorkerPc, j: nat)
    requires WorkerMove(s, p, t, q, i, blocker) && WorkerOk(s, p, i)
    requires j != i && WorkerOk(s, o, j)
    ensures WorkerOk(t, o, j)
  {
  }

  lemma NextKeeps(w: World, v: World)
    requires Inv(w) && Next(w, v)
    ensures Inv(v)
  {
    hide MainMove, WorkerMove, MainOk, WorkerOk, Joined;
    var n := |w.workers|;
    if MainStep(w, v) {
      MainKeepsMain(w.s, v.s, Joined(w), n);
      forall i | 0 <= i < n
        ensures WorkerOk(v.s, v.workers[i], i)
      {
        MainKeepsWorker(w.s, v.s, Joined(w), n, w.workers[i], i);
      }
    } else {
      var i: nat :| i < n && WorkerStep(w, v, i);
      var p, q, b := w.workers[i], v.workers[i], i < w.blockers;
      WorkerKeepsMain(w.s, p, v.s, q, i, b, n);
      WorkerKeepsItself(w.s, p, v.s, q, i, b);
      forall j | 0 <= j < n && j != i
        ensures WorkerOk(v.s, v.workers[j], j)
      {
        WorkerKeepsOther(w.s, p, v.s, q, i, b, w.workers[j], j);
      }
    }
  }

  lemma InitOk(w: World)
    requires Init(w)
    ensures Inv(w)
  {
  }

  lemma {:induction false} Always(ws: seq<World>, k: nat)
    requires Run(ws) && Init(ws[0]) && k < |ws|
    ensures Inv(ws[k])
  {
    hide Next, Inv, Init;
    if k == 0 {
      InitOk(ws[0]);
    } else {
      Always(ws, k - 1);
      assert Next(ws[k - 1], ws[k - 1 + 1]);
      NextKeeps(ws[k - 1], ws[k]);
    }
  }

  /** Mutual exclusion, over every run: while some thread is between `pkm_block` and
      `pkm_unblock`, the event loop is idle and no other thread is there. */
  lemma LoopIsIdle(ws: seq<World>, k: nat, i: nat)
    requires Run(ws) && Init(ws[0]) && k < |ws| && i < |ws[k].workers| && ws[k].workers[i].InLoop?
    ensures !MainHoldsLoop(ws[k].s.main)
    ensures forall j :: 0 <= j < |ws[k].workers| && j != i ==> !HoldsLoop(ws[k].workers[j])
  {
    hide Next;
    Always(ws, k);
    var w := ws[k];
    assert WorkerOk(w.s, w.workers[i], i);
    forall j | 0 <= j < |w.workers| && j != i
      ensures !HoldsLoop(w.workers[j])
    {
      assert WorkerOk(w.s, w.workers[j], j);
    }
  }

  /** A thread that waits inside `pkm_interrupt` has a wake-up on its way, or the main thread
      has let go of the loop and cannot pass the interrupt lock before it. */
  lemma WaiterIsExpected(ws: seq<World>, k: nat, i: nat)
    requires Run(ws) && Init(ws[0]) && k < |ws| && i < |ws[k].workers| && ws[k].workers[i].WantLoop?
    ensures var s := ws[k].s;
            s.sent || s.fed || (s.main == IntrWait && s.intr == Worker(i) && s.loop != Main)
  {
    hide Next;
    Always(ws, k);
    assert WorkerOk(ws[k].s, ws[k].workers[i], i);
  }

  lemma KeepsIntr(w: World, v: World, i: nat)
    requires Inv(w) && Next(w, v) && w.s.intr == Worker(i) && v.s.intr != Worker(i)
    ensures w.s.loop == Worker(i)
  {
    assert WorkerOk(w.s, w.workers[i], i);
    if !MainStep(w, v) {
      var j: nat :| j < |w.workers| && WorkerStep(w, v, j);
      assert WorkerOk(w.s, w.workers[j], j);
    }
  }

  lemma ExitFacts(w: World)
    requires Inv(w) && w.s.main == IntrExit
    ensures w.s.loop == Main && w.s.intr == Main
  {
  }

  /** Hand-over: if worker i has the interrupt lock when the main thread comes to wait for it in
      `pkm_interrupt_cb`, then the callback resumes only after worker i had the loop lock and
      gave it back. */
  lemma HandOver(ws: seq<World>, a: nat, c: nat, i: nat) returns (t: nat)
    requires Run(ws) && Init(ws[0]) && a <= c < |ws|
    requires ws[a].s.main == IntrWait && ws[a].s.intr == Worker(i) && ws[c].s.main == IntrExit
    ensures a <= t < c && ws[t].s.loop == Worker(i) && ws[c].s.loop == Main
  {
    hide Next, Inv;
    Always(ws, c);
    ExitFacts(ws[c]);
    t := a;
    while ws[t + 1].s.intr == Worker(i)
      invariant a <= t < c && ws[t].s.intr == Worker(i)
      decreases c - t
    {
      t := t + 1;
    }
    Always(ws, t);
    KeepsIntr(ws[t], ws[t + 1], i);
  }

  // ---- no deadlock ------------------------------------------------------------------

  /** The main thread can go on without waiting for an outside event. */
  predicate MainCan(s: Shared, joined: bool) {
    match s.main
    case Start => s.loop == Free
    case Poll => s.sent
    case Yielded(_) => s.loop == Free
    case IntrWait => s.intr == Free
    case IntrBack => s.loop == Free
    case Joining => joined
    case Ended => false
    case _ => true
  }

  /** A worker can go on without new work. */
  predicate WorkerCan(s: Shared, p: WorkerPc, blocker: bool) {
    match p
    case Idle => blocker && s.main == Joining
    case WantIntr(_) => s.intr == Free
    case WantLoop(_) => s.loop == Free
    case WantCfg => s.config == Free
    case Exited => false
    case Backwards => false
    case _ => true
  }

  ghost predicate SomeoneCan(w: World) {
    || MainCan(w.s, Joined(w))
    || exists i: nat :: i < |w.workers| && WorkerCan(w.s, w.workers[i], i < w.blockers)
  }

  /** Everyone is home: no thread but the polling main thread holds a lock or waits for one. */
  ghost predicate Quiet(w: World) {
    && (forall i :: 0 <= i < |w.workers| ==> w.workers[i].Idle? || w.workers[i].Exited?)
    && ((w.s.main == Poll && !w.s.sent) || w.s.main == Ended)
  }

  /** When the loop lock is free, or held by a main thread that polls with no wake-up sent, the
      owner of the interrupt lock can move. */
  lemma IntrOwnerMoves(w: World)
    requires Inv(w) && w.s.intr.Worker? && (w.s.loop == Free || (w.s.main == Poll && !w.s.sent))
    ensures SomeoneCan(w)
  {
    var j := w.s.intr.i;
    assert WorkerOk(w.s, w.workers[j], j);
    assert WorkerCan(w.s, w.workers[j], j < w.blockers);
  }

  lemma ConfigOwnerMoves(w: World)
    requires Inv(w) && w.s.config.Worker? && (w.s.loop == Free || (w.s.main == Poll && !w.s.sent))
    requires !MainCan(w.s, Joined(w))
    ensures SomeoneCan(w)
  {
    var j := w.s.config.i;
    assert WorkerOk(w.s, w.workers[j], j);
    if !WorkerCan(w.s, w.workers[j], j < w.blockers) {
      IntrOwnerMoves(w);
    }
  }

  lemma LoopOwnerMoves(w: World)
    requires Inv(w) && w.s.loop.Worker?
    ensures SomeoneCan(w)
  {
    var j := w.s.loop.i;
    assert WorkerOk(w.s, w.workers[j], j);
    assert WorkerCan(w.s, w.workers[j], j < w.blockers);
  }

  lemma BusyWorkerMoves(w: World, i: nat)
    requires Inv(w) && i < |w.workers| && !w.workers[i].Idle? && !w.workers[i].Exited?
    requires !w.s.loop.Worker? && !MainCan(w.s, Joined(w))
    ensures SomeoneCan(w)
  {
    assert WorkerOk(w.s, w.workers[i], i);
    if !WorkerCan(w.s, w.workers[i], i < w.blockers) {
      if w.workers[i].WantCfg? {
        ConfigOwnerMoves(w);
      } else {
        IntrOwnerMoves(w);
      }
    }
  }

  /** Deadlock freedom: unless everyone is home, some thread can move by itself. */
  lemma SomeoneMoves(w: World)
    requires Inv(w) && !Quiet(w)
    ensures SomeoneCan(w)
  {
    hide WorkerOk, WorkerCan;
    if w.s.loop.Worker? {
      LoopOwnerMoves(w);
    } else if !MainCan(w.s, Joined(w)) {
      if w.s.main == IntrWait {
        IntrOwnerMoves(w);
      } else if i: nat :| i < |w.workers| && !w.workers[i].Idle? && !w.workers[i].Exited? {
        BusyWorkerMoves(w, i);
      } else {
        IdleBlockerExits(w);
      }
    }
  }

  lemma IdleBlockerExits(w: World)
    requires w.s.main == Joining && !Joined(w) && w.blockers <= |w.workers|
    requires forall i :: 0 <= i < |w.workers| ==> w.workers[i].Idle? || w.workers[i].Exited?
    ensures SomeoneCan(w)
  {
    var i: nat :| i < w.blockers && i < |w.workers| && w.workers[i] != Exited;
    assert WorkerCan(w.s, w.workers[i], i < w.blockers);
  }

  /** How far a thread is from home if it takes no new work. */
  function MainRank(m: MainPc): nat {
    match m
    case Start => 1
    case Poll => 0
    case Dispatch => 1
    case Callback(cfg) => if cfg then 3 else 2
    case Yielded(cfg) => if cfg then 4 else 3
    case IntrWait => 4
    case IntrBack => 3
    case IntrExit => 2
    case Stopping => 2
    case Joining => 1
    case Ended => 0
  }

  function WorkerRank(p: WorkerPc): nat {
    match p
    case Exited => 0
    case Idle => 1
    case Cfg => 2
    case InLoop(_) => 3
    case HasBoth(_) => 4
    case WantLoop(_) => 5
    case HasIntr(_) => 12
    case WantIntr(_) => 13
    case TryLoop(_) => 14
    case WantCfg => 15
    case Connecting => 16
    case Dropping => 17
    case Backwards => 0
  }

  function SharedRank(s: Shared): nat {
    MainRank(s.main) + (if s.sent then 6 else 0) + (if s.fed then 4 else 0)
  }

  function Sum(ps: seq<WorkerPc>): nat {
    if ps == [] then 0 else WorkerRank(ps[0]) + Sum(ps[1..])
  }

  function Rank(w: World): nat {
    SharedRank(w.s) + Sum(w.workers)
  }

  lemma {:induction false} SumUpdate(ps: seq<WorkerPc>, i: nat, p: WorkerPc)
    requires i < |ps|
    ensures Sum(ps[i := p]) == Sum(ps) - WorkerRank(ps[i]) + WorkerRank(p)
  {
    hide WorkerRank;
    var qs := ps[i := p];
    if i > 0 {
      assert qs[1..] == ps[1..][i - 1 := p];
      SumUpdate(ps[1..], i - 1, p);
    } else {
      assert qs[1..] == ps[1..];
    }
  }

  lemma MainGoesHome(s: Shared, joined: bool) returns (t: Shared)
    requires MainCan(s, joined) && (s.fed ==> s.main != Poll)
    ensures MainMove(s, t, joined) && SharedRank(t) < SharedRank(s)
  {
    match s.main {
      case Start => t := s.(loop := Main, main := Poll);
      case Poll => t := s.(main := Dispatch, sent := false, fed := s.sent);
      case Dispatch =>
        t := if s.fed then s.(fed := false, loop := Free, main := IntrWait) else s.(main := Poll);
      case Callback(cfg) =>
        t := if cfg then s.(config := Free, main := Callback(false)) else s.(main := Dispatch);
      case Yielded(cfg) => t := s.(loop := Main, main := Callback(cfg));
      case IntrWait => t := s.(intr := Main, main := IntrBack);
      case IntrBack => t := s.(loop := Main, main := IntrExit);
      case IntrExit => t := s.(intr := Free, main := Dispatch);
      case Stopping => t := s.(loop := Free, main := Joining);
      case Joining => t := s.(main := Ended);
    }
  }

  lemma WorkerGoesHome(s: Shared, p: WorkerPc, i: nat, blocker: bool) returns (t: Shared, q: WorkerPc)
    requires WorkerCan(s, p, blocker)
    ensures WorkerMove(s, p, t, q, i, blocker)
    ensures SharedRank(t) + WorkerRank(q) < SharedRank(s) + WorkerRank(p)
  {
    t := s;
    match p {
      case Idle => q := Exited;
      case Cfg => q, t := Idle, s.(config := Free);
      case TryLoop(cfg) =>
        if s.loop == Free {
          q, t := InLoop(cfg), s.(loop := Worker(i));
        } else {
          q := WantIntr(cfg);
        }
      case WantIntr(cfg) => q, t := HasIntr(cfg), s.(intr := Worker(i));
      case HasIntr(cfg) => q, t := WantLoop(cfg), s.(sent := true);
      case WantLoop(cfg) => q, t := HasBoth(cfg), s.(loop := Worker(i));
      case HasBoth(cfg) => q, t := InLoop(cfg), s.(intr := Free);
      case InLoop(cfg) => q, t := if cfg then Cfg else Idle, s.(loop := Free);
      case Dropping => q, t := Connecting, s.(loop := Free);
      case Connecting => q := WantCfg;
      case WantCfg => q, t := TryLoop(true), s.(config := Worker(i));
    }
  }

  /** One step closer to rest. */
  lemma GoesHome(w: World) returns (v: World)
    requires Inv(w) && !Quiet(w)
    ensures Next(w, v) && Inv(v) && Rank(v) < Rank(w)
  {
    hide MainMove, WorkerMove, MainCan, WorkerCan, Sum, WorkerRank, SharedRank, WorkerOk, Quiet, Joined;
    SomeoneMoves(w);
    if MainCan(w.s, Joined(w)) {
      var t := MainGoesHome(w.s, Joined(w));
      v := w.(s := t);
      assert MainStep(w, v);
    } else {
      var i: nat :| i < |w.workers| && WorkerCan(w.s, w.workers[i], i < w.blockers);
      var t, q := WorkerGoesHome(w.s, w.workers[i], i, i < w.blockers);
      v := World(t, w.workers[i := q], w.blockers);
      SumUpdate(w.workers, i, q);
      assert WorkerStep(w, v, i);
    }
    NextKeeps(w, v);
  }

  /** Nobody waits for ever for lack of a way out: from every state of every run there is a
      continuation, without new work, in which every thread gets its locks and comes home. */
  lemma {:induction false} ComesToRest(w: World) returns (ws: seq<World>)
    requires Inv(w)
    ensures Run(ws) && ws[0] == w && Quiet(ws[|ws| - 1])
    decreases Rank(w)
  {
    hide Rank, Next, Inv, Quiet;
    if Quiet(w) {
      ws := [w];
    } else {
      var v := GoesHome(w);
      var rest := ComesToRest(v);
      ws := [w] + rest;
      forall k | 0 <= k < |ws| - 1
        ensures Next(ws[k], ws[k + 1])
      {
        assert k > 0 ==> ws[k] == rest[k - 1] && ws[k + 1] == rest[k - 1 + 1];
      }
    }
  }

  // ---- the order of the two calls in pkm_reconnect_all ------------------------------

  /** The same protocol, had `pkm_reconnect_all` called `pkm_block` before it took the config
      lock back (where the loop lock happens to be free). */
  predicate BackwardsMove(s: Shared, p: WorkerPc, t: Shared, q: WorkerPc, i: nat) {
    || (p == Connecting && s.loop == Free && q == Backwards && t == s.(loop := Worker(i)))
    || (p == Backwards && s.config == Free && q == InLoop(true) && t == s.(config := Worker(i)))
  }

  ghost predicate BackwardsNext(w: World, v: World) {
    || Next(w, v)
    || exists i: nat :: i < |w.workers| == |v.workers| && v == World(v.s, w.workers[i := v.workers[i]], w.blockers)
                        && BackwardsMove(w.s, w.workers[i], v.s, v.workers[i], i)
  }

  ghost predicate Stuck(w: World) {
    forall v :: !BackwardsNext(w, v)
  }

  /** With one blocker, which is at p. */
  function With(s: Shared, p: WorkerPc): World {
    World(s, [p], 1)
  }

  ghost predicate BackwardsRun(ws: seq<World>) {
    ws != [] && Init(ws[0]) && forall k :: 0 <= k < |ws| - 1 ==> BackwardsNext(ws[k], ws[k + 1])
  }

  lemma ByWorker(ws: seq<World>, s: Shared, p: WorkerPc, t: Shared, q: WorkerPc) returns (vs: seq<World>)
    requires BackwardsRun(ws) && ws[|ws| - 1] == With(s, p)
    requires WorkerMove(s, p, t, q, 0, true) || BackwardsMove(s, p, t, q, 0)
    ensures BackwardsRun(vs) && vs[|vs| - 1] == With(t, q)
  {
    hide WorkerMove, BackwardsMove;
    var w, v := With(s, p), With(t, q);
    assert v.workers == w.workers[0 := q] && v.workers[0] == q && w.workers[0] == p;
    if WorkerMove(s, p, t, q, 0, true) {
      assert WorkerStep(w, v, 0);
    }
    vs := ws + [v];
  }

  lemma ByMain(ws: seq<World>, s: Shared, t: Shared, p: WorkerPc) returns (vs: seq<World>)
    requires BackwardsRun(ws) && ws[|ws| - 1] == With(s, p)
    requires MainMove(s, t, false) && s.main != Joining
    ensures BackwardsRun(vs) && vs[|vs| - 1] == With(t, p)
  {
    assert MainStep(With(s, p), With(t, p));
    vs := ws + [With(t, p)];
  }

  lemma NobodyMoves(s: Shared)
    requires s.main == Yielded(true) && s.loop == Worker(0) && s.config == Main
    ensures Stuck(With(s, Backwards)) && !Quiet(With(s, Backwards))
  {
  }

  /** A blocker has let go of everything to connect, while the loop was not running yet. */
  lemma BlockerConnects() returns (ws: seq<World>)
    ensures BackwardsRun(ws)
    ensures ws[|ws| - 1] == With(Shared(Free, Free, Free, false, false, Start), Connecting)
  {
    var s0 := Shared(Free, Free, Free, false, false, Start);
    var s1 := Shared(Worker(0), Free, Free, false, false, Start);
    var s2 := Shared(Worker(0), Free, Worker(0), false, false, Start);
    var s3 := Shared(Free, Free, Worker(0), false, false, Start);
    ws := [With(s0, Idle)];
    hide BackwardsRun;
    ws := ByWorker(ws, s0, Idle, s1, Cfg);
    ws := ByWorker(ws, s1, Cfg, s1, TryLoop(true));
    ws := ByWorker(ws, s1, TryLoop(true), s2, InLoop(true));
    ws := ByWorker(ws, s2, InLoop(true), s3, Dropping);
    ws := ByWorker(ws, s3, Dropping, s0, Connecting);
  }

  /** The comment there is right: in that order one blocker and the main thread can block each
      other for good. */
  lemma BackwardsDeadlocks() returns (ws: seq<World>)
    ensures BackwardsRun(ws) && !Quiet(ws[|ws| - 1]) && Stuck(ws[|ws| - 1])
  {
    hide BackwardsRun, Stuck, Quiet, WorkerMove;
    var s0 := Shared(Free, Free, Free, false, false, Start);
    var s4 := Shared(Free, Free, Main, false, false, Poll);
    var s5 := Shared(Free, Free, Main, false, false, Dispatch);
    var s6 := Shared(Main, Free, Main, false, false, Callback(true));
    var s7 := Shared(Main, Free, Free, false, false, Yielded(true));
    var s8 := Shared(Main, Free, Worker(0), false, false, Yielded(true));
    ws := BlockerConnects();
    ws := ByMain(ws, s0, s4, Connecting);
    ws := ByMain(ws, s4, s5, Connecting);
    ws := ByMain(ws, s5, s6, Connecting);
    ws := ByMain(ws, s6, s7, Connecting);
    ws := ByWorker(ws, s7, Connecting, s8, Backwards);
    NobodyMoves(s8);
  }
}
