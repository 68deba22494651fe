/** `pkm_disconnect_unused` of pkmanager.c: two passes over the tunnels, the first to see that not
    all of them would go. */
module Disconnect {
  import opened Relays

  /** A backend connection: its socket and its tunnel. */
  datatype Stream = Stream(fd: int, tunnel: nat)

  /** Counted as live. */
  predicate Counted(r: Relay) {
    r.hasName && !r.changing && r.fd > 0
  }

  ghost predicate Carries(streams: seq<Stream>, k: nat) {
    exists j :: 0 <= j < |streams| && streams[j].fd > 0 && streams[j].tunnel == k
  }

  /** To be let go: live, not wanted, not in DNS, idle (only pings lately) and without streams. */
  ghost predicate Unused(r: Relay, streams: seq<Stream>, k: nat, window: int) {
    Counted(r) && !r.wanted && !r.inDns && r.lastPing >= window && !Carries(streams, k)
  }

  ghost function CountedUpTo(rs: seq<Relay>, n: nat): nat
    requires n <= |rs|
  {
    if n == 0 then 0 else CountedUpTo(rs, n - 1) + if Counted(rs[n - 1]) then 1 else 0
  }

  ghost function UnusedUpTo(rs: seq<Relay>, streams: seq<Stream>, window: int, n: nat): (c: nat)
    requires n <= |rs|
    ensures c <= CountedUpTo(rs, n)
  {
    if n == 0 then 0
    else UnusedUpTo(rs, streams, window, n - 1) + if Unused(rs[n - 1], streams, n - 1, window) then 1 else 0
  }

  /** The tunnel after it was closed. */
  function Closed(r: Relay): Relay {
    r.(fd := -1, changing := false)
  }

  /** The table when the unused among the first n tunnels are closed. */
  ghost predicate ClosedUpTo(a: seq<Relay>, b: seq<Relay>, streams: seq<Stream>, window: int, n: nat) {
    && |a| == |b|
    && forall k :: 0 <= k < |a| ==>
         b[k] == if k < n && Unused(a[k], streams, k, window) then Closed(a[k]) else a[k]
  }

  /** Closing the unused leaves the rest live. */
  lemma {:induction false} LeftOver(a: seq<Relay>, b: seq<Relay>, streams: seq<Stream>, window: int, n: nat)
    requires ClosedUpTo(a, b, streams, window, |a|) && n <= |a|
    ensures CountedUpTo(b, n) == CountedUpTo(a, n) - UnusedUpTo(a, streams, window, n)
  {
    if n > 0 {
      LeftOver(a, b, streams, window, n - 1);
      assert b[n - 1] == if Unused(a[n - 1], streams, n - 1, window) then Closed(a[n - 1]) else a[n - 1];
    }
  }

  // ---- the same, flag by flag --------------------------------------------------------

  /** A tunnel is closed if and only if it is up, nobody wants it, it is not in DNS, there were only
      pings since the window began, and no stream with a socket uses it; every other stays. */
  lemma ClosedSays(a: seq<Relay>, b: seq<Relay>, streams: seq<Stream>, window: int, k: nat)
    requires ClosedUpTo(a, b, streams, window, |a|) && k < |a|
    ensures |b| == |a|
    ensures var used := exists j :: 0 <= j < |streams| && streams[j].fd > 0 && streams[j].tunnel == k;
            if a[k].hasName && !a[k].changing && a[k].fd > 0 && !a[k].wanted && !a[k].inDns && a[k].lastPing >= window
               && !used
            then b[k] == a[k].(fd := -1) else b[k] == a[k]
  {
  }

  /** How many are up. */
  lemma {:induction false} CountedIs(rs: seq<Relay>, n: nat, up: set<nat>)
    requires n <= |rs|
    requires forall k: nat :: k in up <==> k < n && rs[k].hasName && !rs[k].changing && rs[k].fd > 0
    ensures CountedUpTo(rs, n) == |up|
  {
    if n == 0 {
      assert forall k: nat :: k !in up;
      assert up == {};
    } else {
      var fewer, live := up - {n - 1}, Counted(rs[n - 1]);
      assert live <==> n - 1 in up;
      CountedIs(rs, n - 1, fewer);
      hide Counted, CountedUpTo;
      if live {
        assert up == fewer + {n - 1};
      } else {
        assert up == fewer;
      }
      CountOne(rs, n);
    }
  }

  lemma CountOne(rs: seq<Relay>, n: nat)
    requires 0 < n <= |rs|
    ensures CountedUpTo(rs, n) == CountedUpTo(rs, n - 1) + if Counted(rs[n - 1]) then 1 else 0
  {
  }

  class Disconnector {
    const fes: array<Relay>
    const streams: array<Stream>
    /** pk_state.live_tunnels */
    var liveTunnels: int

    constructor (fes: array<Relay>, streams: array<Stream>)
      ensures this.fes == fes && this.streams == streams
    {
      this.fes, this.streams, liveTunnels := fes, streams, 0;
    }

    /** The loop that looks for a live stream on tunnel k. */
    method HasStream(k: nat) returns (found: bool)
      ensures found <==> Carries(streams[..], k)
    {
      var j := 0;
      while j < streams.Length
        invariant j <= streams.Length
        invariant forall i :: 0 <= i < j ==> !(streams[i].fd > 0 && streams[i].tunnel == k)
      {
        if streams[j].fd > 0 && streams[j].tunnel == k {
          assert streams[..][j] == streams[j];
          return true;
        }
        j := j + 1;
      }
      return false;
    }

    /** The tests on one tunnel, in their order. */
    method Judge(k: nat, window: int) returns (counted: bool, unused: bool)
      requires k < fes.Length
      ensures counted == Counted(fes[k]) && unused == Unused(fes[k], streams[..], k, window)
    {
      counted, unused := false, false;
      var fe := fes[k];
      if !fe.hasName || fe.changing || fe.fd <= 0 {
        return;
      }
      counted := true;
      if fe.wanted || fe.inDns || fe.lastPing < window {
        return;
      }
      var carries := HasStream(k);
      unused := !carries;
    }

    /** One pass; only the second closes anything. */
    method Pass(second: bool, window: int) returns (live: nat, disconnect: nat, disconnected: nat)
      modifies fes
      ensures live == CountedUpTo(old(fes[..]), fes.Length)
      ensures disconnect == if second then 0 else UnusedUpTo(old(fes[..]), streams[..], window, fes.Length)
      ensures disconnected == if second then UnusedUpTo(old(fes[..]), streams[..], window, fes.Length) else 0
      ensures ClosedUpTo(old(fes[..]), fes[..], streams[..], window, if second then fes.Length else 0)
    {
      hide Unused;
      ghost var was := fes[..];
      live, disconnect, disconnected := 0, 0, 0;
      var k := 0;
      while k < fes.Length
        invariant k <= fes.Length
        invariant live == CountedUpTo(was, k)
        invariant disconnect == if second then 0 else UnusedUpTo(was, streams[..], window, k)
        invariant disconnected == if second then UnusedUpTo(was, streams[..], window, k) else 0
        invariant ClosedUpTo(was, fes[..], streams[..], window, if second then k else 0)
      {
        assert fes[k] == was[k];
        var counted, unused := Judge(k, window);
        if counted {
          live := live + 1;
        }
        if unused {
          disconnect := disconnect + 1;
          if second && disconnect > 0 {
            fes[k] := fes[k].(fd := -1, changing := false);
            disconnected := disconnected + 1;
            disconnect := 0;
          }
        }
        k := k + 1;
      }
    }

    /** `pkm_disconnect_unused`: closes the unused tunnels if some live one is not unused, else
        none; so that a live tunnel remains if there was one, and the recorded count is right. No
        tunnel that is wanted, in DNS, carrying a stream or changing is touched. */
    method DisconnectUnused(window: int) returns (disconnected: nat)
      modifies this, fes
      ensures var all := CountedUpTo(old(fes[..]), fes.Length);
              var unused := UnusedUpTo(old(fes[..]), streams[..], window, fes.Length);
              && ClosedUpTo(old(fes[..]), fes[..], streams[..], window, if unused < all then fes.Length else 0)
              && disconnected == (if unused < all then unused else 0)
              && liveTunnels == CountedUpTo(fes[..], fes.Length) == all - disconnected
              && (all > 0 ==> liveTunnels > 0)
      ensures forall k :: 0 <= k < fes.Length ==>
                var r := old(fes[..])[k];
                r.wanted || r.inDns || r.changing || Carries(streams[..], k) ==> fes[k] == r
    {
      ghost var was := fes[..];
      var live, disconnect;
      live, disconnect, disconnected := Pass(false, window);
      assert fes[..] == was;
      if disconnect < live {
        live, disconnect, disconnected := Pass(true, window);
        LeftOver(was, fes[..], streams[..], window, fes.Length);
      }
      liveTunnels := live - disconnected;
    }
  }
}
