/** Which relays to use and which tunnels to let go: the selection loops of pkblocker.c and
    pkmanager.c over the table of tunnels. */
module Relays {

  /** struct pk_tunnel: what the two loops look at. A relay with neither name nor address is an
      empty slot. */
  datatype Relay = Relay(hasName: bool, hasAddress: bool, fd: int, changing: bool, wanted: bool, nailedUp: bool,
                         inDns: bool, rejected: bool, lame: bool, fast: bool,
                         priority: int, errors: int, lastPing: int)

  predicate Real(r: Relay) {
    r.hasName && r.hasAddress
  }

  predicate Shunned(r: Relay) {
    r.rejected || r.lame
  }

  /** Fit to be one of the fastest. */
  predicate Eligible(r: Relay) {
    Real(r) && !r.changing && r.priority != 0 && !Shunned(r)
  }

  function Cost(r: Relay): int {
    r.priority + 25 * r.errors
  }

  ghost function FastOnes(rs: seq<Relay>): set<nat> {
    set k: nat | k < |rs| && Real(rs[k]) && rs[k].fast
  }

  /** Only the flags that the choice sets differ, and an incomplete relay is as it was. */
  predicate SameBut(r: Relay, s: Relay) {
    s == r.(wanted := s.wanted, fast := s.fast) && (Real(r) || s == r)
  }

  ghost predicate Rechosen(a: seq<Relay>, b: seq<Relay>) {
    |a| == |b| && forall k :: 0 <= k < |a| ==> SameBut(a[k], b[k])
  }

  /** At most n relays are fast, all eligible; fewer only if there are no more; and each of them
      costs less than any eligible one that was left out, or as much and comes first. */
  ghost predicate Fastest(rs: seq<Relay>, n: nat) {
    && |FastOnes(rs)| <= n
    && (forall k :: 0 <= k < |rs| && Real(rs[k]) && rs[k].fast ==> Eligible(rs[k]))
    && (|FastOnes(rs)| == n || forall k :: 0 <= k < |rs| && Eligible(rs[k]) ==> rs[k].fast)
    && (forall k, j ::
          0 <= k < |rs| && 0 <= j < |rs| && Eligible(rs[k]) && rs[k].fast && Eligible(rs[j]) && !rs[j].fast ==>
          Cost(rs[k]) < Cost(rs[j]) || (Cost(rs[k]) == Cost(rs[j]) && k < j))
  }

  /** Used by the first pass: nailed up or fast, and not shunned. */
  predicate Deserves(r: Relay) {
    (r.nailedUp || r.fast) && !Shunned(r)
  }

  /** How far the choice had to fall back. */
  datatype Level = Normal | AnyGood | AnyLive | Hopeless

  ghost predicate SomeUse(rs: seq<Relay>) {
    exists k :: 0 <= k < |rs| && Real(rs[k]) && (Deserves(rs[k]) || rs[k].inDns)
  }

  ghost predicate SomeGood(rs: seq<Relay>) {
    exists k :: 0 <= k < |rs| && Real(rs[k]) && !Shunned(rs[k])
  }

  ghost predicate SomeLive(rs: seq<Relay>) {
    exists k :: 0 <= k < |rs| && Real(rs[k]) && rs[k].fd > 0
  }

  /** What the wanted flags are, at each level. */
  ghost predicate Wanted(rs: seq<Relay>, level: Level) {
    match level
    case Normal =>
      SomeUse(rs) && forall k :: 0 <= k < |rs| && Real(rs[k]) ==> (rs[k].wanted <==> Deserves(rs[k]))
    case AnyGood =>
      && !SomeUse(rs)
      && exists g :: 0 <= g < |rs| && Real(rs[g]) && !Shunned(rs[g])
                     && forall k :: 0 <= k < |rs| && Real(rs[k]) ==>
                          (rs[k].wanted <==> k == g) && (k < g ==> Shunned(rs[k]))
    case AnyLive =>
      && !SomeUse(rs) && !SomeGood(rs) && SomeLive(rs)
      && forall k :: 0 <= k < |rs| && Real(rs[k]) ==> (rs[k].wanted <==> rs[k].fd > 0)
    case Hopeless =>
      && !SomeUse(rs) && !SomeGood(rs) && !SomeLive(rs)
      && forall k :: 0 <= k < |rs| && Real(rs[k]) ==> !rs[k].wanted
  }

  /** No relay that rejects us or is lame is wanted, unless all are and none is in DNS. */
  lemma ShunnedAreAvoided(rs: seq<Relay>, level: Level, k: nat)
    requires Wanted(rs, level) && k < |rs| && Real(rs[k]) && rs[k].wanted && Shunned(rs[k])
    ensures level == AnyLive && rs[k].fd > 0
    ensures forall j :: 0 <= j < |rs| && Real(rs[j]) ==> Shunned(rs[j]) && !rs[j].inDns
  {
  }

  // ---- the same, flag by flag --------------------------------------------------------

  /** A fast relay is complete, settled, measured, and neither rejects us nor is lame; of the others
      that are so none is cheaper, or as cheap and in front of it, where an error costs as much as 25
      units of priority. */
  lemma FastSays(rs: seq<Relay>, n: nat, k: nat, j: nat)
    requires Fastest(rs, n) && k < |rs| && rs[k].hasName && rs[k].hasAddress && rs[k].fast
    ensures !rs[k].changing && rs[k].priority != 0 && !rs[k].rejected && !rs[k].lame
    ensures j < |rs| && rs[j].hasName && rs[j].hasAddress && !rs[j].changing && !rs[j].fast ==>
              rs[j].priority == 0 || rs[j].rejected || rs[j].lame ||
              rs[k].priority + 25 * rs[k].errors < rs[j].priority + 25 * rs[j].errors ||
              (rs[k].priority + 25 * rs[k].errors == rs[j].priority + 25 * rs[j].errors && k < j)
  {
  }

  /** There are n of them, or else all that could be. */
  lemma FastCount(rs: seq<Relay>, n: nat, fast: set<nat>, j: nat)
    requires Fastest(rs, n)
    requires forall k: nat :: k in fast <==> k < |rs| && rs[k].hasName && rs[k].hasAddress && rs[k].fast
    ensures |fast| <= n
    ensures |fast| < n && j < |rs| && rs[j].hasName && rs[j].hasAddress && !rs[j].changing ==>
              rs[j].priority == 0 || rs[j].rejected || rs[j].lame || rs[j].fast
  {
    assert fast == FastOnes(rs);
  }

  /** Normally a relay is wanted exactly if it is nailed up or fast, and neither rejects us nor is
      lame; that is so when some relay is wanted by this rule or in DNS. */
  lemma NormalSays(rs: seq<Relay>, level: Level, k: nat)
    requires Wanted(rs, level) && k < |rs| && rs[k].hasName && rs[k].hasAddress
    ensures level == Normal ==> (rs[k].wanted <==> (rs[k].nailedUp || rs[k].fast) && !rs[k].rejected && !rs[k].lame)
    ensures ((rs[k].nailedUp || rs[k].fast) && !rs[k].rejected && !rs[k].lame) || rs[k].inDns ==> level == Normal
  {
  }

  lemma NormalNeedsOne(rs: seq<Relay>) returns (k: nat)
    requires Wanted(rs, Normal)
    ensures k < |rs| && rs[k].hasName && rs[k].hasAddress
    ensures ((rs[k].nailedUp || rs[k].fast) && !rs[k].rejected && !rs[k].lame) || rs[k].inDns
  {
    k :| 0 <= k < |rs| && Real(rs[k]) && (Deserves(rs[k]) || rs[k].inDns);
  }

  /** Otherwise the first that neither rejects us nor is lame is wanted, alone; if there is none, all
      that are connected are. */
  lemma FallbackSays(rs: seq<Relay>, level: Level, k: nat)
    requires Wanted(rs, level) && level != Normal && k < |rs| && rs[k].hasName && rs[k].hasAddress
    ensures (forall j :: 0 <= j < |rs| && rs[j].hasName && rs[j].hasAddress ==> rs[j].rejected || rs[j].lame) ==>
              (rs[k].wanted <==> rs[k].fd > 0)
    ensures !rs[k].rejected && !rs[k].lame ==>
              (rs[k].wanted <==>
               forall j :: 0 <= j < k && rs[j].hasName && rs[j].hasAddress ==> rs[j].rejected || rs[j].lame)
    ensures (rs[k].rejected || rs[k].lame) && rs[k].wanted ==>
              forall j :: 0 <= j < |rs| && rs[j].hasName && rs[j].hasAddress ==> rs[j].rejected || rs[j].lame
  {
  }

  lemma AddFast(rs: seq<Relay>, k: nat)
    requires k < |rs| && Real(rs[k]) && !rs[k].fast
    ensures FastOnes(rs[k := rs[k].(fast := true)]) == FastOnes(rs) + {k}
    ensures |FastOnes(rs[k := rs[k].(fast := true)])| == |FastOnes(rs)| + 1
  {
    var qs := rs[k := rs[k].(fast := true)];
    assert forall j: nat :: j in FastOnes(qs) <==> j in FastOnes(rs) + {k};
  }

  class Chooser {
    const fes: array<Relay>
    /** want_spare_frontends */
    const spares: nat

    constructor (relays: array<Relay>, spares: nat)
      ensures fes == relays && this.spares == spares
    {
      fes, this.spares := relays, spares;
    }

    /** The first loop of `pkb_choose_tunnels`. */
    method ClearFlags()
      modifies fes
      ensures Rechosen(old(fes[..]), fes[..])
      ensures forall k :: 0 <= k < fes.Length && Real(fes[k]) ==> !fes[k].fast && !fes[k].wanted
    {
      var k := 0;
      while k < fes.Length
        invariant k <= fes.Length
        invariant forall j :: 0 <= j < fes.Length ==> SameBut(old(fes[j]), fes[j])
        invariant forall j :: k <= j < fes.Length ==> fes[j] == old(fes[j])
        invariant forall j :: 0 <= j < k && Real(fes[j]) ==> !fes[j].fast && !fes[j].wanted
      {
        if fes[k].hasAddress && fes[k].hasName {
          fes[k] := fes[k].(wanted := false, fast := false);
        }
        k := k + 1;
      }
    }

    /** One round of the second: the first of the cheapest eligible relays that are not fast yet. */
    method Cheapest() returns (best: int)
      ensures -1 <= best < fes.Length
      ensures best == -1 ==> forall k :: 0 <= k < fes.Length && Eligible(fes[k]) ==> fes[k].fast
      ensures best >= 0 ==>
                && Eligible(fes[best]) && !fes[best].fast
                && forall k :: 0 <= k < fes.Length && Eligible(fes[k]) && !fes[k].fast ==>
                     Cost(fes[best]) < Cost(fes[k]) || (Cost(fes[best]) == Cost(fes[k]) && best <= k)
    {
      best := -1;
      var high := 1024000;
      var k := 0;
      while k < fes.Length
        invariant k <= fes.Length && -1 <= best < k
        invariant best == -1 ==> forall j :: 0 <= j < k && Eligible(fes[j]) ==> fes[j].fast
        invariant best >= 0 ==>
                    && Eligible(fes[best]) && !fes[best].fast && high == Cost(fes[best])
                    && forall j :: 0 <= j < k && Eligible(fes[j]) && !fes[j].fast ==>
                         high < Cost(fes[j]) || (high == Cost(fes[j]) && best <= j)
      {
        var fe := fes[k];
        if fe.hasName && fe.hasAddress && !fe.changing {
          var prio := fe.priority + 25 * fe.errors;
          if fe.priority != 0 && (best == -1 || high > prio) && !(fe.fast || fe.rejected || fe.lame) {
            best, high := k, prio;
          }
        }
        k := k + 1;
      }
    }

    /** The second loop: the fastest relays, one at a time. */
    method ChooseFastest()
      requires forall k :: 0 <= k < fes.Length && Real(fes[k]) ==> !fes[k].fast && !fes[k].wanted
      modifies fes
      ensures Rechosen(old(fes[..]), fes[..]) && Fastest(fes[..], spares + 1)
      ensures forall k :: 0 <= k < fes.Length && Real(fes[k]) ==> !fes[k].wanted
    {
      var n := 0;
      assert FastOnes(fes[..]) == {};
      while n < spares + 1
        invariant n <= spares + 1
        invariant Rechosen(old(fes[..]), fes[..]) && Fastest(fes[..], n)
        invariant forall k :: 0 <= k < fes.Length && Real(fes[k]) ==> !fes[k].wanted
      {
        var best := Cheapest();
        if best >= 0 {
          ghost var rs := fes[..];
          OneMoreFast(rs, best, n);
          fes[best] := fes[best].(fast := true);
          assert fes[..] == rs[best := rs[best].(fast := true)];
        }
        n := n + 1;
      }
    }

    lemma OneMoreFast(rs: seq<Relay>, best: nat, n: nat)
      requires Fastest(rs, n) && best < |rs| && Eligible(rs[best]) && !rs[best].fast
      requires forall k :: 0 <= k < |rs| && Eligible(rs[k]) && !rs[k].fast ==>
                 Cost(rs[best]) < Cost(rs[k]) || (Cost(rs[best]) == Cost(rs[k]) && best <= k)
      ensures Fastest(rs[best := rs[best].(fast := true)], n + 1)
    {
      AddFast(rs, best);
      var qs := rs[best := rs[best].(fast := true)];
      assert forall k :: 0 <= k < |rs| ==> (Eligible(qs[k]) <==> Eligible(rs[k])) && Cost(qs[k]) == Cost(rs[k]);
    }

    /** What the third loop does to one relay. */
    method Mark(fe: Relay) returns (r: Relay, counts: bool)
      requires Real(fe)
      ensures r == fe.(wanted := Deserves(fe)) && counts == (Deserves(fe) || fe.inDns)
    {
      var wanted := fe.nailedUp || fe.fast;
      if fe.rejected || fe.lame {
        wanted := false;
      }
      r, counts := fe.(wanted := wanted), wanted || fe.inDns;
    }

    /** The third loop: marks what is wanted and counts what there is to use. */
    method MarkWanted() returns (wanted: nat)
      modifies fes
      ensures Rechosen(old(fes[..]), fes[..])
      ensures forall k :: 0 <= k < fes.Length ==> fes[k].fast == old(fes[k].fast)
      ensures forall k :: 0 <= k < fes.Length && Real(fes[k]) ==> (fes[k].wanted <==> Deserves(fes[k]))
      ensures wanted > 0 <==> SomeUse(fes[..])
    {
      wanted := 0;
      var k := 0;
      while k < fes.Length
        invariant k <= fes.Length
        invariant forall j :: 0 <= j < fes.Length ==> SameBut(old(fes[j]), fes[j]) && fes[j].fast == old(fes[j].fast)
        invariant forall j :: k <= j < fes.Length ==> fes[j] == old(fes[j])
        invariant forall j :: 0 <= j < k && Real(fes[j]) ==> (fes[j].wanted <==> Deserves(fes[j]))
        invariant wanted > 0 <==> exists j :: 0 <= j < k && Real(fes[j]) && (Deserves(fes[j]) || fes[j].inDns)
      {
        if fes[k].hasName && fes[k].hasAddress {
          var r, counts := Mark(fes[k]);
          fes[k] := r;
          if counts {
            wanted := wanted + 1;
          }
        }
        k := k + 1;
      }
      assert wanted > 0 ==> SomeUse(fes[..]) by {
        if wanted > 0 {
          var j :| 0 <= j < k && Real(fes[j]) && (Deserves(fes[j]) || fes[j].inDns);
          assert fes[..][j] == fes[j];
        }
      }
    }

    /** The first fallback: the first relay that is not shunned. */
    method WantFirstGood() returns (found: bool)
      requires forall k :: 0 <= k < fes.Length && Real(fes[k]) ==> !fes[k].wanted
      modifies fes
      ensures Rechosen(old(fes[..]), fes[..])
      ensures forall k :: 0 <= k < fes.Length ==> fes[k].fast == old(fes[k].fast)
      ensures !found ==> fes[..] == old(fes[..]) && forall k :: 0 <= k < fes.Length && Real(fes[k]) ==> Shunned(fes[k])
      ensures found ==> exists g :: 0 <= g < fes.Length && Real(fes[g]) && !Shunned(fes[g])
                                    && forall k :: 0 <= k < fes.Length && Real(fes[k]) ==>
                                         (fes[k].wanted <==> k == g) && (k < g ==> Shunned(fes[k]))
    {
      var k := 0;
      while k < fes.Length
        invariant k <= fes.Length && fes[..] == old(fes[..])
        invariant forall j :: 0 <= j < k && Real(fes[j]) ==> Shunned(fes[j])
      {
        if fes[k].hasAddress && fes[k].hasName && !(fes[k].rejected || fes[k].lame) {
          fes[k] := fes[k].(wanted := true);
          return true;
        }
        k := k + 1;
      }
      return false;
    }

    /** The last fallback: every relay we have a connection to. */
    method WantAllLive() returns (wanted: nat)
      requires forall k :: 0 <= k < fes.Length && Real(fes[k]) ==> !fes[k].wanted
      modifies fes
      ensures Rechosen(old(fes[..]), fes[..])
      ensures forall k :: 0 <= k < fes.Length ==> fes[k].fast == old(fes[k].fast)
      ensures forall k :: 0 <= k < fes.Length && Real(fes[k]) ==> (fes[k].wanted <==> fes[k].fd > 0)
      ensures wanted > 0 <==> SomeLive(fes[..])
    {
      wanted := 0;
      var k := 0;
      while k < fes.Length
        invariant k <= fes.Length
        invariant forall j :: 0 <= j < fes.Length ==> SameBut(old(fes[j]), fes[j]) && fes[j].fast == old(fes[j].fast)
        invariant forall j :: k <= j < fes.Length ==> fes[j] == old(fes[j])
        invariant forall j :: 0 <= j < k && Real(fes[j]) ==> (fes[j].wanted <==> fes[j].fd > 0)
        invariant wanted > 0 <==> exists j :: 0 <= j < k && Real(fes[j]) && fes[j].fd > 0
      {
        if fes[k].hasAddress && fes[k].hasName && fes[k].fd > 0 {
          fes[k] := fes[k].(wanted := true);
          wanted := wanted + 1;
        }
        k := k + 1;
      }
      assert wanted > 0 ==> SomeLive(fes[..]) by {
        if wanted > 0 {
          var j :| 0 <= j < k && Real(fes[j]) && fes[j].fd > 0;
          assert fes[..][j] == fes[j];
        }
      }
    }

    lemma RechosenTwice(a: seq<Relay>, b: seq<Relay>, c: seq<Relay>)
      requires Rechosen(a, b) && Rechosen(b, c)
      ensures Rechosen(a, c)
    {
      forall k | 0 <= k < |a|
        ensures SameBut(a[k], c[k])
      {
        assert SameBut(a[k], b[k]) && SameBut(b[k], c[k]);
      }
    }

    /** Changing who is wanted changes neither who is fastest nor who could be used. */
    lemma FlagsApart(a: seq<Relay>, b: seq<Relay>, n: nat)
      requires Rechosen(a, b) && forall k :: 0 <= k < |a| ==> b[k].fast == a[k].fast
      ensures Fastest(a, n) ==> Fastest(b, n)
      ensures SomeUse(a) <==> SomeUse(b)
      ensures SomeGood(a) <==> SomeGood(b)
      ensures SomeLive(a) <==> SomeLive(b)
    {
      forall k | 0 <= k < |a|
        ensures Real(a[k]) == Real(b[k]) && Eligible(a[k]) == Eligible(b[k]) && Cost(a[k]) == Cost(b[k])
        ensures Deserves(a[k]) == Deserves(b[k]) && Shunned(a[k]) == Shunned(b[k])
        ensures a[k].inDns == b[k].inDns && a[k].fd == b[k].fd
      {
        assert SameBut(a[k], b[k]);
      }
      assert FastOnes(a) == FastOnes(b);
    }

    /** `pkb_choose_tunnels` */
    method Choose() returns (ghost level: Level)
      modifies fes
      ensures Rechosen(old(fes[..]), fes[..])
      ensures Fastest(fes[..], spares + 1) && Wanted(fes[..], level)
    {
      hide Fastest, Rechosen;
      ghost var was := fes[..];
      ClearFlags();
      ghost var cleared := fes[..];
      ChooseFastest();
      RechosenTwice(was, cleared, fes[..]);
      ghost var chosen := fes[..];
      var wanted := MarkWanted();
      RechosenTwice(was, chosen, fes[..]);
      FlagsApart(chosen, fes[..], spares + 1);
      level := Normal;
      if wanted > 0 {
        return;
      }
      ghost var marked := fes[..];
      NoneWanted();
      var found := WantFirstGood();
      RechosenTwice(was, marked, fes[..]);
      FlagsApart(marked, fes[..], spares + 1);
      level := AnyGood;
      if found {
        return;
      }
      wanted := WantAllLive();
      RechosenTwice(was, marked, fes[..]);
      FlagsApart(marked, fes[..], spares + 1);
      NoneGood(marked);
      level := if wanted > 0 then AnyLive else Hopeless;
    }

    lemma NoneGood(rs: seq<Relay>)
      requires forall k :: 0 <= k < |rs| && Real(rs[k]) ==> Shunned(rs[k])
      ensures !SomeGood(rs)
    {
    }

    lemma NoneWanted()
      requires !SomeUse(fes[..])
      requires forall k :: 0 <= k < fes.Length && Real(fes[k]) ==> (fes[k].wanted <==> Deserves(fes[k]))
      ensures forall k :: 0 <= k < fes.Length && Real(fes[k]) ==> !fes[k].wanted
    {
      forall k | 0 <= k < fes.Length && Real(fes[k])
        ensures !fes[k].wanted
      {
        assert fes[..][k] == fes[k];
      }
    }
  }
}
