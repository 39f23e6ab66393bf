/** The hazard scoreboard of the IF stage: how far apart it keeps packets, and when exactly it admits
    each of them while one is always waiting. */
module Scoreboard {
  import opened Words
  import opened DataStruct
  import opened PacketPipeline

  // ----- Any offers -----

  /** The shadows before tick t, when the port's front is offers(t). An empty port leaves them alone. */
  function ShadowsAt(offers: nat -> Option<Packet>, t: nat): Shadows {
    if t == 0 then Shadows(None, None)
    else if offers(t - 1).None? then ShadowsAt(offers, t - 1)
    else NextShadows(ShadowsAt(offers, t - 1), offers(t - 1).value)
  }

  predicate Admits(offers: nat -> Option<Packet>, t: nat) {
    offers(t).Some? && !Stalls(ShadowsAt(offers, t), offers(t).value)
  }

  /** A packet admitted in the last two ticks is in a shadow register. */
  lemma AdmittedIsShadowed(offers: nat -> Option<Packet>, u: nat, t: nat)
    requires Admits(offers, u) && u < t <= u + 2
    ensures ShadowsAt(offers, t).exe == offers(u) || ShadowsAt(offers, t).wb == offers(u)
  {
    hide DependsOn;
    assert ShadowsAt(offers, u + 1).exe == offers(u);
  }

  /** A packet that depends on an older one follows it by at least three ticks, and one behind a taken
      branch by at least two, whatever the port offers in between. */
  lemma AdmissionDistance(offers: nat -> Option<Packet>, u: nat, t: nat)
    requires Admits(offers, u) && Admits(offers, t) && u < t
    ensures DependsOn(offers(t).value, offers(u).value) ==> t >= u + 3
    ensures offers(u).value.taken ==> t >= u + 2
  {
    hide DependsOn;
    if t <= u + 2 { AdmittedIsShadowed(offers, u, t); }
    assert ShadowsAt(offers, u + 1).exe == offers(u);
  }

  // ----- A packet always waiting -----

  /** IF after k ticks in each of which the next of ps was waiting: how many it admitted, its shadows. */
  datatype Waiting = Waiting(n: nat, sh: Shadows)

  function WaitingAt(ps: seq<Packet>, k: nat): (w: Waiting)
    ensures w.n <= |ps|
  {
    if k == 0 then Waiting(0, Shadows(None, None))
    else NextWaiting(ps, WaitingAt(ps, k - 1))
  }

  function NextWaiting(ps: seq<Packet>, w: Waiting): (w': Waiting)
    requires w.n <= |ps|
    ensures w'.n <= |ps|
  {
    if w.n == |ps| then w
    else Waiting(if Stalls(w.sh, ps[w.n]) then w.n else w.n + 1, NextShadows(w.sh, ps[w.n]))
  }

  /** The law: one tick behind the previous packet, two behind a taken one, and three behind every packet
      it depends on. */
  function Admit(ps: seq<Packet>, i: nat): int
    requires i < |ps|
    decreases i, i + 1
  {
    if i == 0 then 0
    else Max(Admit(ps, i - 1) + (if ps[i - 1].taken then 2 else 1), DataBound(ps, i, i))
  }

  /** Earliest admission of i that the first j packets allow. */
  function DataBound(ps: seq<Packet>, i: nat, j: nat): int
    requires j <= i < |ps|
    decreases i, j
  {
    if j == 0 then 0
    else Max(DataBound(ps, i, j - 1), if DependsOn(ps[i], ps[j - 1]) then Admit(ps, j - 1) + 3 else 0)
  }

  lemma {:induction false} BoundCovers(ps: seq<Packet>, i: nat, j: nat, k: nat)
    requires k < j <= i < |ps| && DependsOn(ps[i], ps[k])
    ensures DataBound(ps, i, j) >= Admit(ps, k) + 3
  {
    hide DependsOn, Admit;
    if k < j - 1 { BoundCovers(ps, i, j - 1, k); }
  }

  lemma {:induction false} BoundIsLeast(ps: seq<Packet>, i: nat, j: nat, bound: int)
    requires j <= i < |ps| && bound >= 0
    requires forall k: nat :: k < j && DependsOn(ps[i], ps[k]) ==> Admit(ps, k) + 3 <= bound
    ensures DataBound(ps, i, j) <= bound
  {
    hide DependsOn, Admit;
    if j > 0 { BoundIsLeast(ps, i, j - 1, bound); }
  }

  lemma {:induction false} AdmitIncreases(ps: seq<Packet>, i: nat, j: nat)
    requires i < j < |ps|
    ensures 0 <= Admit(ps, i) < Admit(ps, j)
    decreases j
  {
    hide DataBound;
    if i < j - 1 {
      AdmitIncreases(ps, i, j - 1);
    } else if i > 0 {
      AdmitIncreases(ps, i - 1, i);
    }
  }

  lemma AdmitNonNegative(ps: seq<Packet>, i: nat)
    requires i < |ps|
    ensures Admit(ps, i) >= 0
  {
    hide Admit;
    if i > 0 { AdmitIncreases(ps, 0, i); } else { AdmitFirst(ps); }
  }

  /** Slot holds the packet admitted in tick c, if any of the first n was. */
  ghost predicate ShadowOk(ps: seq<Packet>, n: nat, slot: Option<Packet>, c: int)
    requires n <= |ps|
  {
    && (forall j: nat :: j < n && Admit(ps, j) == c ==> slot == Some(ps[j]))
    && (slot.Some? ==> exists j: nat :: j < n && Admit(ps, j) == c && slot == Some(ps[j]))
  }

  ghost predicate LawHolds(ps: seq<Packet>, k: nat) {
    var w := WaitingAt(ps, k);
    && (forall i: nat :: i < w.n ==> Admit(ps, i) < k)
    && (w.n < |ps| ==>
          && k <= Admit(ps, w.n)
          && ShadowOk(ps, w.n, w.sh.exe, k - 1) && ShadowOk(ps, w.n, w.sh.wb, k - 2))
  }

  lemma AdmitBehind(ps: seq<Packet>, i: nat)
    requires 0 < i < |ps|
    ensures Admit(ps, i) == Max(Admit(ps, i - 1) + (if ps[i - 1].taken then 2 else 1), DataBound(ps, i, i))
  {
  }

  /** A packet is not due while the one before it, if taken, or one it depends on is in EXE. */
  lemma ExeDelays(ps: seq<Packet>, k: nat, n: nat, j: nat)
    requires j < n < |ps| && Admit(ps, j) == k - 1 && Admit(ps, n - 1) < k
    requires DependsOn(ps[n], ps[j]) || ps[j].taken
    ensures k < Admit(ps, n)
  {
    hide DependsOn, Admit, DataBound;
    AdmitBehind(ps, n);
    if j < n - 1 { AdmitIncreases(ps, j, n - 1); }
    if DependsOn(ps[n], ps[j]) { BoundCovers(ps, n, n, j); }
  }

  lemma WbDelays(ps: seq<Packet>, k: nat, n: nat, j: nat)
    requires j < n < |ps| && Admit(ps, j) == k - 2 && DependsOn(ps[n], ps[j])
    ensures k < Admit(ps, n)
  {
    hide DependsOn, Admit, DataBound;
    AdmitBehind(ps, n);
    BoundCovers(ps, n, n, j);
  }

  lemma StallDelays(ps: seq<Packet>, k: nat, n: nat, sh: Shadows)
    requires n < |ps| && ShadowOk(ps, n, sh.exe, k - 1) && ShadowOk(ps, n, sh.wb, k - 2) && Stalls(sh, ps[n])
    requires forall i: nat :: i < n ==> Admit(ps, i) < k
    ensures k < Admit(ps, n)
  {
    hide DependsOn, Admit;
    if sh.exe.Some? && (DependsOn(ps[n], sh.exe.value) || sh.exe.value.taken) {
      var j: nat :| j < n && Admit(ps, j) == k - 1 && sh.exe == Some(ps[j]);
      ExeDelays(ps, k, n, j);
    } else {
      var j: nat :| j < n && Admit(ps, j) == k - 2 && sh.wb == Some(ps[j]);
      WbDelays(ps, k, n, j);
    }
  }

  lemma AllowsAll(ps: seq<Packet>, k: nat, n: nat)
    requires n < |ps|
    requires n > 0 ==> Admit(ps, n - 1) + (if ps[n - 1].taken then 2 else 1) <= k
    requires forall j: nat :: j < n && DependsOn(ps[n], ps[j]) ==> Admit(ps, j) + 3 <= k
    ensures Admit(ps, n) <= k
  {
    hide DependsOn, Admit, DataBound;
    if n > 0 {
      BoundIsLeast(ps, n, n, k);
      AdmitBehind(ps, n);
    } else {
      AdmitFirst(ps);
    }
  }

  lemma NoStallIsDue(ps: seq<Packet>, k: nat, n: nat, sh: Shadows)
    requires n < |ps| && ShadowOk(ps, n, sh.exe, k - 1) && ShadowOk(ps, n, sh.wb, k - 2) && !Stalls(sh, ps[n])
    requires forall i: nat :: i < n ==> Admit(ps, i) < k
    ensures Admit(ps, n) <= k
  {
    hide DependsOn, Admit;
    forall j: nat | j < n && DependsOn(ps[n], ps[j]) ensures Admit(ps, j) + 3 <= k {
      assert Admit(ps, j) != k - 1 && Admit(ps, j) != k - 2;
    }
    AllowsAll(ps, k, n);
  }

  lemma AdmitFirst(ps: seq<Packet>)
    requires ps != []
    ensures Admit(ps, 0) == 0
  {
  }

  /** IF stalls a waiting packet exactly until its tick has come. */
  lemma StallsUntilDue(ps: seq<Packet>, k: nat)
    requires LawHolds(ps, k) && WaitingAt(ps, k).n < |ps|
    ensures var w := WaitingAt(ps, k);
            Stalls(w.sh, ps[w.n]) <==> k < Admit(ps, w.n)
  {
    hide Stalls, Admit, WaitingAt, ShadowOk;
    var w := WaitingAt(ps, k);
    if Stalls(w.sh, ps[w.n]) {
      StallDelays(ps, k, w.n, w.sh);
    } else {
      NoStallIsDue(ps, k, w.n, w.sh);
    }
  }

  lemma LawStep(ps: seq<Packet>, k: nat)
    requires LawHolds(ps, k)
    ensures LawHolds(ps, k + 1)
  {
    hide DependsOn, Admit, Stalls;
    var w := WaitingAt(ps, k);
    if w.n < |ps| {
      StallsUntilDue(ps, k);
      forall j: nat | w.n < j < |ps| ensures Admit(ps, w.n) < Admit(ps, j) { AdmitIncreases(ps, w.n, j); }
    }
  }

  lemma {:induction false} LawAlways(ps: seq<Packet>, k: nat)
    ensures LawHolds(ps, k)
  {
    hide LawHolds;
    if k == 0 {
      LawAtStart(ps);
    } else {
      LawAlways(ps, k - 1);
      LawStep(ps, k - 1);
    }
  }

  lemma LawAtStart(ps: seq<Packet>)
    ensures LawHolds(ps, 0)
  {
    if ps != [] { assert Admit(ps, 0) == 0; }
  }

  /** The scoreboard law: with a packet always waiting, packet i is admitted in tick k if and only if the
      law says k; so packets go out in order, none lost and none twice. */
  lemma AdmissionLaw(ps: seq<Packet>, k: nat, i: nat)
    requires i < |ps|
    ensures (WaitingAt(ps, k).n == i && WaitingAt(ps, k + 1).n == i + 1) <==> k == Admit(ps, i)
    ensures WaitingAt(ps, k).n > i <==> Admit(ps, i) < k
  {
    hide Stalls, DependsOn, Admit, WaitingAt;
    LawAlways(ps, k);
    LawAlways(ps, k + 1);
    var n := WaitingAt(ps, k).n;
    assert n < |ps| && n < i ==> Admit(ps, n) < Admit(ps, i) by { if n < i { AdmitIncreases(ps, n, i); } }
    assert n > 0 && i < n - 1 ==> Admit(ps, i) < Admit(ps, n - 1) by { if i < n - 1 { AdmitIncreases(ps, i, n - 1); } }
    if n < |ps| { StallsUntilDue(ps, k); }
    NextCount(ps, k);
  }

  lemma NextCount(ps: seq<Packet>, k: nat)
    ensures var w := WaitingAt(ps, k);
            WaitingAt(ps, k + 1).n == if w.n < |ps| && !Stalls(w.sh, ps[w.n]) then w.n + 1 else w.n
  {
    hide Stalls;
  }
}
