/**
 The timers of one connection: rekey, dead peer detection (DPD) and keepalive.
 The struct is embedded by value in the tunnel state, so it is a datatype here and the
 operations that update it through a pointer return its new value.
 */
module Keepalive {
  import opened Common

  datatype RekeyMethod = RekeyNone | RekeyTunnel | RekeySsl

  datatype Action = KaNone | KaDpd | KaDpdDead | KaKeepalive | KaRekey

  datatype Times = Times(
    dpd: int, keepalive: int, rekey: int, rekeyMethod: RekeyMethod,
    lastRekey: int, lastTx: int, lastRx: int, lastDpd: int)
  {
    predicate Rekeys() { rekeyMethod != RekeyNone }

    function RekeyDeadline(): int { lastRekey + rekey }

    /** A probe is due one period after the last traffic, or half a period after an unanswered probe. */
    function ProbeDeadline(): int {
      if lastDpd > lastRx then lastDpd + Half(dpd) else lastRx + dpd
    }

    /** The last second at which the peer still counts as alive. */
    function DeathDeadline(): int { lastRx + 2 * dpd }

    function KeepaliveDeadline(): int { lastTx + keepalive }
  }

  // ---------- What the two timer checks promise ----------

  function RekeyDue(t: Times): Option<int> { if t.Rekeys() then Some(t.RekeyDeadline()) else None }
  function ProbeDue(t: Times): Option<int> { if t.dpd != 0 then Some(t.ProbeDeadline()) else None }
  function DeathDue(t: Times): Option<int> { if t.dpd != 0 then Some(t.DeathDeadline()) else None }
  function KeepaliveDue(t: Times): Option<int> { if t.keepalive != 0 then Some(t.KeepaliveDeadline()) else None }

  predicate Arrived(now: int, due: Option<int>) { due.Some? && now >= due.value }

  /** A timeout in milliseconds cut down to a deadline in seconds, if there is one. */
  function Cut(timeout: int, now: int, due: Option<int>): (t: int)
  {
    if due.Some? && (due.value - now) * 1000 < timeout then (due.value - now) * 1000 else timeout
  }

  /**
   The periodic check: the first of rekey, dead peer, probe and keepalive that is due decides;
   rekey and probe record the time; the timeout is cut to every deadline passed over.
   */
  ghost predicate PeriodicCheck(t: Times, now: int, timeout: int, a: Action, t': Times, timeout': int)
  {
    var rekeyDue := Arrived(now, RekeyDue(t));
    var dead := t.dpd != 0 && now > t.DeathDeadline();
    var probeDue := Arrived(now, ProbeDue(t));
    var keepaliveDue := Arrived(now, KeepaliveDue(t));
    && (a == KaRekey <==> rekeyDue)
    && (a == KaDpdDead <==> !rekeyDue && dead)
    && (a == KaDpd <==> !rekeyDue && !dead && probeDue)
    && (a == KaKeepalive <==> !rekeyDue && !dead && !probeDue && keepaliveDue)
    && t' == (match a case KaRekey => t.(lastRekey := now) case KaDpd => t.(lastDpd := now) case _ => t)
    && timeout' == (match a
                    case KaRekey => timeout
                    case KaDpdDead => Cut(timeout, now, RekeyDue(t))
                    case KaDpd => Cut(timeout, now, RekeyDue(t))
                    case KaKeepalive => Cut(Cut(timeout, now, RekeyDue(t)), now, ProbeDue(t))
                    case KaNone => Cut(Cut(Cut(timeout, now, RekeyDue(t)), now, ProbeDue(t)), now, KeepaliveDue(t)))
  }

  /** The check made while a write is stalled: rekey, or death of the peer (here already at the deadline). */
  ghost predicate StalledCheck(t: Times, now: int, timeout: int, a: Action, t': Times, timeout': int)
  {
    var rekeyDue := Arrived(now, RekeyDue(t));
    var dead := Arrived(now, DeathDue(t));
    && a in {KaRekey, KaDpdDead, KaNone}
    && (a == KaRekey <==> rekeyDue)
    && (a == KaDpdDead <==> !rekeyDue && dead)
    && t' == (if a == KaRekey then t.(lastRekey := now) else t)
    && timeout' == (match a
                    case KaRekey => timeout
                    case KaDpdDead => Cut(timeout, now, RekeyDue(t))
                    case _ => Cut(Cut(timeout, now, RekeyDue(t)), now, DeathDue(t)))
  }

  // ---------- The operations ----------

  method CheckDeadline(timeout: int, now: int, due: int) returns (arrived: bool, timeout': int)
    ensures arrived <==> now >= due
    ensures timeout' == if arrived then timeout else Cut(timeout, now, Some(due))
  {
    timeout' := timeout;
    if now >= due {
      return true, timeout;
    }
    if timeout > (due - now) * 1000 {
      timeout' := (due - now) * 1000;
    }
    return false, timeout';
  }

  method KaStalledAction(ka: Times, now: int, timeout: int) returns (a: Action, ka': Times, timeout': int)
    ensures StalledCheck(ka, now, timeout, a, ka', timeout') && (a == KaRekey ==> ka'.Rekeys())
  {
    var arrived := false;
    timeout', ka' := timeout, ka;
    if ka.rekeyMethod != RekeyNone {
      arrived, timeout' := CheckDeadline(timeout', now, ka.lastRekey + ka.rekey);
      if arrived {
        return KaRekey, ka.(lastRekey := now), timeout';
      }
    }
    if ka.dpd != 0 {
      arrived, timeout' := CheckDeadline(timeout', now, ka.lastRx + 2 * ka.dpd);
      if arrived {
        return KaDpdDead, ka, timeout';
      }
    }
    return KaNone, ka, timeout';
  }

  method KeepaliveAction(ka: Times, now: int, timeout: int) returns (a: Action, ka': Times, timeout': int)
    ensures PeriodicCheck(ka, now, timeout, a, ka', timeout')
  {
    var arrived := false;
    timeout', ka' := timeout, ka;
    if ka.rekeyMethod != RekeyNone {
      arrived, timeout' := CheckDeadline(timeout', now, ka.lastRekey + ka.rekey);
      if arrived {
        return KaRekey, ka.(lastRekey := now), timeout';
      }
    }
    if ka.dpd != 0 {
      var due := ka.lastRx + ka.dpd;
      var overdue := ka.lastRx + 2 * ka.dpd;
      if now > overdue {
        return KaDpdDead, ka, timeout';
      }
      if ka.lastDpd > ka.lastRx {
        due := ka.lastDpd + Half(ka.dpd);
      }
      arrived, timeout' := CheckDeadline(timeout', now, due);
      if arrived {
        return KaDpd, ka.(lastDpd := now), timeout';
      }
    }
    if ka.keepalive != 0 {
      arrived, timeout' := CheckDeadline(timeout', now, ka.lastTx + ka.keepalive);
      if arrived {
        return KaKeepalive, ka, timeout';
      }
    }
    return KaNone, ka, timeout';
  }

  // ---------- Sleeping on the returned timeout ----------

  /** A KA_NONE timeout never lets the caller sleep past a rekey, a probe or a keepalive, nor asks it to wake in the past. */
  lemma NeverSleepsPastADeadline(t: Times, now: int, timeout: int, t': Times, timeout': int, wake: int)
    requires PeriodicCheck(t, now, timeout, KaNone, t', timeout')
    requires (wake - now) * 1000 <= timeout'
    ensures t.rekeyMethod != RekeyNone ==> wake <= t.lastRekey + t.rekey
    ensures t.dpd != 0 ==> wake <= t.ProbeDeadline()
    ensures t.keepalive != 0 ==> wake <= t.lastTx + t.keepalive
    ensures timeout > 0 ==> timeout' > 0
  {
  }

  /** The periodic check in the timers' own fields. */
  lemma PeriodicFields(t: Times, now: int, timeout: int, a: Action, t': Times, timeout': int)
    requires PeriodicCheck(t, now, timeout, a, t', timeout')
    ensures a == KaRekey <==> t.rekeyMethod != RekeyNone && now >= t.lastRekey + t.rekey
    ensures a == KaDpdDead <==> a != KaRekey && t.dpd != 0 && now > t.lastRx + 2 * t.dpd
    ensures var probe := if t.lastDpd > t.lastRx then t.lastDpd + Half(t.dpd) else t.lastRx + t.dpd;
      a == KaDpd <==> a !in {KaRekey, KaDpdDead} && t.dpd != 0 && now >= probe
    ensures a == KaKeepalive <==> a !in {KaRekey, KaDpdDead, KaDpd} && t.keepalive != 0 && now >= t.lastTx + t.keepalive
    ensures t'.lastRekey == (if a == KaRekey then now else t.lastRekey) && t'.lastDpd == (if a == KaDpd then now else t.lastDpd)
    ensures t' == t.(lastRekey := t'.lastRekey, lastDpd := t'.lastDpd)
  {}

  /** With nothing to do, the timeout becomes the least of itself and the times left to the enabled deadlines. */
  lemma LeastTimeout(t: Times, now: int, timeout: int, t': Times, timeout': int)
    requires PeriodicCheck(t, now, timeout, KaNone, t', timeout')
    ensures var probe := if t.lastDpd > t.lastRx then t.lastDpd + Half(t.dpd) else t.lastRx + t.dpd;
      && timeout' <= timeout
      && (t.rekeyMethod != RekeyNone ==> timeout' <= 1000 * (t.lastRekey + t.rekey - now))
      && (t.dpd != 0 ==> timeout' <= 1000 * (probe - now))
      && (t.keepalive != 0 ==> timeout' <= 1000 * (t.lastTx + t.keepalive - now))
      && (|| timeout' == timeout
          || (t.rekeyMethod != RekeyNone && timeout' == 1000 * (t.lastRekey + t.rekey - now))
          || (t.dpd != 0 && timeout' == 1000 * (probe - now))
          || (t.keepalive != 0 && timeout' == 1000 * (t.lastTx + t.keepalive - now)))
  {}

  /** The check of a stalled write in the timers' own fields; the peer is given up at the deadline already. */
  lemma StalledFields(t: Times, now: int, timeout: int, a: Action, t': Times, timeout': int)
    requires StalledCheck(t, now, timeout, a, t', timeout')
    ensures a == KaRekey <==> t.rekeyMethod != RekeyNone && now >= t.lastRekey + t.rekey
    ensures a == KaDpdDead <==> a != KaRekey && t.dpd != 0 && now >= t.lastRx + 2 * t.dpd
    ensures a == KaNone ==>
      && timeout' <= timeout
      && (t.rekeyMethod != RekeyNone ==> timeout' <= 1000 * (t.lastRekey + t.rekey - now))
      && (t.dpd != 0 ==> timeout' <= 1000 * (t.lastRx + 2 * t.dpd - now))
      && (|| timeout' == timeout
          || (t.rekeyMethod != RekeyNone && timeout' == 1000 * (t.lastRekey + t.rekey - now))
          || (t.dpd != 0 && timeout' == 1000 * (t.lastRx + 2 * t.dpd - now)))
  {}

  /** At one clock reading a probe does not ask for another probe exactly when the period is two seconds or more. */
  lemma ProbeNotRepeatedIffPeriodAtLeastTwo(t: Times, now: int, tin: int, t': Times, tout: int, tin2: int, a: Action, t'': Times, tout2: int)
    requires t.dpd > 0
    requires PeriodicCheck(t, now, tin, KaDpd, t', tout)
    requires PeriodicCheck(t', now, tin2, a, t'', tout2)
    ensures a != KaDpd <==> t.dpd >= 2
  {
  }

  // ---------- A silent peer ----------

  /** One call of the periodic check as the caller sees it. */
  datatype Call = Call(now: int, timeout: int, before: Times, action: Action, after: Times, timeout': int)

  /**
   Successive checks during which nothing is received after second `r`. The caller comes back
   no later than the timeout it was given, or, when it had something to do, within half a period.
   Sending in between may move `lastTx`, and a rekey or keepalive setting may differ from call to call.
   */
  ghost predicate SilentRun(calls: seq<Call>, r: int, d: int)
  {
    && d >= 2
    && (forall i :: 0 <= i < |calls| ==>
          var c := calls[i];
          && PeriodicCheck(c.before, c.now, c.timeout, c.action, c.after, c.timeout')
          && c.before.dpd == d && c.before.lastRx == r && c.now >= r)
    && (|calls| > 0 ==> calls[0].before.lastDpd <= r && calls[0].now <= r + d)
    && (forall i :: 0 <= i < |calls| - 1 ==>
          var c, n := calls[i], calls[i + 1];
          && c.now <= n.now
          && n.before.lastDpd == c.after.lastDpd
          && (if c.action == KaNone then (n.now - c.now) * 1000 <= c.timeout' else n.now - c.now <= d / 2))
  }

  /** The seconds at which the first `n` calls asked for probes. */
  function Probes(calls: seq<Call>, n: nat): (ps: seq<int>)
    requires n <= |calls|
  {
    if n == 0 then []
    else Probes(calls, n - 1) + (if calls[n - 1].action == KaDpd then [calls[n - 1].now] else [])
  }

  ghost predicate NoRekey(calls: seq<Call>) { forall i :: 0 <= i < |calls| ==> calls[i].action != KaRekey }

  /** When a probe goes out: inside the second period, and half a period after an unanswered one. */
  lemma ProbeTimes(calls: seq<Call>, r: int, d: int, i: nat)
    requires SilentRun(calls, r, d) && i < |calls| && calls[i].action == KaDpd
    ensures r + d <= calls[i].now <= r + 2 * d
    ensures calls[i].before.lastDpd > r ==> calls[i].before.lastDpd + d / 2 <= calls[i].now
    ensures calls[i].before.lastDpd > r ==> calls[i].before.lastDpd >= r + d
  {
    LastProbeAfterFirstPeriod(calls, r, d, i);
  }

  /** The remembered probe is either older than the last traffic or was sent at least a period after it; never in the future. */
  lemma {:induction false} LastProbeAfterFirstPeriod(calls: seq<Call>, r: int, d: int, i: nat)
    requires SilentRun(calls, r, d) && i < |calls|
    ensures calls[i].before.lastDpd <= r || calls[i].before.lastDpd >= r + d
    ensures calls[i].before.lastDpd <= calls[i].now && calls[i].after.lastDpd <= calls[i].now
  {
    if i > 0 {
      LastProbeAfterFirstPeriod(calls, r, d, i - 1);
    }
  }

  /** A check remembers the probe it asks for, and otherwise keeps the last one. */
  lemma ProbeRemembered(calls: seq<Call>, r: int, d: int, i: nat)
    requires SilentRun(calls, r, d) && i < |calls|
    ensures d >= 2
    ensures calls[i].after.lastDpd == if calls[i].action == KaDpd then calls[i].now else calls[i].before.lastDpd
    ensures i + 1 < |calls| ==> calls[i + 1].before.lastDpd == calls[i].after.lastDpd
  {}

  /** Inside the second period and at least half a period apart. */
  ghost predicate WellSpaced(ps: seq<int>, r: int, d: int)
  {
    && (forall i :: 0 <= i < |ps| ==> r + d <= ps[i] <= r + 2 * d)
    && (forall i :: 0 <= i < |ps| - 1 ==> ps[i] + d / 2 <= ps[i + 1])
  }

  lemma OneMoreProbe(ps: seq<int>, p: int, r: int, d: int)
    requires WellSpaced(ps, r, d) && r + d <= p <= r + 2 * d
    requires ps != [] ==> ps[|ps| - 1] + d / 2 <= p
    ensures WellSpaced(ps + [p], r, d) && (ps + [p])[|ps + [p]| - 1] == p
  {}

  /** Probes start one period after the last traffic, are half a period apart, and the last one is remembered. */
  lemma {:induction false} ProbesSpaced(calls: seq<Call>, r: int, d: int, n: nat)
    requires SilentRun(calls, r, d) && n <= |calls|
    ensures WellSpaced(Probes(calls, n), r, d)
    ensures Probes(calls, n) != [] ==> calls[n - 1].after.lastDpd == Probes(calls, n)[|Probes(calls, n)| - 1] >= r + d
  {
    hide SilentRun, PeriodicCheck, WellSpaced, Probes;
    if n == 0 {
      NoProbes(calls, r, d);
    } else {
      ProbesSpaced(calls, r, d, n - 1);
      NoProbes(calls, r, d);
      if n > 1 {
        ProbeRemembered(calls, r, d, n - 2);
      }
      ProbesStep(calls, r, d, n);
    }
  }

  /** One more call. */
  lemma ProbesStep(calls: seq<Call>, r: int, d: int, n: nat)
    requires SilentRun(calls, r, d) && 0 < n <= |calls|
    requires var ps := Probes(calls, n - 1); WellSpaced(ps, r, d) && (ps != [] ==> calls[n - 1].before.lastDpd == ps[|ps| - 1] >= r + d)
    ensures WellSpaced(Probes(calls, n), r, d)
    ensures Probes(calls, n) != [] ==> calls[n - 1].after.lastDpd == Probes(calls, n)[|Probes(calls, n)| - 1] >= r + d
  {
    hide SilentRun, PeriodicCheck, WellSpaced;
    var ps, c := Probes(calls, n - 1), calls[n - 1];
    ProbeRemembered(calls, r, d, n - 1);
    if c.action == KaDpd {
      ProbeTimes(calls, r, d, n - 1);
      OneMoreProbe(ps, c.now, r, d);
    } else {
      assert ps + [] == ps;
    }
  }

  lemma NoProbes(calls: seq<Call>, r: int, d: int)
    ensures Probes(calls, 0) == [] && WellSpaced(Probes(calls, 0), r, d)
  {}

  lemma {:induction false} SpacedFromFirst(ps: seq<int>, step: nat, k: nat)
    requires k < |ps|
    requires forall i :: 0 <= i < |ps| - 1 ==> ps[i] + step <= ps[i + 1]
    ensures ps[0] + k * step <= ps[k]
  {
    if k > 0 {
      SpacedFromFirst(ps, step, k - 1);
      assert ps[k - 1] + step <= ps[k - 1 + 1];
    }
  }

  /** Values half a period apart inside a window of one period: at most four of them. */
  lemma SpacedInWindow(ps: seq<int>, r: int, d: int)
    requires d >= 2 && WellSpaced(ps, r, d)
    ensures |ps| <= 4
    ensures d != 3 ==> |ps| <= 3
  {
    var most := if d == 3 then 4 else 3;
    if |ps| > most {
      SpacedFromFirst(ps, d / 2, most);
    }
  }

  /** The call that notices the death is at most half a period late. */
  lemma NoticedInTime(calls: seq<Call>, r: int, d: int, i: nat)
    requires SilentRun(calls, r, d) && i + 1 < |calls|
    requires calls[i].action != KaRekey && calls[i].now <= r + 2 * d
    ensures calls[i + 1].now <= r + 2 * d + d / 2
  {
    var c := calls[i];
    LastProbeAfterFirstPeriod(calls, r, d, i);
    if c.action == KaNone {
      NeverSleepsPastADeadline(c.before, c.now, c.timeout, c.after, c.timeout', calls[i + 1].now);
      if i == 0 {
        assert c.before.lastDpd <= r;
      }
    }
  }

  /**
   A peer that stays silent for a period d >= 2: as long as no rekey comes first, at most four
   probes are sent (three unless d is 3), no call up to r + 2d gives the peer up, and the first
   call after r + 2d does, at the latest at r + 2d + d/2.
   */
  lemma DeadPeerIsDetected(calls: seq<Call>, r: int, d: int)
    requires SilentRun(calls, r, d) && NoRekey(calls)
    ensures |Probes(calls, |calls|)| <= 4
    ensures d != 3 ==> |Probes(calls, |calls|)| <= 3
    ensures forall i :: 0 <= i < |calls| ==> (calls[i].action == KaDpdDead <==> calls[i].now > r + 2 * d)
    ensures forall i :: 0 <= i < |calls| - 1 && calls[i].now <= r + 2 * d < calls[i + 1].now ==>
              calls[i + 1].now <= r + 2 * d + d / 2
  {
    ProbesSpaced(calls, r, d, |calls|);
    SpacedInWindow(Probes(calls, |calls|), r, d);
    forall i | 0 <= i < |calls|
      ensures calls[i].action == KaDpdDead <==> calls[i].now > r + 2 * d
    {
      DeadIffLate(calls[i], r, d);
    }
    hide SilentRun;
    forall i | 0 <= i < |calls| - 1 && calls[i].now <= r + 2 * d < calls[i + 1].now
      ensures calls[i + 1].now <= r + 2 * d + d / 2
    {
      NoticedInTime(calls, r, d, i);
    }
  }

  lemma DeadIffLate(c: Call, r: int, d: int)
    requires PeriodicCheck(c.before, c.now, c.timeout, c.action, c.after, c.timeout')
    requires d >= 2 && c.before.dpd == d && c.before.lastRx == r && c.action != KaRekey
    ensures c.action == KaDpdDead <==> c.now > r + 2 * d
  {}
}
