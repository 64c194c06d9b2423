/**
 The fixed-window counters that guard credential-bearing endpoints.

 `Preview` is the decision on one dictionary, `SingleControl` and `DualControl` are the two
 process-local controls. What a caller relies on is proved over whole request histories: how many
 requests any window-long interval can let through, and that refused requests leave no trace.
 */
module EndpointAbuse {
  import opened Common

  datatype Window = Window(attempts: nat, resetAt: Instant)

  datatype Decision = Allowed | Denied(retryAfter: int)

  type Windows = map<string, Window>

  /** The window a request is judged against: the stored one, or a new one once that is over. */
  function Current(windows: Windows, key: string, now: Instant, duration: int): Window {
    if key in windows && now < windows[key].resetAt then windows[key] else Window(0, now + duration)
  }

  function Preview(windows: Windows, key: string, now: Instant, limit: nat, duration: int): (Decision, Window) {
    var window := Current(windows, key, now, duration);
    if window.attempts >= limit then (Denied(window.resetAt - now), window)
    else (Allowed, Window(window.attempts + 1, window.resetAt))
  }

  /** A refusal always names a wait of positive length, as the decision record demands. */
  lemma RefusalNamesAWait(windows: Windows, key: string, now: Instant, limit: nat, duration: int)
    requires 0 < limit && 0 < duration
    ensures Preview(windows, key, now, limit, duration).0 == Allowed
            || exists w :: w > 0 && Preview(windows, key, now, limit, duration).0 == Denied(w)
  {
  }

  /**
   A refusal tells how long to wait: with the dictionary as it is, the same request is refused at every time
   before that and let through from then on.
   */
  lemma RefusalTellsTheWait(windows: Windows, key: string, now: Instant, limit: nat, duration: int, wait: int,
                            later: Instant)
    requires 0 < limit && now <= later && Preview(windows, key, now, limit, duration).0 == Denied(wait)
    ensures Preview(windows, key, later, limit, duration).0 == Allowed <==> now + wait <= later
  {
  }

  /** The first request of a key opens a window, the next ones count up in it, and the first one after it opens another. */
  lemma CountsUp(windows: Windows, key: string, now: Instant, limit: nat, duration: int)
    requires 0 < limit
    ensures var (decision, next) := Preview(windows, key, now, limit, duration);
            && (key !in windows || windows[key].resetAt <= now ==> decision == Allowed && next == Window(1, now + duration))
            && (key in windows && now < windows[key].resetAt ==>
                  if windows[key].attempts < limit then decision == Allowed && next == Window(windows[key].attempts + 1, windows[key].resetAt)
                  else decision == Denied(windows[key].resetAt - now))
  {
  }

  class SingleControl {
    const limit: nat
    const duration: int
    var windows: Windows

    constructor (limit: nat, duration: int)
      requires 0 < limit && 0 < duration
      ensures this.limit == limit && this.duration == duration && windows == map[]
    {
      this.limit, this.duration, windows := limit, duration, map[];
    }

    method Permit(subject: string, now: Instant) returns (decision: Decision)
      modifies this
      ensures (windows, decision) == SingleStep(old(windows), limit, duration, subject, now)
    {
      decision := Consume(subject, now);
    }

    method Consume(key: string, now: Instant) returns (decision: Decision)
      modifies this
      ensures (windows, decision) == SingleStep(old(windows), limit, duration, key, now)
    {
      var (verdict, nextWindow) := Preview(windows, key, now, limit, duration);
      if verdict == Allowed {
        windows := windows[key := nextWindow];
      }
      decision := verdict;
    }
  }

  class DualControl {
    const subjectLimit: nat
    const networkLimit: nat
    const duration: int
    var subjects: Windows
    var networks: Windows

    constructor (subjectLimit: nat, networkLimit: nat, duration: int)
      requires 0 < subjectLimit && 0 < networkLimit && 0 < duration
      ensures this.subjectLimit == subjectLimit && this.networkLimit == networkLimit && this.duration == duration
      ensures subjects == map[] && networks == map[]
    {
      this.subjectLimit, this.networkLimit, this.duration := subjectLimit, networkLimit, duration;
      subjects, networks := map[], map[];
    }

    method Permit(subject: string, network: string, now: Instant) returns (decision: Decision)
      modifies this
      ensures (DualState(subjects, networks), decision)
              == DualStep(old(DualState(subjects, networks)), DualPolicy(subjectLimit, networkLimit, duration),
                          DualRequest(subject, network, now))
    {
      var (subjectDecision, subjectWindow) := Preview(subjects, subject, now, subjectLimit, duration);
      var (networkDecision, networkWindow) := Preview(networks, network, now, networkLimit, duration);
      if subjectDecision != Allowed {
        return subjectDecision;
      }
      if networkDecision != Allowed {
        return networkDecision;
      }
      subjects := subjects[subject := subjectWindow];
      networks := networks[network := networkWindow];
      decision := Allowed;
    }
  }

  // ---- One step as a function of the state -------------------------------------------------

  function SingleStep(windows: Windows, limit: nat, duration: int, key: string, now: Instant): (Windows, Decision) {
    var (d, next) := Preview(windows, key, now, limit, duration);
    (if d == Allowed then windows[key := next] else windows, d)
  }

  datatype DualState = DualState(subjects: Windows, networks: Windows)
  datatype DualPolicy = DualPolicy(subjectLimit: nat, networkLimit: nat, duration: int)
  datatype DualRequest = DualRequest(subject: string, network: string, now: Instant)

  function DualStep(st: DualState, p: DualPolicy, r: DualRequest): (DualState, Decision) {
    var (sd, sw) := Preview(st.subjects, r.subject, r.now, p.subjectLimit, p.duration);
    var (nd, nw) := Preview(st.networks, r.network, r.now, p.networkLimit, p.duration);
    if sd != Allowed then (st, sd)
    else if nd != Allowed then (st, nd)
    else (DualState(st.subjects[r.subject := sw], st.networks[r.network := nw]), Allowed)
  }

  /** The subject's refusal is told before the network's, and a request is let through when neither refuses it. */
  lemma DualRefusals(st: DualState, p: DualPolicy, r: DualRequest, later: Instant)
    requires 0 < p.subjectLimit && 0 < p.networkLimit
    ensures var (after, decision) := DualStep(st, p, r);
            var subject := Preview(st.subjects, r.subject, r.now, p.subjectLimit, p.duration);
            var network := Preview(st.networks, r.network, r.now, p.networkLimit, p.duration);
            && (decision == Allowed <==> subject.0 == Allowed && network.0 == Allowed)
            && (subject.0 != Allowed ==> decision == subject.0)
            && (subject.0 == Allowed && network.0 != Allowed ==> decision == network.0)
            && after == if decision == Allowed
                        then DualState(st.subjects[r.subject := subject.1], st.networks[r.network := network.1]) else st
  {
  }

  // ---- Histories ---------------------------------------------------------------------------

  /** The state after a history of requests, starting from empty dictionaries. */
  function After(p: DualPolicy, history: seq<DualRequest>): DualState {
    if history == [] then DualState(map[], map[])
    else DualStep(After(p, history[..|history| - 1]), p, history[|history| - 1]).0
  }

  function DecisionAt(p: DualPolicy, history: seq<DualRequest>, i: nat): Decision
    requires i < |history|
  {
    DualStep(After(p, history[..i]), p, history[i]).1
  }

  /** Which of the two dictionaries is being looked at. */
  datatype Side = SubjectSide | NetworkSide

  function KeyOf(side: Side, r: DualRequest): string {
    if side == SubjectSide then r.subject else r.network
  }

  function LimitOf(side: Side, p: DualPolicy): nat {
    if side == SubjectSide then p.subjectLimit else p.networkLimit
  }

  function WindowsOf(side: Side, st: DualState): Windows {
    if side == SubjectSide then st.subjects else st.networks
  }

  /** The times at which requests bearing `key` were let through, oldest first. */
  function AllowedTimes(p: DualPolicy, side: Side, key: string, history: seq<DualRequest>): seq<Instant> {
    if history == [] then []
    else
      var n := |history| - 1;
      var rest := AllowedTimes(p, side, key, history[..n]);
      if KeyOf(side, history[n]) == key && DecisionAt(p, history, n) == Allowed
      then rest + [history[n].now] else rest
  }

  predicate Chronological(history: seq<DualRequest>) {
    forall i, j :: 0 <= i < j < |history| ==> history[i].now <= history[j].now
  }

  /** The window recomputed from a log of allowed times alone. */
  function Recomputed(times: seq<Instant>, duration: int): Option<Window> {
    if times == [] then None
    else
      var t := times[|times| - 1];
      match Recomputed(times[..|times| - 1], duration)
      case None => Some(Window(1, t + duration))
      case Some(w) => if t < w.resetAt then Some(Window(w.attempts + 1, w.resetAt)) else Some(Window(1, t + duration))
  }

  function Lookup(windows: Windows, key: string): Option<Window> {
    if key in windows then Some(windows[key]) else None
  }

  /** A log in which every entry was let through by the counter the earlier entries left. */
  predicate Admitted(times: seq<Instant>, limit: nat, duration: int) {
    times == [] ||
    (var rest := times[..|times| - 1];
     var t := times[|times| - 1];
     && Admitted(rest, limit, duration)
     && (rest == [] || rest[|rest| - 1] <= t)
     && (match Recomputed(rest, duration)
         case None => limit > 0
         case Some(w) => t < w.resetAt ==> w.attempts < limit))
  }

  /** How many entries of the log fall in the half-open interval from `lo` to `hi`. */
  function CountIn(times: seq<Instant>, lo: Instant, hi: Instant): nat {
    if times == [] then 0
    else CountIn(times[..|times| - 1], lo, hi) + (if lo <= times[|times| - 1] < hi then 1 else 0)
  }

  /** The entries in the window-long interval that starts at `lo`. */
  function CountWindow(times: seq<Instant>, lo: Instant, duration: int): nat {
    CountIn(times, lo, lo + duration)
  }

  // ---- The bound for one log ---------------------------------------------------------------

  lemma {:induction false} CountSplits(times: seq<Instant>, lo: Instant, mid: Instant, hi: Instant)
    requires lo <= mid <= hi
    ensures CountIn(times, lo, hi) == CountIn(times, lo, mid) + CountIn(times, mid, hi)
  {
    if times != [] {
      CountSplits(times[..|times| - 1], lo, mid, hi);
    }
  }

  lemma {:induction false} CountGrows(times: seq<Instant>, lo: Instant, hi: Instant, lo': Instant, hi': Instant)
    requires lo' <= lo && hi <= hi'
    ensures CountIn(times, lo, hi) <= CountIn(times, lo', hi')
  {
    if times != [] {
      CountGrows(times[..|times| - 1], lo, hi, lo', hi');
    }
  }

  lemma {:induction false} CountAfterLast(times: seq<Instant>, limit: nat, duration: int, lo: Instant, hi: Instant)
    requires Admitted(times, limit, duration)
    requires times != [] ==> times[|times| - 1] < lo
    ensures CountIn(times, lo, hi) == 0
  {
    if times != [] {
      CountAfterLast(times[..|times| - 1], limit, duration, lo, hi);
    }
  }

  /**
   What an admitted log looks like from the current window: the window opened exactly at one of the
   entries and holds `attempts` of them, and whatever precedes it is one short of a full window on any
   stretch shorter than a window.
   */
  ghost predicate Shape(times: seq<Instant>, w: Window, limit: nat, duration: int) {
    var start := w.resetAt - duration;
    && times != [] && start <= times[|times| - 1] < w.resetAt
    && w.attempts <= limit
    && (forall lo, hi :: CountIn(times, lo, hi) <= CountIn(times, lo, start) + w.attempts)
    && (forall lo, hi :: start < lo ==> CountIn(times, lo, hi) <= w.attempts - 1)
    && (forall lo :: start - duration < lo ==> CountIn(times, lo, start) <= limit - 1)
    && (forall lo :: CountWindow(times, lo, duration) <= 2 * limit - 1)
  }

  lemma {:induction false} AdmittedShape(times: seq<Instant>, limit: nat, duration: int)
    requires Admitted(times, limit, duration) && 0 < limit && 0 < duration
    ensures times == [] <==> Recomputed(times, duration) == None
    ensures times != [] ==> Shape(times, Recomputed(times, duration).value, limit, duration)
  {
    if times != [] {
      var rest, t := times[..|times| - 1], times[|times| - 1];
      AdmittedShape(rest, limit, duration);
      var w := Recomputed(times, duration).value;
      if rest == [] {
        forall lo, hi ensures CountIn(times, lo, hi) == if lo <= t < hi then 1 else 0 {
          assert CountIn(rest, lo, hi) == 0;
        }
      } else {
        var v := Recomputed(rest, duration).value;
        if t < v.resetAt {
          ShapeSameWindow(rest, t, v, limit, duration);
        } else {
          ShapeNewWindow(rest, t, v, limit, duration);
        }
        assert times == rest + [t];
      }
    }
  }

  lemma ShapeSameWindow(rest: seq<Instant>, t: Instant, v: Window, limit: nat, duration: int)
    requires Admitted(rest, limit, duration) && 0 < limit && 0 < duration
    requires Shape(rest, v, limit, duration)
    requires rest[|rest| - 1] <= t < v.resetAt && v.attempts < limit
    ensures Shape(rest + [t], Window(v.attempts + 1, v.resetAt), limit, duration)
  {
    var times := rest + [t];
    var start := v.resetAt - duration;
    assert times[..|times| - 1] == rest;
    forall lo ensures CountWindow(times, lo, duration) <= 2 * limit - 1 {
      assert CountWindow(rest, lo, duration) <= 2 * limit - 1;
      if lo <= t < lo + duration {
        if lo <= start {
          assert CountIn(rest, lo, lo + duration) <= CountIn(rest, lo, start) + v.attempts;
        } else {
          assert CountIn(rest, lo, lo + duration) <= v.attempts - 1;
        }
      }
    }
  }

  lemma ShapeNewWindow(rest: seq<Instant>, t: Instant, v: Window, limit: nat, duration: int)
    requires Admitted(rest, limit, duration) && 0 < limit && 0 < duration
    requires Shape(rest, v, limit, duration)
    requires v.resetAt <= t
    ensures Shape(rest + [t], Window(1, t + duration), limit, duration)
  {
    var times := rest + [t];
    assert times[..|times| - 1] == rest;
    forall lo, hi ensures CountIn(rest, lo, hi) <= CountIn(rest, lo, t) {
      if t < hi {
        if lo <= t {
          CountSplits(rest, lo, t, hi);
          CountAfterLast(rest, limit, duration, t, hi);
        } else {
          CountAfterLast(rest, limit, duration, lo, hi);
        }
      } else {
        CountGrows(rest, lo, hi, lo, t);
      }
    }
    forall lo, hi | t < lo ensures CountIn(rest, lo, hi) == 0 {
      CountAfterLast(rest, limit, duration, lo, hi);
    }
    forall lo ensures CountWindow(times, lo, duration) <= 2 * limit - 1 {
      assert CountWindow(rest, lo, duration) <= 2 * limit - 1;
      if lo <= t < lo + duration {
        assert CountIn(rest, lo, lo + duration) <= v.attempts - 1;
      }
    }
  }

  // ---- The bound for histories -------------------------------------------------------------

  /** The log only holds times of requests in the history. */
  lemma {:induction false} AllowedTimesAreRequestTimes(p: DualPolicy, side: Side, key: string,
                                                       history: seq<DualRequest>)
    requires Chronological(history)
    ensures forall t :: t in AllowedTimes(p, side, key, history) ==> history != [] && t <= history[|history| - 1].now
  {
    if history != [] {
      AllowedTimesAreRequestTimes(p, side, key, history[..|history| - 1]);
    }
  }

  /** The stored window is exactly the one the log of allowed times determines. */
  lemma {:induction false} StateIsRecomputed(p: DualPolicy, side: Side, key: string, history: seq<DualRequest>)
    requires Chronological(history) && 0 < LimitOf(side, p) && 0 < p.duration
    ensures InStep(WindowsOf(side, After(p, history)), key, AllowedTimes(p, side, key, history), LimitOf(side, p), p.duration)
  {
    if history != [] {
      var n := |history| - 1;
      StateIsRecomputed(p, side, key, history[..n]);
      AllowedTimesAreRequestTimes(p, side, key, history[..n]);
      DualStepKeepsLog(After(p, history[..n]), p, side, key, history[n], AllowedTimes(p, side, key, history[..n]));
    }
  }

  /** One request keeps the dictionary of either side and the log of any key in step. */
  lemma DualStepKeepsLog(st: DualState, p: DualPolicy, side: Side, key: string, r: DualRequest, times: seq<Instant>)
    requires InStep(WindowsOf(side, st), key, times, LimitOf(side, p), p.duration) && 0 < LimitOf(side, p)
    requires forall t :: t in times ==> t <= r.now
    ensures var (after, decision) := DualStep(st, p, r);
            InStep(WindowsOf(side, after), key, if KeyOf(side, r) == key && decision == Allowed then times + [r.now] else times,
                   LimitOf(side, p), p.duration)
  {
    if KeyOf(side, r) == key && DualStep(st, p, r).1 == Allowed {
      LogStep(WindowsOf(side, st), key, times, r.now, LimitOf(side, p), p.duration);
    }
  }

  /** The dictionary holds the window the log determines, and the log was admitted entry by entry. */
  ghost predicate InStep(windows: Windows, key: string, times: seq<Instant>, limit: nat, duration: int) {
    Lookup(windows, key) == Recomputed(times, duration) && Admitted(times, limit, duration)
  }

  /** Letting one more request through keeps the dictionary and the log in step. */
  lemma LogStep(windows: Windows, key: string, times: seq<Instant>, now: Instant, limit: nat, duration: int)
    requires InStep(windows, key, times, limit, duration)
    requires forall t :: t in times ==> t <= now
    requires 0 < limit && Preview(windows, key, now, limit, duration).0 == Allowed
    ensures InStep(windows[key := Preview(windows, key, now, limit, duration).1], key, times + [now], limit, duration)
  {
    var longer := times + [now];
    assert longer[..|longer| - 1] == times && longer[|longer| - 1] == now;
    assert times != [] ==> times[|times| - 1] in times;
    assert Admitted(longer, limit, duration);
  }

  /**
   Whatever the history, no interval one window long contains more than `2 * limit - 1` requests of
   one subject (or from one network) that were let through.
   */
  lemma SlidingIntervalBound(p: DualPolicy, side: Side, key: string, history: seq<DualRequest>, lo: Instant)
    requires Chronological(history) && 0 < LimitOf(side, p) && 0 < p.duration
    ensures CountWindow(AllowedTimes(p, side, key, history), lo, p.duration) <= 2 * LimitOf(side, p) - 1
  {
    StateIsRecomputed(p, side, key, history);
    AdmittedShape(AllowedTimes(p, side, key, history), LimitOf(side, p), p.duration);
  }

  /** A log that fills the tail of one window and the whole of the next one. */
  function Burst(limit: nat, duration: int, n: nat): seq<Instant> {
    if n == 0 then [] else Burst(limit, duration, n - 1) + [BurstTime(limit, duration, n)]
  }

  /** When the `n`th entry of the log comes. */
  function BurstTime(limit: nat, duration: int, n: nat): Instant {
    if n <= 1 then 0 else if n <= limit then duration - 1 else duration
  }

  /** Letting one more entry in. */
  lemma OneMoreEntry(rest: seq<Instant>, t: Instant, limit: nat, duration: int)
    requires Admitted(rest, limit, duration) && (rest == [] || rest[|rest| - 1] <= t)
    requires match Recomputed(rest, duration)
             case None => limit > 0
             case Some(w) => t < w.resetAt ==> w.attempts < limit
    ensures Admitted(rest + [t], limit, duration)
    ensures Recomputed(rest + [t], duration)
            == match Recomputed(rest, duration)
               case None => Some(Window(1, t + duration))
               case Some(w) => if t < w.resetAt then Some(Window(w.attempts + 1, w.resetAt)) else Some(Window(1, t + duration))
  {
    assert (rest + [t])[..|rest + [t]| - 1] == rest;
  }

  /** The first `n` entries were let through, by the first window and then by the second. */
  predicate BurstAdmitted(times: seq<Instant>, limit: nat, duration: int, n: nat) {
    && |times| == n && Admitted(times, limit, duration)
    && (n > 0 ==> times[n - 1] == BurstTime(limit, duration, n))
    && Recomputed(times, duration)
       == if n == 0 then None else if n <= limit then Some(Window(n, duration)) else Some(Window(n - limit, 2 * duration))
  }

  lemma BurstGrows(rest: seq<Instant>, limit: nat, duration: int, n: nat)
    requires 0 < limit && 1 < duration && 0 < n <= 2 * limit && BurstAdmitted(rest, limit, duration, n - 1)
    ensures BurstAdmitted(rest + [BurstTime(limit, duration, n)], limit, duration, n)
  {
    OneMoreEntry(rest, BurstTime(limit, duration, n), limit, duration);
  }

  lemma {:induction false} BurstShape(limit: nat, duration: int, n: nat)
    requires 0 < limit && 1 < duration && n <= 2 * limit
    ensures BurstAdmitted(Burst(limit, duration, n), limit, duration, n)
  {
    if n > 0 {
      BurstShape(limit, duration, n - 1);
      BurstGrows(Burst(limit, duration, n - 1), limit, duration, n);
    }
  }

  /** All of it but the first entry falls within one window. */
  lemma {:induction false} BurstCount(limit: nat, duration: int, n: nat)
    requires 0 < limit && 1 < duration
    ensures CountIn(Burst(limit, duration, n), duration - 1, 2 * duration - 1) == if n == 0 then 0 else n - 1
  {
    if n > 0 {
      BurstCount(limit, duration, n - 1);
      var times := Burst(limit, duration, n);
      assert times[..|times| - 1] == Burst(limit, duration, n - 1);
    }
  }

  /** A name nobody else has used yet. */
  function FreshName(n: nat): string {
    seq(n, _ => 'x')
  }

  /** Requests with one key on one side and a new name each time on the other. */
  function Visits(side: Side, key: string, times: seq<Instant>): (history: seq<DualRequest>)
    ensures |history| == |times|
  {
    if times == [] then []
    else
      var n := |times| - 1;
      Visits(side, key, times[..n])
      + [if side == SubjectSide then DualRequest(key, FreshName(n), times[n]) else DualRequest(FreshName(n), key, times[n])]
  }

  function Opposite(side: Side): Side {
    if side == SubjectSide then NetworkSide else SubjectSide
  }

  lemma {:induction false} VisitsAreChronological(side: Side, key: string, times: seq<Instant>, limit: nat,
                                                  duration: int)
    requires Admitted(times, limit, duration)
    ensures Chronological(Visits(side, key, times))
    ensures times != [] ==> Visits(side, key, times)[|times| - 1].now == times[|times| - 1]
  {
    if times != [] {
      var n := |times| - 1;
      VisitsAreChronological(side, key, times[..n], limit, duration);
      var rest := Visits(side, key, times[..n]);
      assert n > 0 ==> rest[n - 1].now <= times[n];
    }
  }

  lemma LastVisit(side: Side, key: string, times: seq<Instant>)
    requires times != []
    ensures var n := |times| - 1;
            var history := Visits(side, key, times);
            && history[..n] == Visits(side, key, times[..n])
            && KeyOf(side, history[n]) == key && KeyOf(Opposite(side), history[n]) == FreshName(n) && history[n].now == times[n]
  {
  }

  lemma StepAllowed(st: DualState, p: DualPolicy, side: Side, r: DualRequest)
    requires Preview(WindowsOf(side, st), KeyOf(side, r), r.now, LimitOf(side, p), p.duration).0 == Allowed
    requires KeyOf(Opposite(side), r) !in WindowsOf(Opposite(side), st) && 0 < LimitOf(Opposite(side), p)
    ensures DualStep(st, p, r).1 == Allowed
    ensures WindowsOf(Opposite(side), DualStep(st, p, r).0).Keys == WindowsOf(Opposite(side), st).Keys + {KeyOf(Opposite(side), r)}
  {
  }

  lemma NextIsPermitted(windows: Windows, key: string, times: seq<Instant>, limit: nat, duration: int)
    requires times != [] && Admitted(times, limit, duration) && 0 < limit
    requires Lookup(windows, key) == Recomputed(times[..|times| - 1], duration)
    ensures Preview(windows, key, times[|times| - 1], limit, duration).0 == Allowed
  {
  }

  /** Every visit of an admitted log is let through. */
  lemma {:induction false} VisitsAreAllowed(p: DualPolicy, side: Side, key: string, times: seq<Instant>)
    requires 0 < p.subjectLimit && 0 < p.networkLimit && 0 < p.duration && Admitted(times, LimitOf(side, p), p.duration)
    ensures AllowedTimes(p, side, key, Visits(side, key, times)) == times
    ensures forall name {:trigger |name|} :: name in WindowsOf(Opposite(side), After(p, Visits(side, key, times))) ==> |name| < |times|
  {
    if times != [] {
      var n := |times| - 1;
      var history := Visits(side, key, times);
      LastVisit(side, key, times);
      VisitsAreAllowed(p, side, key, times[..n]);
      VisitsAreChronological(side, key, times[..n], LimitOf(side, p), p.duration);
      StateIsRecomputed(p, side, key, history[..n]);
      var st := After(p, history[..n]);
      NextIsPermitted(WindowsOf(side, st), key, times, LimitOf(side, p), p.duration);
      StepAllowed(st, p, side, history[n]);
      assert times == times[..n] + [times[n]];
    }
  }

  /** The logs of request histories are exactly the admitted ones. */
  lemma LogsAreTheAdmittedOnes(p: DualPolicy, side: Side, key: string, times: seq<Instant>)
    requires 0 < p.subjectLimit && 0 < p.networkLimit && 0 < p.duration
    ensures (exists history :: Chronological(history) && AllowedTimes(p, side, key, history) == times)
       <==> Admitted(times, LimitOf(side, p), p.duration)
  {
    if Admitted(times, LimitOf(side, p), p.duration) {
      VisitsAreChronological(side, key, times, LimitOf(side, p), p.duration);
      VisitsAreAllowed(p, side, key, times);
    }
    if exists history :: Chronological(history) && AllowedTimes(p, side, key, history) == times {
      var history :| Chronological(history) && AllowedTimes(p, side, key, history) == times;
      StateIsRecomputed(p, side, key, history);
    }
  }

  /** The bound is exact: under every policy, some history of requests reaches it on either side. */
  lemma SlidingIntervalBoundIsExact(p: DualPolicy, side: Side, key: string)
    requires 0 < p.subjectLimit && 0 < p.networkLimit && 1 < p.duration
    ensures exists history, lo ::
              Chronological(history) && CountWindow(AllowedTimes(p, side, key, history), lo, p.duration) == 2 * LimitOf(side, p) - 1
  {
    var times := Burst(LimitOf(side, p), p.duration, 2 * LimitOf(side, p));
    BurstFillsWindow(LimitOf(side, p), p.duration, times);
    VisitsReach(p, side, key, times, p.duration - 1, 2 * LimitOf(side, p) - 1);
  }

  lemma BurstFillsWindow(limit: nat, duration: int, times: seq<Instant>)
    requires 0 < limit && 1 < duration && times == Burst(limit, duration, 2 * limit)
    ensures Admitted(times, limit, duration) && CountWindow(times, duration - 1, duration) == 2 * limit - 1
  {
    BurstShape(limit, duration, 2 * limit);
    BurstCount(limit, duration, 2 * limit);
  }

  lemma VisitsReach(p: DualPolicy, side: Side, key: string, times: seq<Instant>, lo: Instant, count: nat)
    requires 0 < p.subjectLimit && 0 < p.networkLimit && 0 < p.duration && Admitted(times, LimitOf(side, p), p.duration)
    requires CountWindow(times, lo, p.duration) == count
    ensures exists history, lo :: Chronological(history) && CountWindow(AllowedTimes(p, side, key, history), lo, p.duration) == count
  {
    VisitsAreChronological(side, key, times, LimitOf(side, p), p.duration);
    VisitsAreAllowed(p, side, key, times);
    assert CountWindow(AllowedTimes(p, side, key, Visits(side, key, times)), lo, p.duration) == count;
  }

  lemma AfterOneMore(p: DualPolicy, history: seq<DualRequest>, r: DualRequest)
    ensures After(p, history + [r]) == DualStep(After(p, history), p, r).0
  {
  }

  lemma SplitsLast(a: seq<DualRequest>, b: seq<DualRequest>)
    requires b != []
    ensures a + b == a + b[..|b| - 1] + [b[|b| - 1]]
  {
  }

  /**
   A refused request changes neither dictionary, whichever side refused it, so dropping it from the
   history changes no later decision.
   */
  lemma {:induction false} RefusedRequestsLeaveNoTrace(p: DualPolicy, before: seq<DualRequest>, r: DualRequest,
                                                       after: seq<DualRequest>)
    requires DualStep(After(p, before), p, r).1 != Allowed
    ensures After(p, before + [r] + after) == After(p, before + after)
    decreases |after|
  {
    if after == [] {
      AfterOneMore(p, before, r);
      assert before + after == before && before + [r] + after == before + [r];
    } else {
      var most, last := after[..|after| - 1], after[|after| - 1];
      RefusedRequestsLeaveNoTrace(p, before, r, most);
      AfterOneMore(p, before + [r] + most, last);
      AfterOneMore(p, before + most, last);
      SplitsLast(before + [r], after);
      SplitsLast(before, after);
    }
  }

  // ---- The single control ------------------------------------------------------------------

  type SingleRequest = (string, Instant)

  function SingleAfter(limit: nat, duration: int, history: seq<SingleRequest>): Windows {
    if history == [] then map[]
    else
      var n := |history| - 1;
      SingleStep(SingleAfter(limit, duration, history[..n]), limit, duration, history[n].0, history[n].1).0
  }

  function SingleAllowedTimes(limit: nat, duration: int, key: string, history: seq<SingleRequest>): seq<Instant> {
    if history == [] then []
    else
      var n := |history| - 1;
      var rest := SingleAllowedTimes(limit, duration, key, history[..n]);
      if history[n].0 == key && SingleStep(SingleAfter(limit, duration, history[..n]), limit, duration, key, history[n].1).1 == Allowed
      then rest + [history[n].1] else rest
  }

  predicate SingleChronological(history: seq<SingleRequest>) {
    forall i, j :: 0 <= i < j < |history| ==> history[i].1 <= history[j].1
  }

  lemma {:induction false} SingleStateIsRecomputed(limit: nat, duration: int, key: string, history: seq<SingleRequest>)
    requires SingleChronological(history) && 0 < limit && 0 < duration
    ensures var times := SingleAllowedTimes(limit, duration, key, history);
            && InStep(SingleAfter(limit, duration, history), key, times, limit, duration)
            && (forall t :: t in times ==> history != [] && t <= history[|history| - 1].1)
  {
    if history != [] {
      var n := |history| - 1;
      SingleStateIsRecomputed(limit, duration, key, history[..n]);
      var windows := SingleAfter(limit, duration, history[..n]);
      var times := SingleAllowedTimes(limit, duration, key, history[..n]);
      if history[n].0 == key && SingleStep(windows, limit, duration, key, history[n].1).1 == Allowed {
        LogStep(windows, key, times, history[n].1, limit, duration);
      }
    }
  }

  lemma SingleSlidingIntervalBound(limit: nat, duration: int, key: string, history: seq<SingleRequest>, lo: Instant)
    requires SingleChronological(history) && 0 < limit && 0 < duration
    ensures CountWindow(SingleAllowedTimes(limit, duration, key, history), lo, duration) <= 2 * limit - 1
  {
    SingleStateIsRecomputed(limit, duration, key, history);
    AdmittedShape(SingleAllowedTimes(limit, duration, key, history), limit, duration);
  }
}
