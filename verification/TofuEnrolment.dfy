/** Concurrent upgrades through the enrolment window: the check runs under the lock, the insert does not,
    and the counter is bumped under the lock again afterwards. */
module TofuEnrolment {
  import opened Text
  import opened Tofu

  /** A certificate let in by this path, and whether it was pinned when that was decided. */
  datatype Admission = Admission(fp: string, pinned: bool)

  /** `allowed` and `inserted` are the fingerprints of upgrades between check and insert and between insert and
      count, and `admitted` lists the upgrades let in, in order. The last four fields measure the current window: certificates newly pinned by upgrades, counter
      bumps, the most upgrades ever between check and count, and the greatest cap in force (none if uncapped). */
  datatype World = World(mode: Mode, window: nat, audits: seq<nat>, pins: set<string>,
                         allowed: seq<string>, inserted: seq<string>, admitted: seq<Admission>,
                         enrolled: nat, counted: nat, peak: nat, cap: Option<nat>)

  datatype Step =
    | Enable(on: bool, max: Option<nat>, now: int)
    | SetExpiry(age: Option<nat>, now: int)
    | Check(fp: string, now: int)
    | Insert(i: nat, ok: bool)
    | Count(i: nat)
    | AddPin(pin: string)
    | RemovePin(pin: string)

  const Start := World(Disabled, 0, [], {}, [], [], [], 0, 0, 0, Some(0))

  predicate StepEnabled(w: World, step: Step) {
    match step
    case Enable(_, max, now) => I64(now) && (max.Some? ==> max.value <= U32Max)
    case SetExpiry(age, now) => I64(now) && (age.Some? ==> age.value <= U64Max)
    case Check(_, now) => I64(now)
    case Insert(i, _) => i < |w.allowed|
    case Count(i) => i < |w.inserted|
    case AddPin(_) => true
    case RemovePin(_) => true
  }

  function Max(a: nat, b: nat): nat { if a < b then b else a }

  /** The greater of two caps; no cap is greater than any. */
  function Join(a: Option<nat>, b: Option<nat>): Option<nat> {
    if a.Some? && b.Some? then Some(Max(a.value, b.value)) else None
  }

  function Without(s: seq<string>, i: nat): seq<string>
    requires i < |s|
  {
    s[..i] + s[i + 1..]
  }

  function Flight(w: World): nat { |w.allowed| + |w.inserted| }

  function Next(w: World, step: Step): World
    requires StepEnabled(w, step)
  {
    match step
    case Enable(on, max, now) =>
      var m := AfterEnable(w.mode, on, max, now);
      if on && !w.mode.enabled then
        w.(mode := m, window := w.window + 1, enrolled := 0, counted := 0, peak := Flight(w), cap := max)
      else if on then w.(mode := m, cap := Join(w.cap, max))
      else w.(mode := m)
    case SetExpiry(age, now) => w.(mode := AfterSetExpiry(w.mode, age, now))
    case Check(fp, now) =>
      if IsExpiredAt(w.mode, now) then
        w.(mode := AfterExpiry(w.mode), audits := if w.mode.enabledAt.Some? then w.audits + [w.window] else w.audits)
      else if ShouldEnrollAt(w.mode, now) then
        w.(allowed := w.allowed + [fp], peak := Max(w.peak, Flight(w) + 1))
      else w
    case Insert(i, ok) =>
      var fp := w.allowed[i];
      var pins := if ok then w.pins + {fp} else w.pins;
      var v := w.(allowed := Without(w.allowed, i), pins := pins, admitted := w.admitted + [Admission(fp, fp in pins)]);
      if ok && fp !in w.pins then v.(inserted := w.inserted + [fp], enrolled := w.enrolled + 1) else v
    case Count(i) =>
      w.(mode := AfterEnrollment(w.mode), counted := w.counted + 1, inserted := Without(w.inserted, i))
    case AddPin(fp) => w.(pins := w.pins + {fp})
    case RemovePin(fp) => w.(pins := w.pins - {fp})
  }

  predicate ValidRun(w: World, steps: seq<Step>)
    decreases |steps|
  {
    steps == [] || (StepEnabled(w, steps[0]) && ValidRun(Next(w, steps[0]), steps[1..]))
  }

  function Final(w: World, steps: seq<Step>): World
    requires ValidRun(w, steps)
    decreases |steps|
  {
    if steps == [] then w else Final(Next(w, steps[0]), steps[1..])
  }

  // ----- What every step keeps -----

  /** The bound a window obeys: with cap m and at most k upgrades in flight, m + k - 1. */
  function Bound(m: nat, k: nat): nat { Max(m, 1) + k - 1 }

  predicate WindowInv(w: World) {
    && Anchored(w.mode)
    && Flight(w) <= w.peak
    && w.enrolled <= w.counted + |w.inserted|
    && (w.mode.maxEnrollments.Some? ==> w.mode.maxEnrollments.value <= U32Max)
    && (w.mode.enabled ==> w.mode.count == if w.counted < U32Max then w.counted else U32Max)
    && (w.mode.enabled && w.cap.Some? ==> w.mode.maxEnrollments.Some? && w.mode.maxEnrollments.value <= w.cap.value)
    && (w.cap.Some? ==> w.counted + Flight(w) <= Bound(w.cap.value, w.peak))
  }

  /** Audited windows increase, and one that is still enabled has not been audited. */
  predicate AuditInv(w: World) {
    && (forall i, j :: 0 <= i < j < |w.audits| ==> w.audits[i] < w.audits[j])
    && (forall i :: 0 <= i < |w.audits| ==> w.audits[i] <= w.window && (w.mode.enabled ==> w.audits[i] < w.window))
  }

  predicate Inv(w: World) { WindowInv(w) && AuditInv(w) }

  lemma {:induction false} InsertKeepsWindow(w: World, i: nat, ok: bool)
    requires WindowInv(w) && StepEnabled(w, Insert(i, ok))
    ensures WindowInv(Next(w, Insert(i, ok)))
  {
  }

  lemma {:induction false} CountKeepsWindow(w: World, i: nat)
    requires WindowInv(w) && StepEnabled(w, Count(i))
    ensures WindowInv(Next(w, Count(i)))
  {
  }

  lemma {:induction false} CheckKeepsWindow(w: World, fp: string, now: int)
    requires WindowInv(w) && StepEnabled(w, Check(fp, now))
    ensures WindowInv(Next(w, Check(fp, now)))
  {
  }

  lemma {:induction false} EnableKeepsWindow(w: World, on: bool, max: Option<nat>, now: int)
    requires WindowInv(w) && StepEnabled(w, Enable(on, max, now))
    ensures WindowInv(Next(w, Enable(on, max, now)))
  {
  }

  lemma {:induction false} NextKeepsWindow(w: World, step: Step)
    requires WindowInv(w) && StepEnabled(w, step)
    ensures WindowInv(Next(w, step))
  {
    match step
    case Enable(on, max, now) => EnableKeepsWindow(w, on, max, now);
    case Check(fp, now) => CheckKeepsWindow(w, fp, now);
    case Insert(i, ok) => InsertKeepsWindow(w, i, ok);
    case Count(i) => CountKeepsWindow(w, i);
    case SetExpiry(_, _) =>
    case AddPin(_) =>
    case RemovePin(_) =>
  }

  lemma {:induction false} NextKeepsAudit(w: World, step: Step)
    requires Anchored(w.mode) && AuditInv(w) && StepEnabled(w, step)
    ensures AuditInv(Next(w, step))
  {
  }

  lemma {:induction false} RunKeepsInv(w: World, steps: seq<Step>)
    requires Inv(w) && ValidRun(w, steps)
    ensures Inv(Final(w, steps))
    decreases |steps|
  {
    if steps != [] {
      NextKeepsWindow(w, steps[0]);
      NextKeepsAudit(w, steps[0]);
      RunKeepsInv(Next(w, steps[0]), steps[1..]);
    }
  }

  // ----- Main results, over every interleaving -----

  /** A window whose caps never exceeded m enrols at most m + k - 1 certificates when at most k upgrades were
      ever between check and count, leftovers of an earlier window included. */
  lemma {:induction false} EnrolmentBound(steps: seq<Step>, m: nat, k: nat)
    requires ValidRun(Start, steps) && m >= 1 && k >= 1
    requires Final(Start, steps).cap.Some? && Final(Start, steps).cap.value <= m && Final(Start, steps).peak <= k
    ensures Final(Start, steps).enrolled <= m + k - 1
  {
    RunKeepsInv(Start, steps);
  }

  /** In every reachable state the mode is enabled exactly when anchored, so the branches for a missing anchor
      are dead and setting an expiry never moves the anchor. */
  lemma {:induction false} AnchorAlwaysPresent(steps: seq<Step>, age: Option<nat>, now: int)
    requires ValidRun(Start, steps)
    ensures var m := Final(Start, steps).mode;
            && (m.enabled <==> m.enabledAt.Some?)
            && (m.maxAge.Some? ==> m.enabled)
            && AfterSetExpiry(m, age, now).enabledAt == m.enabledAt
            && (ShouldEnrollAt(m, now) <==> ShouldEnroll(m) && !IsExpiredAt(m, now))
  {
    RunKeepsInv(Start, steps);
    ExpiryIsComplement(Final(Start, steps).mode, now);
  }

  /** No window is audited as expired twice. */
  lemma {:induction false} ExpiryAuditedOnce(steps: seq<Step>, i: nat, j: nat)
    requires ValidRun(Start, steps) && i < j < |Final(Start, steps).audits|
    ensures Final(Start, steps).audits[i] != Final(Start, steps).audits[j]
  {
    RunKeepsInv(Start, steps);
  }

  // ----- What a check decides, from the operator's steps alone -----

  /** The age limit after these steps: that of the last `SetExpiry`. */
  function Limit(start: Option<nat>, steps: seq<Step>): Option<nat>
    decreases |steps|
  {
    if steps == [] then start else Limit(if steps[0].SetExpiry? then steps[0].age else start, steps[1..])
  }

  /** The cap after these steps: that of the last `Enable`. */
  function Cap(start: Option<nat>, steps: seq<Step>): Option<nat>
    decreases |steps|
  {
    if steps == [] then start else Cap(if steps[0].Enable? then steps[0].max else start, steps[1..])
  }

  function Counts(steps: seq<Step>): nat {
    if steps == [] then 0 else (if steps[0].Count? then 1 else 0) + Counts(steps[1..])
  }

  /** Whether the last `Enable` turned the mode on. */
  predicate LastOn(start: bool, steps: seq<Step>)
    decreases |steps|
  {
    if steps == [] then start else LastOn(if steps[0].Enable? then steps[0].on else start, steps[1..])
  }

  /** As long as window g is open, the mode is what the steps since its opening at t0 say. */
  predicate InWindow(w: World, g: nat, t0: int, limit: Option<nat>, cap: Option<nat>, n: nat) {
    || w.window > g
    || (w.window == g && (w.mode.enabled ==>
          && w.mode.enabledAt == Some(t0) && w.mode.maxAge == limit && w.mode.maxEnrollments == cap
          && w.mode.count == if n < U32Max then n else U32Max))
  }

  lemma {:induction false} InWindowStep(w: World, g: nat, t0: int, limit: Option<nat>, cap: Option<nat>, n: nat, step: Step)
    requires InWindow(w, g, t0, limit, cap, n) && StepEnabled(w, step)
    ensures InWindow(Next(w, step), g, t0, if step.SetExpiry? then step.age else limit,
                     if step.Enable? then step.max else cap, if step.Count? then n + 1 else n)
  {
  }

  lemma {:induction false} InWindowRun(w: World, g: nat, t0: int, limit: Option<nat>, cap: Option<nat>, n: nat, steps: seq<Step>)
    requires InWindow(w, g, t0, limit, cap, n) && ValidRun(w, steps)
    ensures InWindow(Final(w, steps), g, t0, Limit(limit, steps), Cap(cap, steps), n + Counts(steps))
    decreases |steps|
  {
    if steps != [] {
      InWindowStep(w, g, t0, limit, cap, n, steps[0]);
      InWindowRun(Next(w, steps[0]), g, t0, if steps[0].SetExpiry? then steps[0].age else limit,
                  if steps[0].Enable? then steps[0].max else cap, if steps[0].Count? then n + 1 else n, steps[1..]);
    }
  }

  /** `now` is past the age limit of a window opened at t0. A limit of i64::MAX seconds or more is never passed. */
  predicate Late(limit: Option<nat>, t0: int, now: int) {
    limit.Some? && limit.value < I64Max && now - t0 > limit.value
  }

  /** During these steps a window opened at t0 is neither turned off nor found expired. */
  predicate StaysOpen(t0: int, limit: Option<nat>, steps: seq<Step>)
    decreases |steps|
  {
    steps == [] ||
    (&& !(steps[0].Enable? && !steps[0].on)
     && !(steps[0].Check? && Late(limit, t0, steps[0].now))
     && StaysOpen(t0, if steps[0].SetExpiry? then steps[0].age else limit, steps[1..]))
  }

  predicate OpenAt(w: World, g: nat) { w.mode.enabled && w.window == g }

  lemma {:induction false} CheckOne(w: World, t0: int, limit: Option<nat>, cap: Option<nat>, n: nat, fp: string, now: int)
    requires WindowInv(w) && w.mode.enabled && InWindow(w, w.window, t0, limit, cap, n) && I64(now)
    ensures
      var v := Next(w, Check(fp, now));
      if Late(limit, t0, now)
      then v.allowed == w.allowed && !v.mode.enabled && v.audits == w.audits + [w.window]
      else
        && v.mode.enabled && v.audits == w.audits
        && v.allowed == if cap.None? || n < cap.value then w.allowed + [fp] else w.allowed
  {
  }

  lemma {:induction false} ClosedForGood(w: World, g: nat, steps: seq<Step>)
    requires ValidRun(w, steps) && w.window >= g && !OpenAt(w, g)
    ensures !OpenAt(Final(w, steps), g)
    decreases |steps|
  {
    if steps != [] { ClosedForGood(Next(w, steps[0]), g, steps[1..]); }
  }

  lemma {:induction false} OpenStep(w: World, t0: int, limit: Option<nat>, cap: Option<nat>, n: nat, step: Step)
    requires WindowInv(w) && w.mode.enabled && InWindow(w, w.window, t0, limit, cap, n) && StepEnabled(w, step)
    ensures Next(w, step).window == w.window
    ensures Next(w, step).mode.enabled
       <==> !(step.Enable? && !step.on) && !(step.Check? && Late(limit, t0, step.now))
  {
    if step.Check? { CheckOne(w, t0, limit, cap, n, step.fp, step.now); }
  }

  /** A window is still open after some steps exactly when none of them turned it off or found it expired. */
  lemma {:induction false} OpenExactly(w: World, t0: int, limit: Option<nat>, cap: Option<nat>, n: nat, steps: seq<Step>)
    requires WindowInv(w) && w.mode.enabled && InWindow(w, w.window, t0, limit, cap, n) && ValidRun(w, steps)
    ensures OpenAt(Final(w, steps), w.window) <==> StaysOpen(t0, limit, steps)
    decreases |steps|
  {
    if steps != [] {
      var step, v := steps[0], Next(w, steps[0]);
      OpenStep(w, t0, limit, cap, n, step);
      NextKeepsWindow(w, step);
      InWindowStep(w, w.window, t0, limit, cap, n, step);
      if v.mode.enabled {
        OpenExactly(v, t0, if step.SetExpiry? then step.age else limit, if step.Enable? then step.max else cap,
                    if step.Count? then n + 1 else n, steps[1..]);
      } else {
        ClosedForGood(v, w.window, steps[1..]);
      }
    }
  }

  /** An upgrade checked at `now` in a window opened at t0 and still open. If the last age limit set since is
      passed, nothing is let through, the mode goes off and one expiry is audited for the window. Otherwise the mode
      stays on, nothing is audited, and the upgrade may enrol exactly when fewer upgrades were counted since the
      opening than the last cap allows. */
  lemma {:induction false} CheckDecides(before: seq<Step>, max: Option<nat>, t0: int, after: seq<Step>, fp: string, now: int)
    requires ValidRun(Start, before) && !Final(Start, before).mode.enabled
    requires StepEnabled(Final(Start, before), Enable(true, max, t0)) && I64(now)
    requires ValidRun(Next(Final(Start, before), Enable(true, max, t0)), after) && StaysOpen(t0, None, after)
    ensures
      var w := Final(Next(Final(Start, before), Enable(true, max, t0)), after);
      var v := Next(w, Check(fp, now));
      var cap := Cap(max, after);
      if Late(Limit(None, after), t0, now)
      then v.allowed == w.allowed && !v.mode.enabled && v.audits == w.audits + [w.window]
      else
        && v.mode.enabled && v.audits == w.audits
        && v.allowed == if cap.None? || Counts(after) < cap.value then w.allowed + [fp] else w.allowed
  {
    RunKeepsInv(Start, before);
    var begun := Next(Final(Start, before), Enable(true, max, t0));
    NextKeepsWindow(Final(Start, before), Enable(true, max, t0));
    NextKeepsAudit(Final(Start, before), Enable(true, max, t0));
    RunKeepsInv(begun, after);
    OpenExactly(begun, t0, None, max, 0, after);
    InWindowRun(begun, begun.window, t0, None, max, 0, after);
    CheckOne(Final(begun, after), t0, Limit(None, after), Cap(max, after), Counts(after), fp, now);
  }

  lemma {:induction false} OffStaysOff(w: World, steps: seq<Step>, on: bool)
    requires ValidRun(w, steps) && (w.mode.enabled ==> on)
    ensures Final(w, steps).mode.enabled ==> LastOn(on, steps)
    decreases |steps|
  {
    if steps != [] { OffStaysOff(Next(w, steps[0]), steps[1..], if steps[0].Enable? then steps[0].on else on); }
  }

  /** While the mode was never turned on, or last turned off, an upgrade that is checked changes nothing. */
  lemma {:induction false} OffAdmitsNothing(steps: seq<Step>, fp: string, now: int)
    requires ValidRun(Start, steps) && !LastOn(false, steps) && I64(now)
    ensures Next(Final(Start, steps), Check(fp, now)) == Final(Start, steps)
  {
    OffStaysOff(Start, steps, false);
  }

  // ----- Whether the certificates let in are pinned -----

  predicate AllPinned(w: World) { forall i :: 0 <= i < |w.admitted| ==> w.admitted[i].pinned }

  /** No insert fails on a certificate that is not already pinned. */
  predicate InsertsHold(w: World, steps: seq<Step>)
    requires ValidRun(w, steps)
    decreases |steps|
  {
    steps == [] || (InsertHolds(w, steps[0]) && InsertsHold(Next(w, steps[0]), steps[1..]))
  }

  predicate InsertHolds(w: World, step: Step)
    requires StepEnabled(w, step)
  {
    step.Insert? && !step.ok ==> w.allowed[step.i] in w.pins
  }

  lemma {:induction false} AllPinnedStep(w: World, step: Step)
    requires StepEnabled(w, step)
    ensures AllPinned(Next(w, step)) <==> AllPinned(w) && InsertHolds(w, step)
  {
    var v := Next(w, step);
    assert w.admitted <= v.admitted;
    if step.Insert? { assert v.admitted[|w.admitted|].pinned <==> InsertHolds(w, step); }
  }

  lemma {:induction false} AllPinnedRun(w: World, steps: seq<Step>)
    requires ValidRun(w, steps)
    ensures AllPinned(Final(w, steps)) <==> AllPinned(w) && InsertsHold(w, steps)
    decreases |steps|
  {
    if steps != [] {
      AllPinnedStep(w, steps[0]);
      AllPinnedRun(Next(w, steps[0]), steps[1..]);
    }
  }

  /** Every certificate let in was pinned when that was decided, exactly when no insert failed on a certificate
      that was not already pinned. */
  lemma {:induction false} AdmittedPinnedExactly(steps: seq<Step>)
    requires ValidRun(Start, steps)
    ensures AllPinned(Final(Start, steps)) <==> InsertsHold(Start, steps)
  {
    AllPinnedRun(Start, steps);
  }

  lemma {:induction false} StaysPinned(w: World, steps: seq<Step>, fp: string)
    requires ValidRun(w, steps) && RemovePin(fp) !in steps
    ensures fp in w.pins ==> fp in Final(w, steps).pins
    ensures Admission(fp, true) in Final(w, steps).admitted ==>
              Admission(fp, true) in w.admitted || fp in Final(w, steps).pins
    decreases |steps|
  {
    if steps != [] {
      var v := Next(w, steps[0]);
      assert steps[0] in steps;
      StaysPinned(v, steps[1..], fp);
      assert Admission(fp, true) in v.admitted ==> Admission(fp, true) in w.admitted || fp in v.pins;
    }
  }

  /** A certificate let in as pinned stays pinned until it is removed by hand. */
  lemma {:induction false} AdmittedStayPinned(steps: seq<Step>, fp: string)
    requires ValidRun(Start, steps) && Admission(fp, true) in Final(Start, steps).admitted && RemovePin(fp) !in steps
    ensures fp in Final(Start, steps).pins
  {
    StaysPinned(Start, steps, fp);
  }

  /** Whether the last of these steps that concerns `fp`'s pin set it: added by hand or inserted, not removed. */
  predicate LastPinned(w: World, steps: seq<Step>, fp: string, before: bool)
    requires ValidRun(w, steps)
    decreases |steps|
  {
    if steps == [] then before
    else
      var inserted := steps[0].Insert? && steps[0].ok && w.allowed[steps[0].i] == fp;
      LastPinned(Next(w, steps[0]), steps[1..], fp,
                 steps[0] == AddPin(fp) || inserted || (before && steps[0] != RemovePin(fp)))
  }

  lemma {:induction false} PinnedExactly(w: World, steps: seq<Step>, fp: string)
    requires ValidRun(w, steps)
    ensures fp in Final(w, steps).pins <==> LastPinned(w, steps, fp, fp in w.pins)
    decreases |steps|
  {
    if steps != [] { PinnedExactly(Next(w, steps[0]), steps[1..], fp); }
  }

  /** An insert that fails lets its certificate in all the same, unpinned. */
  lemma {:induction false} AdmittedUnpinned(fp: string)
    ensures exists steps :: ValidRun(Start, steps)
              && Final(Start, steps).admitted == [Admission(fp, false)] && fp !in Final(Start, steps).pins
  {
    ReachRefl(Start);
    var w1 := Start.(mode := AfterEnable(Disabled, true, None, 0), window := 1, cap := None);
    var w2 := w1.(allowed := [fp], peak := 1);
    var w3 := w2.(allowed := [], admitted := [Admission(fp, false)]);
    assert [] + [fp] == [fp] && Without([fp], 0) == [];
    ReachStep(Start, Start, w1, Enable(true, None, 0));
    ReachStep(Start, w1, w2, Check(fp, 0));
    ReachStep(Start, w2, w3, Insert(0, false));
    var steps :| ValidRun(Start, steps) && Final(Start, steps) == w3;
  }

  // ----- The bound is reached -----

  ghost predicate Reaches(w: World, v: World) { exists steps :: ValidRun(w, steps) && Final(w, steps) == v }

  lemma {:induction false} ReachRefl(w: World)
    ensures Reaches(w, w)
  {
    assert ValidRun(w, []) && Final(w, []) == w;
  }

  lemma {:induction false} ReachStep(w: World, v: World, u: World, step: Step)
    requires Reaches(w, v) && StepEnabled(v, step) && Next(v, step) == u
    ensures Reaches(w, u)
  {
    var steps :| ValidRun(w, steps) && Final(w, steps) == v;
    Snoc(w, steps, step);
  }

  lemma {:induction false} Snoc(w: World, steps: seq<Step>, step: Step)
    requires ValidRun(w, steps) && StepEnabled(Final(w, steps), step)
    ensures ValidRun(w, steps + [step]) && Final(w, steps + [step]) == Next(Final(w, steps), step)
    decreases |steps|
  {
    if steps == [] {
      assert steps + [step] == [step] && [step][1..] == [];
      assert ValidRun(Next(w, step), []);
    } else {
      assert (steps + [step])[1..] == steps[1..] + [step];
      Snoc(Next(w, steps[0]), steps[1..], step);
    }
  }

  /** Distinct fingerprints, numbered. */
  function Fp(i: nat): string { Decimal(i) }

  function Fps(lo: nat, hi: nat): (r: seq<string>)
    requires lo <= hi
    ensures |r| == hi - lo
  {
    seq(hi - lo, (i: nat) => Fp(lo + i))
  }

  function FpSet(n: nat): set<string> { set i | 0 <= i < n :: Fp(i) }

  function Admissions(n: nat): seq<Admission> { seq(n, (i: nat) => Admission(Fp(i), true)) }

  lemma {:induction false} FpNew(n: nat)
    ensures Fp(n) !in FpSet(n)
    ensures FpSet(n) + {Fp(n)} == FpSet(n + 1)
    ensures Admissions(n) + [Admission(Fp(n), true)] == Admissions(n + 1)
  {
    forall i | 0 <= i < n ensures Fp(i) != Fp(n) {
      if Fp(i) == Fp(n) { DecimalInjective(i, n); }
    }
  }

  /** Window 1 with cap m after j upgrades went through one at a time: those in `a` have passed the check,
      those in `b` are inserted but not counted, and `pinned` certificates are in. */
  function Stage(m: nat, j: nat, a: seq<string>, b: seq<string>, pinned: nat, peak: nat): World {
    World(Mode(true, Some(m), j, Some(0), None), 1, [], FpSet(pinned), a, b, Admissions(pinned), pinned, j, peak, Some(m))
  }

  lemma {:induction false} ReachSequential(m: nat, j: nat)
    requires 1 <= m <= U32Max && j < m
    ensures Reaches(Start, Stage(m, j, [], [], j, if j == 0 then 0 else 1))
  {
    if j == 0 {
      ReachRefl(Start);
      assert FpSet(0) == {};
      ReachStep(Start, Start, Stage(m, 0, [], [], 0, 0), Enable(true, Some(m), 0));
    } else {
      var i := j - 1;
      var p := if i == 0 then 0 else 1;
      ReachSequential(m, i);
      FpNew(i);
      var w0 := Stage(m, i, [], [], i, p);
      var w1 := Stage(m, i, [Fp(i)], [], i, 1);
      var w2 := Stage(m, i, [], [Fp(i)], j, 1);
      var w3 := Stage(m, j, [], [], j, 1);
      assert [] + [Fp(i)] == [Fp(i)] && Without([Fp(i)], 0) == [];
      ReachStep(Start, w0, w1, Check(Fp(i), 0));
      ReachStep(Start, w1, w2, Insert(0, true));
      ReachStep(Start, w2, w3, Count(0));
    }
  }

  lemma {:induction false} ReachAllowed(m: nat, k: nat)
    requires 1 <= m <= U32Max && k >= 1
    ensures Reaches(Start, Stage(m, m - 1, Fps(m - 1, m - 1 + k), [], m - 1, k))
  {
    var j := m - 1;
    var p := if j == 0 then 0 else 1;
    if k == 1 {
      ReachSequential(m, j);
      assert [] + [Fp(j)] == Fps(j, j + 1);
      ReachStep(Start, Stage(m, j, [], [], j, p), Stage(m, j, Fps(j, j + 1), [], j, 1), Check(Fp(j), 0));
    } else {
      ReachAllowed(m, k - 1);
      assert Fps(j, j + k - 1) + [Fp(j + k - 1)] == Fps(j, j + k);
      ReachStep(Start, Stage(m, j, Fps(j, j + k - 1), [], j, k - 1), Stage(m, j, Fps(j, j + k), [], j, k), Check(Fp(j + k - 1), 0));
    }
  }

  lemma {:induction false} ReachInserted(m: nat, k: nat, d: nat)
    requires 1 <= m <= U32Max && 1 <= k && d <= k
    ensures Reaches(Start, Stage(m, m - 1, Fps(m - 1 + d, m - 1 + k), Fps(m - 1, m - 1 + d), m - 1 + d, k))
  {
    var j := m - 1;
    if d == 0 {
      ReachAllowed(m, k);
      assert Fps(j, j) == [];
    } else {
      var e := d - 1;
      ReachInserted(m, k, e);
      FpNew(j + e);
      var a := Fps(j + e, j + k);
      assert a[0] == Fp(j + e) && Without(a, 0) == Fps(j + d, j + k);
      assert Fps(j, j + e) + [Fp(j + e)] == Fps(j, j + d);
      ReachStep(Start, Stage(m, j, a, Fps(j, j + e), j + e, k), Stage(m, j, Fps(j + d, j + k), Fps(j, j + d), j + d, k), Insert(0, true));
    }
  }

  /** For every cap m and every k there is a run with at most k upgrades in flight that enrols m + k - 1. */
  lemma {:induction false} BoundIsReached(m: nat, k: nat)
    requires 1 <= m <= U32Max && k >= 1
    ensures exists steps :: ValidRun(Start, steps) && Final(Start, steps).cap == Some(m)
              && Final(Start, steps).peak == k && Final(Start, steps).enrolled == m + k - 1
  {
    ReachInserted(m, k, k);
    var v := Stage(m, m - 1, Fps(m - 1 + k, m - 1 + k), Fps(m - 1, m - 1 + k), m - 1 + k, k);
    var steps :| ValidRun(Start, steps) && Final(Start, steps) == v;
  }
}
