/** Trust-on-first-use mode: the window record, its clock arithmetic, and the operator's two arms. */
module Tofu {
  import opened Text

  const U32Max: nat := 0xFFFF_FFFF
  const I64Max: int := 0x7FFF_FFFF_FFFF_FFFF
  const I64Min: int := -0x8000_0000_0000_0000
  const U64Max: nat := 0xFFFF_FFFF_FFFF_FFFF

  predicate I64(x: int) { I64Min <= x <= I64Max }

  datatype Mode = Mode(enabled: bool, maxEnrollments: Option<nat>, count: nat, enabledAt: Option<int>, maxAge: Option<nat>)

  const Disabled := Mode(false, None, 0, None, None)

  /** `i64::saturating_sub`. */
  function SaturatingSub(a: int, b: int): (r: int)
    ensures I64(r)
    ensures I64(a - b) ==> r == a - b
  {
    if a - b > I64Max then I64Max else if a - b < I64Min then I64Min else a - b
  }

  predicate ShouldEnroll(m: Mode) {
    m.enabled && (m.maxEnrollments.Some? ==> m.count < m.maxEnrollments.value)
  }

  predicate ShouldEnrollAt(m: Mode, now: int) {
    if !ShouldEnroll(m) then false
    else if m.maxAge.None? then true
    else if m.enabledAt.None? then false
    else
      var elapsed := SaturatingSub(now, m.enabledAt.value);
      elapsed < 0 || elapsed <= m.maxAge.value
  }

  predicate IsExpiredAt(m: Mode, now: int) {
    if !m.enabled then false
    else if m.maxAge.None? then false
    else if m.enabledAt.None? then true
    else
      var elapsed := SaturatingSub(now, m.enabledAt.value);
      elapsed >= 0 && elapsed > m.maxAge.value
  }

  function AfterEnrollment(m: Mode): Mode { m.(count := if m.count < U32Max then m.count + 1 else U32Max) }

  function AfterExpiry(m: Mode): Mode {
    Mode(false, m.maxEnrollments, 0, None, None)
  }

  function AfterEnable(m: Mode, on: bool, max: Option<nat>, now: int): Mode {
    if !on then Mode(false, max, 0, None, None)
    else if m.enabled then m.(maxEnrollments := max)
    else m.(enabled := true, maxEnrollments := max, count := 0, enabledAt := Some(now))
  }

  /** Refused while disabled; backfills a missing anchor. */
  function AfterSetExpiry(m: Mode, age: Option<nat>, now: int): Mode {
    if !m.enabled then m
    else m.(maxAge := age, enabledAt := if m.enabledAt.None? then Some(now) else m.enabledAt)
  }

  class TofuMode {
    var enabled: bool
    var maxEnrollments: Option<nat>
    var count: nat
    var enabledAt: Option<int>
    var maxAge: Option<nat>

    function View(): Mode
      reads this
    {
      Mode(enabled, maxEnrollments, count, enabledAt, maxAge)
    }

    constructor ()
      ensures View() == Disabled
    {
      enabled, maxEnrollments, count, enabledAt, maxAge := false, None, 0, None, None;
    }

    method RecordEnrollment()
      modifies this`count
      ensures View() == AfterEnrollment(old(View()))
    {
      if count < U32Max { count := count + 1; } else { count := U32Max; }
    }

    method RecordExpiry() returns (prior: Option<int>)
      modifies this
      ensures View() == AfterExpiry(old(View())) && prior == old(enabledAt)
    {
      prior := enabledAt;
      enabled, maxAge, enabledAt, count := false, None, None, 0;
    }

    method Enable(on: bool, max: Option<nat>, now: int)
      modifies this
      ensures View() == AfterEnable(old(View()), on, max, now)
    {
      var wasEnabled := enabled;
      enabled, maxEnrollments := on, max;
      if on {
        if !wasEnabled { enabledAt, count := Some(now), 0; }
      } else {
        count, enabledAt, maxAge := 0, None, None;
      }
    }

    method SetExpiry(age: Option<nat>, now: int) returns (ok: bool)
      modifies this`maxAge, this`enabledAt
      ensures View() == AfterSetExpiry(old(View()), age, now) && ok == enabled
    {
      if !enabled { return false; }
      if enabledAt.None? { enabledAt := Some(now); }
      maxAge := age;
      ok := true;
    }
  }

  // ----- The window invariant -----

  /** Enabled exactly when anchored, and an age limit only while enabled. */
  predicate Anchored(m: Mode) {
    && (m.enabled <==> m.enabledAt.Some?)
    && (m.maxAge.Some? ==> m.enabled)
    && (m.enabledAt.Some? ==> I64(m.enabledAt.value))
  }

  /** In an anchored mode the enrolment test is the cap test and the complement of expiry. */
  lemma {:induction false} ExpiryIsComplement(m: Mode, now: int)
    requires Anchored(m)
    ensures ShouldEnrollAt(m, now) <==> ShouldEnroll(m) && !IsExpiredAt(m, now)
  {
  }

  /** Once expired, expired at every later time. */
  lemma {:induction false} ExpiryMonotone(m: Mode, now: int, later: int)
    requires now <= later && IsExpiredAt(m, now)
    ensures IsExpiredAt(m, later)
  {
  }

  /** The saturating test is the exact one except for an age limit no i64 difference can exceed. */
  lemma {:induction false} ExpiryExact(m: Mode, now: int)
    requires Anchored(m) && m.maxAge.Some? && I64(now)
    ensures (IsExpiredAt(m, now) <==> now - m.enabledAt.value > m.maxAge.value)
            <==> !(m.maxAge.value >= I64Max && now - m.enabledAt.value > m.maxAge.value)
  {
  }
}
