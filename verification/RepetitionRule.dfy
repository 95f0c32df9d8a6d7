/** A schedule that repeats: active for `duration` seconds at the start of each `interval` seconds.

    Instants are whole clock ticks, `ticks` of them to the second; `lead` is the number of seconds
    before a start at which a session is established. */
module RepetitionRule {
  import opened Schedule
  import opened Pattern

  /** `start` is None when the rule's start time does not parse. */
  datatype Rule = Rule(start: Option<int>, duration: int, interval: int)

  /** The state of the rule at `now`. The remainder is cut to whole seconds before it is compared. */
  function CurrentState(rule: Option<Rule>, ticks: int, lead: int, now: int): DistState
    requires ticks > 0
    requires rule.Some? ==> rule.value.interval != 0
  {
    if rule.None? || rule.value.start.None? then NoVal
    else
      var Rule(start, duration, interval) := rule.value;
      var diff := now - start.value;
      if diff < -(lead * ticks) then Inactive
      else if diff < 0 then Established
      else
        assert interval * ticks != 0 by { NonZeroPeriod(interval, ticks); }
        var offset := diff % (interval * ticks) / ticks;
        if offset < duration then Active
        else if offset < interval - lead then Inactive
        else Established
  }

  /** The next instant at which `CurrentState` may change, and the state announced for it. */
  function NextTransition(rule: Rule, ticks: int, lead: int, now: int): Transition
    requires ticks > 0 && rule.interval != 0
  {
    if rule.start.None? then Transition(None, NoVal)
    else
      var start := rule.start.value;
      var diff := now - start;
      if diff < -(lead * ticks) then Transition(Some(start - lead * ticks), Established)
      else if diff < 0 then Transition(Some(start), Active)
      else
        assert rule.interval * ticks != 0 by { NonZeroPeriod(rule.interval, ticks); }
        var period := rule.interval * ticks;
        var offset := diff % period / ticks;
        var activeStart := start + period * (diff / period);
        if offset < rule.duration then Transition(Some(activeStart + rule.duration * ticks), Inactive)
        else if offset < rule.interval - lead then Transition(Some(activeStart + period - lead * ticks), Established)
        else Transition(Some(activeStart + period), Active)
  }

  lemma NonZeroPeriod(interval: int, ticks: int)
    requires ticks > 0 && interval != 0
    ensures interval * ticks != 0
  {}

  /** The rules the theorems below are about: a start that parses and a positive interval. */
  ghost predicate Repeats(rule: Rule, ticks: int, lead: int) {
    ticks > 0 && rule.start.Some? && rule.interval > 0 && lead >= 0
  }

  /** The rule measured in ticks. */
  function InTicks(rule: Rule, ticks: int, lead: int): Pattern
    requires rule.start.Some?
  {
    Pattern(rule.start.value, rule.duration * ticks, rule.interval * ticks, lead * ticks)
  }

  /** Cutting to whole seconds never changes a comparison against a whole number of seconds. */
  lemma TruncationIsExact(r: int, ticks: int, d: int)
    requires r >= 0 && ticks > 0
    ensures r / ticks < d <==> r < d * ticks
  {
    var q := r / ticks;
    assert r == q * ticks + r % ticks;
    if q < d { Multiples(q + 1, d, ticks); } else { Multiples(d, q, ticks); }
  }

  /** The rule, which counts whole seconds, gives the answers of the pattern, which counts ticks. */
  lemma Untruncated(rule: Rule, ticks: int, lead: int, now: int)
    requires Repeats(rule, ticks, lead)
    ensures InTicks(rule, ticks, lead).Valid()
    ensures CurrentState(Some(rule), ticks, lead, now) == InTicks(rule, ticks, lead).State(now)
    ensures NextTransition(rule, ticks, lead, now) == InTicks(rule, ticks, lead).Next(now)
  {
    var period := rule.interval * ticks;
    assert period > 0 && lead * ticks >= 0;
    if now >= rule.start.value {
      var r := (now - rule.start.value) % period;
      TruncationIsExact(r, ticks, rule.duration);
      TruncationIsExact(r, ticks, rule.interval - lead);
      assert (rule.interval - lead) * ticks == period - lead * ticks;
    }
  }

  lemma ScaledComparison(a: int, b: int, ticks: int)
    requires ticks > 0
    ensures a < b <==> a * ticks < b * ticks
  {
    if a < b { Multiples(a + 1, b, ticks); } else { Multiples(b, a, ticks); }
  }

  /** Closed form of `CurrentState`, for every duration and lead: the rule is active in its windows, and
      established in the leads before them. */
  lemma ClosedForm(rule: Rule, ticks: int, lead: int, now: int)
    requires Repeats(rule, ticks, lead)
    ensures var s, p := CurrentState(Some(rule), ticks, lead, now), InTicks(rule, ticks, lead);
            && s in {Active, Established, Inactive}
            && (s == Active <==> exists k: nat :: p.InWindow(k, now))
            && (s == Established <==> !(exists k: nat :: p.InWindow(k, now)) && exists k: nat :: p.InLead(k, now))
  {
    Untruncated(rule, ticks, lead, now);
    InTicks(rule, ticks, lead).ClosedForm(now);
  }

  /** The two answers stay what they are at `now` until the instant announced at `now`. */
  ghost predicate Holds(rule: Rule, ticks: int, lead: int, now: int)
    requires Repeats(rule, ticks, lead)
  {
    && NextTransition(rule, ticks, lead, now).at.Some?
    && now < NextTransition(rule, ticks, lead, now).at.value
    && forall u :: now <= u < NextTransition(rule, ticks, lead, now).at.value ==>
         && CurrentState(Some(rule), ticks, lead, u) == CurrentState(Some(rule), ticks, lead, now)
         && NextTransition(rule, ticks, lead, u) == NextTransition(rule, ticks, lead, now)
  }

  lemma HoldsAsPattern(rule: Rule, ticks: int, lead: int, now: int)
    requires Repeats(rule, ticks, lead)
    ensures InTicks(rule, ticks, lead).Valid()
    ensures Holds(rule, ticks, lead, now) <==> InTicks(rule, ticks, lead).Holds(now)
  {
    forall u { Untruncated(rule, ticks, lead, u); }
    Untruncated(rule, ticks, lead, now);
    InTicks(rule, ticks, lead).Forward(now);
  }

  /** Sampling at transitions loses nothing exactly when the duration fits into the interval. With a longer
      one the announced end lies beyond the next start, and a wake-up before it is told a different end. */
  lemma HoldsExactly(rule: Rule, ticks: int, lead: int)
    requires Repeats(rule, ticks, lead)
    ensures (forall now :: Holds(rule, ticks, lead, now)) <==> rule.duration <= rule.interval
  {
    var p := InTicks(rule, ticks, lead);
    Untruncated(rule, ticks, lead, 0);
    p.HoldsExactly();
    ScaledComparison(rule.interval, rule.duration, ticks);
    forall now ensures Holds(rule, ticks, lead, now) <==> p.Holds(now) { HoldsAsPattern(rule, ticks, lead, now); }
  }

  /** The state announced for the next transition is the state found there. */
  ghost predicate Predicts(rule: Rule, ticks: int, lead: int, now: int)
    requires Repeats(rule, ticks, lead)
  {
    var next := NextTransition(rule, ticks, lead, now);
    next.at.Some? && CurrentState(Some(rule), ticks, lead, next.at.value) == next.state
  }

  /** The announced states are right at every instant exactly when there is a lead, the windows are not
      empty, and each idle gap is longer than the lead. */
  lemma PredictsExactly(rule: Rule, ticks: int, lead: int)
    requires Repeats(rule, ticks, lead) && rule.duration >= 0
    ensures (forall now :: Predicts(rule, ticks, lead, now)) <==> lead > 0 && 0 < rule.duration < rule.interval - lead
  {
    var p := InTicks(rule, ticks, lead);
    Untruncated(rule, ticks, lead, 0);
    ScaledComparison(0, lead, ticks);
    ScaledComparison(0, rule.duration, ticks);
    ScaledComparison(rule.duration, rule.interval - lead, ticks);
    assert (rule.interval - lead) * ticks == p.period - p.early;
    assert p.window >= 0 by { Multiples(0, rule.duration, ticks); }
    p.PredictsExactly();
    forall now ensures Predicts(rule, ticks, lead, now) <==> p.Predicts(now) {
      Untruncated(rule, ticks, lead, now);
      Untruncated(rule, ticks, lead, p.Next(now).at.value);
    }
  }

  /** The n-th instant a timer is armed for when it always fires on time. */
  function Chain(rule: Rule, ticks: int, lead: int, now: int, n: nat): (t: int)
    requires ticks > 0 && rule.start.Some? && rule.interval != 0
  {
    NextTransition(rule, ticks, lead, if n == 0 then now else Chain(rule, ticks, lead, now, n - 1)).at.value
  }

  lemma {:induction false} ChainAsPattern(rule: Rule, ticks: int, lead: int, now: int, n: nat)
    requires Repeats(rule, ticks, lead)
    ensures InTicks(rule, ticks, lead).Valid()
    ensures Chain(rule, ticks, lead, now, n) == InTicks(rule, ticks, lead).Chain(now, n)
  {
    Untruncated(rule, ticks, lead, now);
    if n > 0 {
      ChainAsPattern(rule, ticks, lead, now, n - 1);
      Untruncated(rule, ticks, lead, Chain(rule, ticks, lead, now, n - 1));
    }
  }

  /** The wake-ups of a rule never end and never crowd: any four in succession span an interval. */
  lemma FourSpanAnInterval(rule: Rule, ticks: int, lead: int, now: int, n: nat)
    requires Repeats(rule, ticks, lead) && rule.duration >= 0
    ensures Chain(rule, ticks, lead, now, n + 3) >= Chain(rule, ticks, lead, now, n) + rule.interval * ticks
  {
    ChainAsPattern(rule, ticks, lead, now, n);
    ChainAsPattern(rule, ticks, lead, now, n + 3);
    Multiples(0, rule.duration, ticks);
    InTicks(rule, ticks, lead).FourSpanAPeriod(now, n);
  }
}
