/** The schedules behind one interface, the refinement between them, and the timer that samples them. */
module ActivationTimer {
  import opened Schedule
  import opened Pattern
  import A = ActivePeriods
  import R = RepetitionRule

  // ----- the rule refines the list of its windows ---------------------------------------------------

  /** The first n windows of a rule, written out as a list. */
  function Unroll(rule: R.Rule, ticks: int, n: nat): seq<A.Window>
    requires rule.start.Some?
  {
    var p := R.InTicks(rule, ticks, 0);
    seq(n, k requires 0 <= k < n => A.Window(p.StartOf(k), p.StartOf(k) + p.window, 0))
  }

  /** Before the end of the last window, the division and remainder of the rule and the scan of the list
      give the same state and the same transition. */
  lemma RuleRefinesWindows(rule: R.Rule, ticks: int, lead: int, n: nat, now: int)
    requires R.Repeats(rule, ticks, lead) && 0 <= rule.duration <= rule.interval
    requires n >= 1 && now < Unroll(rule, ticks, n)[n - 1].end
    ensures R.CurrentState(Some(rule), ticks, lead, now) == A.StateAt(Unroll(rule, ticks, n), lead * ticks, now)
    ensures R.NextTransition(rule, ticks, lead, now) == A.NextAt(Unroll(rule, ticks, n), lead * ticks, now)
  {
    R.Untruncated(rule, ticks, lead, now);
    Multiples(0, rule.duration, ticks);
    Multiples(rule.duration, rule.interval, ticks);
    PatternRefinesWindows(R.InTicks(rule, ticks, lead), Unroll(rule, ticks, n), now);
  }

  ghost predicate Unrolled(p: Pattern, ws: seq<A.Window>) {
    ws != [] && forall k | 0 <= k < |ws| :: ws[k] == A.Window(p.StartOf(k), p.StartOf(k) + p.window, 0)
  }

  lemma PatternRefinesWindows(p: Pattern, ws: seq<A.Window>, now: int)
    requires p.Valid() && 0 <= p.window <= p.period && Unrolled(p, ws) && now < ws[|ws| - 1].end
    ensures p.State(now) == A.StateAt(ws, p.early, now)
    ensures p.Next(now) == A.NextAt(ws, p.early, now)
  {
    if now < p.start {
      assert p.StartOf(0) == p.start;
      A.FirstOpenIs(ws, now, 0);
    } else {
      var q, r := p.Position(now);
      SameAnswers(p, ws, q, r);
    }
  }

  lemma SameAnswers(p: Pattern, ws: seq<A.Window>, q: nat, r: nat)
    requires p.Valid() && 0 <= p.window <= p.period && Unrolled(p, ws)
    requires r < p.period && p.StartOf(q) + r < ws[|ws| - 1].end
    ensures p.State(p.StartOf(q) + r) == A.StateAt(ws, p.early, p.StartOf(q) + r)
    ensures p.Next(p.StartOf(q) + r) == A.NextAt(ws, p.early, p.StartOf(q) + r)
  {
    p.At(q, r);
    p.StartsGrow(q, q + 1);
    OpenWindow(p, ws, q, r);
    InWindow(p.StartOf(q), p.window, p.period, p.early, r);
  }

  /** The answers of the window at `s`, or of the next one when that is over, at offset r. */
  lemma InWindow(s: int, window: nat, period: int, early: int, r: nat)
    requires early >= 0 && window <= period && r < period
    ensures var w := if r < window then A.Window(s, s + window, 0) else A.Window(s + period, s + period + window, 0);
            && A.StateIn(w, early, s + r) ==
                 (if r < window then Active else if r < period - early then Inactive else Established)
            && A.NextIn(w, early, s + r) ==
                 (if r < window then Transition(Some(s + window), Inactive)
                  else if r < period - early then Transition(Some(s + period - early), Established)
                  else Transition(Some(s + period), Active))
  {}

  /** The scan stops at the window that division finds, or at the next when that one is over. */
  lemma OpenWindow(p: Pattern, ws: seq<A.Window>, q: nat, r: nat)
    requires p.Valid() && 0 <= p.window <= p.period && Unrolled(p, ws)
    requires r < p.period && p.StartOf(q) + r < ws[|ws| - 1].end
    ensures A.FirstOpen(ws, p.StartOf(q) + r) == (if r < p.window then q else q + 1) < |ws|
  {
    var i := if r < p.window then q else q + 1;
    p.StartsGrow(q, q + 1);
    if i >= |ws| { p.StartsGrow(|ws| - 1, q); }
    forall k | 0 <= k < i ensures ws[k].end <= p.StartOf(q) + r { p.StartsGrow(k, q); }
    A.FirstOpenIs(ws, p.StartOf(q) + r, i);
  }

  // ----- durations above the interval ---------------------------------------------------------------

  lemma LongWindowsActive(p: Pattern, ws: seq<A.Window>, now: int)
    requires p.Valid() && p.window > p.period && Unrolled(p, ws) && now < ws[|ws| - 1].end
    ensures p.State(now) == A.StateAt(ws, p.early, now)
  {
    assert p.StartOf(0) == p.start;
    if now < p.start {
      A.FirstOpenIs(ws, now, 0);
    } else {
      var q, r := p.Position(now);
      p.At(q, r);
      var j := A.FirstOpen(ws, now);
      if j > 0 {
        assert ws[j - 1].end <= now;
        p.StartsGrow(j - 1, j);
      }
    }
  }

  /** With any duration the rule and the list of its windows give the same state. */
  lemma RuleStatesRefineWindows(rule: R.Rule, ticks: int, lead: int, n: nat, now: int)
    requires R.Repeats(rule, ticks, lead) && 0 <= rule.duration
    requires n >= 1 && now < Unroll(rule, ticks, n)[n - 1].end
    ensures R.CurrentState(Some(rule), ticks, lead, now) == A.StateAt(Unroll(rule, ticks, n), lead * ticks, now)
  {
    if rule.duration <= rule.interval {
      RuleRefinesWindows(rule, ticks, lead, n, now);
    } else {
      R.Untruncated(rule, ticks, lead, now);
      R.ScaledComparison(rule.interval, rule.duration, ticks);
      LongWindowsActive(R.InTicks(rule, ticks, lead), Unroll(rule, ticks, n), now);
    }
  }

  /** The rule and the list announce the same transition. */
  ghost predicate AnnouncesAlike(rule: R.Rule, ticks: int, lead: int, n: nat, now: int)
    requires R.Repeats(rule, ticks, lead)
  {
    R.NextTransition(rule, ticks, lead, now) == A.NextAt(Unroll(rule, ticks, n), lead * ticks, now)
  }

  lemma SecondStartDiffers(p: Pattern, ws: seq<A.Window>)
    requires p.Valid() && p.window > p.period && Unrolled(p, ws)
    ensures p.StartOf(1) < ws[|ws| - 1].end && p.Next(p.StartOf(1)) != A.NextAt(ws, p.early, p.StartOf(1))
  {
    assert p.StartOf(0) == p.start && p.StartOf(1) == p.start + p.period;
    p.At(1, 0);
    p.StartsGrow(0, |ws| - 1);
    A.FirstOpenIs(ws, p.StartOf(1), 0);
  }

  /** They announce the same transitions exactly if the duration fits into the interval. With a longer one the
      rule puts the end off at each start, while the list keeps to the end of the first window. */
  lemma RuleRefinesExactly(rule: R.Rule, ticks: int, lead: int, n: nat)
    requires R.Repeats(rule, ticks, lead) && 0 <= rule.duration && n >= 1
    ensures (forall now | now < Unroll(rule, ticks, n)[n - 1].end :: AnnouncesAlike(rule, ticks, lead, n, now)) <==>
            rule.duration <= rule.interval
  {
    if rule.duration <= rule.interval {
      forall now | now < Unroll(rule, ticks, n)[n - 1].end ensures AnnouncesAlike(rule, ticks, lead, n, now) {
        RuleRefinesWindows(rule, ticks, lead, n, now);
      }
    } else {
      var p := R.InTicks(rule, ticks, lead);
      R.Untruncated(rule, ticks, lead, p.StartOf(1));
      R.ScaledComparison(rule.interval, rule.duration, ticks);
      SecondStartDiffers(p, Unroll(rule, ticks, n));
      assert !AnnouncesAlike(rule, ticks, lead, n, p.StartOf(1));
    }
  }

  // ----- one interface ------------------------------------------------------------------------------

  /** `ActivePeriodsBase` and its three kinds. */
  datatype ActivePeriodsBase =
    | AlwaysActive
    | Windows(list: seq<A.Window>)
    | Repeating(rule: R.Rule)
  {
    /** `asked` is the state the distribution session was given by its owner. */
    function CurrentState(ticks: int, lead: int, asked: Option<DistState>, now: int): DistState
      requires ticks > 0 && (Repeating? ==> rule.interval != 0)
    {
      match this
      case AlwaysActive => if asked.Some? then asked.value else Active
      case Windows(list) => A.StateAt(list, lead * ticks, now)
      case Repeating(rule) => R.CurrentState(Some(rule), ticks, lead, now)
    }

    function NextTransition(ticks: int, lead: int, now: int): Transition
      requires ticks > 0 && (Repeating? ==> rule.interval != 0)
    {
      match this
      case AlwaysActive => Transition(None, NoVal)
      case Windows(list) => A.NextAt(list, lead * ticks, now)
      case Repeating(rule) => R.NextTransition(rule, ticks, lead, now)
    }

    /** Schedules that end no window before its start and repeat none before its end. */
    ghost predicate WellFormed(ticks: int, lead: int) {
      && ticks > 0 && lead >= 0
      && (Windows? ==> forall i | 0 <= i < |list| && A.Visible(list, i) :: A.Timely(list, lead * ticks, i))
      && (Repeating? ==> rule.start.Some? && rule.interval > 0 && rule.duration <= rule.interval)
    }
  }

  /** What each kind of schedule means. Without one a session is in the state it was asked to be in, or ACTIVE,
      and no transition is ever announced. A list of windows is active in the union of them, and established in
      the lead before each, which is counted in seconds. A rule is so for the windows it repeats. */
  lemma ScheduleMeans(s: ActivePeriodsBase, ticks: int, lead: int, asked: Option<DistState>, now: int)
    requires s.WellFormed(ticks, lead)
    ensures var state := s.CurrentState(ticks, lead, asked, now);
            match s
            case AlwaysActive =>
              && state == (if asked == None then Active else asked.value)
              && s.NextTransition(ticks, lead, now) == Transition(None, NoVal)
            case Windows(list) => A.Sorted(list) ==>
              && (state == Active <==> exists w :: w in list && A.Covers(w, now))
              && (state == Established <==>
                    !(exists w :: w in list && A.Covers(w, now)) && exists w :: w in list && A.Precedes(w, lead * ticks, now))
              && state in {Active, Established, Inactive}
            case Repeating(rule) =>
              var p := R.InTicks(rule, ticks, lead);
              && (state == Active <==> exists k: nat :: p.InWindow(k, now))
              && (state == Established <==> !(exists k: nat :: p.InWindow(k, now)) && exists k: nat :: p.InLead(k, now))
              && state in {Active, Established, Inactive}
  {
    match s
    case AlwaysActive =>
    case Windows(list) => if A.Sorted(list) { A.FirstMatchDecidesUnion(list, lead * ticks, now); }
    case Repeating(rule) => R.ClosedForm(rule, ticks, lead, now);
  }

  /** Of a rule whose start does not parse no state is ever known, and no transition. */
  lemma NothingKnown(rule: R.Rule, ticks: int, lead: int, asked: Option<DistState>, now: int)
    requires ticks > 0 && rule.interval != 0 && rule.start.None?
    ensures Repeating(rule).CurrentState(ticks, lead, asked, now) == NoVal
    ensures Repeating(rule).NextTransition(ticks, lead, now) == Transition(None, NoVal)
  {
  }

  /** Between a wake-up and the instant announced at it nothing changes, and that instant is still ahead;
      when none is announced nothing changes ever again. */
  lemma NothingMissed(s: ActivePeriodsBase, ticks: int, lead: int, asked: Option<DistState>, now: int, u: int)
    requires s.WellFormed(ticks, lead)
    requires var t := s.NextTransition(ticks, lead, now).at; now <= u && (t.Some? ==> u < t.value)
    ensures s.CurrentState(ticks, lead, asked, u) == s.CurrentState(ticks, lead, asked, now)
    ensures s.NextTransition(ticks, lead, u) == s.NextTransition(ticks, lead, now)
    ensures s.Windows? && s.NextTransition(ticks, lead, now).at.None? ==>
              s.CurrentState(ticks, lead, asked, u) == Inactive
    ensures var t := s.NextTransition(ticks, lead, now).at; t.Some? ==> now < t.value
  {
    AnnouncesTheFuture(s, ticks, lead, now);
    match s
    case AlwaysActive =>
    case Windows(list) =>
      Multiples(0, lead, ticks);
      A.HoldsExactly(list, lead * ticks);
      assert A.Holds(list, lead * ticks, now);
    case Repeating(rule) =>
      R.HoldsExactly(rule, ticks, lead);
      assert R.Holds(rule, ticks, lead, now);
  }

  // ----- runs of the timer --------------------------------------------------------------------------

  /** What a schedule answers at each instant: the state, and the next transition. */
  type Answers = int -> (DistState, Transition)

  ghost function AnswersOf(s: ActivePeriodsBase, ticks: int, lead: int, asked: Option<DistState>): Answers
    requires s.WellFormed(ticks, lead)
  {
    now => (s.CurrentState(ticks, lead, asked, now), s.NextTransition(ticks, lead, now))
  }

  /** `u` comes before the transition that is announced at `now`, if one is. */
  ghost predicate Before(answers: Answers, now: int, u: int) {
    var t := answers(now).1.at;
    t.Some? ==> u < t.value
  }

  /** Both answers stay the same until the announced transition, or for ever when none is announced. */
  ghost predicate Lossless(answers: Answers) {
    forall now, u | now <= u && Before(answers, now, u) :: answers(u) == answers(now)
  }

  lemma SchedulesAreLossless(s: ActivePeriodsBase, ticks: int, lead: int, asked: Option<DistState>)
    requires s.WellFormed(ticks, lead)
    ensures Lossless(AnswersOf(s, ticks, lead, asked))
  {
    var answers := AnswersOf(s, ticks, lead, asked);
    forall now, u | now <= u && Before(answers, now, u) ensures answers(u) == answers(now) {
      NothingMissed(s, ticks, lead, asked, now, u);
    }
  }

  /** A wake-up reads the clock twice: to sample the state, and afterwards to arm the timer for the next
      transition. */
  datatype WakeUp = WakeUp(sampled: int, armed: int)

  /** The wake-ups of a timer that is armed for the next transition at each of them. They may come early, in time
      or late. */
  ghost predicate TimerRun(answers: Answers, wakes: seq<WakeUp>) {
    && wakes != []
    && (forall i | 0 <= i < |wakes| :: wakes[i].sampled <= wakes[i].armed)
    && (forall i | 0 < i < |wakes| :: Wakes(answers, wakes[i - 1], wakes[i]))
  }

  ghost predicate Wakes(answers: Answers, last: WakeUp, wake: WakeUp) {
    answers(last.armed).1.at.Some? && last.armed <= wake.sampled
  }

  /** No transition falls between the two readings of a wake-up: the one announced at the first is still ahead at
      the second. */
  ghost predicate AllSteady(answers: Answers, wakes: seq<WakeUp>) {
    forall i | 0 <= i < |wakes| :: Before(answers, wakes[i].sampled, wakes[i].armed)
  }

  /** The last wake-up up to the i-th that came no earlier than the transition announced before it, or else the
      first. */
  ghost function LastDue(answers: Answers, wakes: seq<WakeUp>, i: nat): WakeUp
    requires i < |wakes|
  {
    if i == 0 || !Before(answers, wakes[i - 1].armed, wakes[i].sampled) then wakes[i]
    else LastDue(answers, wakes, i - 1)
  }

  /** Both readings of a wake-up tell the same, which holds until the transition announced at them. */
  lemma SteadySample(answers: Answers, wakes: seq<WakeUp>, i: nat, u: int)
    requires Lossless(answers) && TimerRun(answers, wakes) && AllSteady(answers, wakes)
    requires i < |wakes| && wakes[i].sampled <= u && Before(answers, wakes[i].armed, u)
    ensures answers(u) == answers(wakes[i].sampled)
  {
    assert Before(answers, wakes[i].sampled, wakes[i].armed);
    assert answers(wakes[i].armed) == answers(wakes[i].sampled);
    assert Before(answers, wakes[i].sampled, u);
  }

  lemma {:induction false} SampledAtLastDue(answers: Answers, wakes: seq<WakeUp>, i: nat, u: int)
    requires Lossless(answers) && TimerRun(answers, wakes) && AllSteady(answers, wakes)
    requires i < |wakes| && wakes[i].sampled <= u && Before(answers, wakes[i].armed, u)
    ensures answers(u) == answers(LastDue(answers, wakes, i).sampled)
  {
    SteadySample(answers, wakes, i, u);
    if i > 0 && Before(answers, wakes[i - 1].armed, wakes[i].sampled) {
      assert Wakes(answers, wakes[i - 1], wakes[i]);
      SampledAtLastDue(answers, wakes, i - 1, wakes[i].sampled);
    }
  }

  /** In a run of any length, from a wake-up until the transition announced at it the schedule gives the state
      that was sampled at the last wake-up that was due: the wake-ups in between come early, see the same state
      and are armed for the same instant again. No transition may fall between two readings of one wake-up. */
  lemma SampledStateIsCurrent(
    s: ActivePeriodsBase, ticks: int, lead: int, asked: Option<DistState>, wakes: seq<WakeUp>, i: nat, u: int)
    requires s.WellFormed(ticks, lead)
    requires TimerRun(AnswersOf(s, ticks, lead, asked), wakes) && AllSteady(AnswersOf(s, ticks, lead, asked), wakes)
    requires i < |wakes| && wakes[i].sampled <= u && Before(AnswersOf(s, ticks, lead, asked), wakes[i].armed, u)
    ensures var due := LastDue(AnswersOf(s, ticks, lead, asked), wakes, i).sampled;
            && s.CurrentState(ticks, lead, asked, u) == s.CurrentState(ticks, lead, asked, due)
            && s.NextTransition(ticks, lead, u) == s.NextTransition(ticks, lead, due)
  {
    var answers := AnswersOf(s, ticks, lead, asked);
    SchedulesAreLossless(s, ticks, lead, asked);
    SampledAtLastDue(answers, wakes, i, u);
    SameAnswersAt(s, ticks, lead, asked, u, LastDue(answers, wakes, i).sampled);
  }

  lemma SameAnswersAt(s: ActivePeriodsBase, ticks: int, lead: int, asked: Option<DistState>, u: int, v: int)
    requires s.WellFormed(ticks, lead)
    requires AnswersOf(s, ticks, lead, asked)(u) == AnswersOf(s, ticks, lead, asked)(v)
    ensures s.CurrentState(ticks, lead, asked, u) == s.CurrentState(ticks, lead, asked, v)
    ensures s.NextTransition(ticks, lead, u) == s.NextTransition(ticks, lead, v)
  {
  }

  /** So what was sampled is stale only while a wake-up is late: an instant from a wake-up on at which the state
      is another than the one sampled lies at or after the transition announced at that wake-up. */
  lemma StaleOnlyWhenLate(
    s: ActivePeriodsBase, ticks: int, lead: int, asked: Option<DistState>, wakes: seq<WakeUp>, i: nat, u: int)
    requires s.WellFormed(ticks, lead)
    requires TimerRun(AnswersOf(s, ticks, lead, asked), wakes) && AllSteady(AnswersOf(s, ticks, lead, asked), wakes)
    requires i < |wakes| && wakes[i].sampled <= u
    ensures var due := LastDue(AnswersOf(s, ticks, lead, asked), wakes, i).sampled;
            || s.CurrentState(ticks, lead, asked, u) == s.CurrentState(ticks, lead, asked, due)
            || !Before(AnswersOf(s, ticks, lead, asked), wakes[i].armed, u)
  {
    if Before(AnswersOf(s, ticks, lead, asked), wakes[i].armed, u) {
      SampledStateIsCurrent(s, ticks, lead, asked, wakes, i, u);
    }
  }

  /** A wake-up that is not steady: it comes just before a window and arms the timer just after its start, and the
      whole window passes with INACTIVE sampled, although no timer is late. */
  lemma WindowLostBetweenReadings(asked: Option<DistState>)
    ensures var s, wake := Windows([A.Window(10, 20, 1)]), WakeUp(9, 10);
            && s.WellFormed(1, 0) && !Before(AnswersOf(s, 1, 0, asked), wake.sampled, wake.armed)
            && s.CurrentState(1, 0, asked, wake.sampled) == Inactive
            && s.NextTransition(1, 0, wake.armed).at == Some(20)
            && forall u | 10 <= u < 20 :: s.CurrentState(1, 0, asked, u) == Active
  {
    var ws := [A.Window(10, 20, 1)];
    A.FirstOpenIs(ws, 9, 0);
    forall u | 10 <= u < 20 ensures A.FirstOpen(ws, u) == 0 {
      A.FirstOpenIs(ws, u, 0);
    }
  }

  // ----- arming the timer ---------------------------------------------------------------------------

  /** `duration_timer`: the delay in whole milliseconds of `ms` ticks each, none for an instant gone by.
      The difference is cut towards zero. */
  function DurationTimer(ms: int, now: int, at: int): nat
    requires ms > 0
  {
    if at - now <= 0 then 0 else (at - now) / ms
  }

  /** The timer is never late, and early by less than a millisecond; for an instant gone by it fires at once. */
  lemma ArmedWithinAMillisecond(ms: int, now: int, at: int)
    requires ms > 0
    ensures var delay := DurationTimer(ms, now, at);
            if at <= now then delay == 0 else at - ms < now + delay * ms <= at
  {
    assert (at - now) / ms * ms == at - now - (at - now) % ms;
  }

  /** The parts of `UserDataIngSession` that `startTimer` uses. */
  class SessionTimer {
    const activePeriods: ActivePeriodsBase
    var startTimer: bool
    var expires: Option<int>

    constructor (activePeriods: ActivePeriodsBase)
      ensures this.activePeriods == activePeriods && !startTimer && expires == None
    {
      this.activePeriods, startTimer, expires := activePeriods, false, None;
    }

    /** A timer that runs was started here. */
    ghost predicate Valid()
      reads this
    {
      expires.Some? ==> startTimer
    }

    /** Leaves the timer armed for the next transition, or not at all. The clock is read once more for the delay,
        at `later`; when the transition is reached by then, the timer is armed to fire at once. */
    method StartTimer(ticks: int, lead: int, ms: int, now: int, later: int) returns (armed: bool)
      requires Valid() && ms > 0 && now <= later && activePeriods.WellFormed(ticks, lead)
      modifies this
      ensures Valid() && startTimer == armed
      ensures var t := activePeriods.NextTransition(ticks, lead, now).at;
              && armed == expires.Some? == t.Some?
              && (armed ==> if t.value <= later then expires.value == later else t.value - ms < expires.value <= t.value)
    {
      if startTimer {
        expires := None;
        startTimer := false;
      }
      var transition := activePeriods.NextTransition(ticks, lead, now);
      if transition.at.Some? {
        ArmedWithinAMillisecond(ms, later, transition.at.value);
        var delay := DurationTimer(ms, later, transition.at.value);
        expires := Some(later + delay * ms);
        startTimer := true;
        return true;
      }
      return false;
    }
  }

  lemma AnnouncesTheFuture(s: ActivePeriodsBase, ticks: int, lead: int, now: int)
    requires s.WellFormed(ticks, lead)
    ensures var t := s.NextTransition(ticks, lead, now).at; t.Some? ==> now < t.value
  {
    match s
    case AlwaysActive =>
    case Windows(list) =>
    case Repeating(rule) =>
      R.HoldsExactly(rule, ticks, lead);
      assert R.Holds(rule, ticks, lead, now);
  }
}
