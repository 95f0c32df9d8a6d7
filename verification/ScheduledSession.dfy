/** The timer and the PATCH protocol together: at each wake-up the session is sent towards the state that the
    schedule gives, and comes to rest before the next one. */
module ScheduledSession {
  import opened Schedule
  import opened StateChanges
  import A = ActivePeriods
  import T = ActivationTimer

  // ----- one wake-up --------------------------------------------------------------------------------

  /** What was asked for last is what comes last, or what was reported when nothing is to come. */
  ghost predicate CaughtUp(s: System) {
    s.context.requested == if s.coming == [] then s.context.reported else s.coming[|s.coming| - 1]
  }

  lemma StepStaysCaughtUp(s: System, step: Step, want: DistState)
    requires want != NoVal && CaughtUp(s) && Enabled(s, step)
    ensures CaughtUp(Next(s, step, want))
  {
    var handled := Handled(s.context, Happening(s, step), want);
    AsksForLast(s.context, Happening(s, step), want);
    var before := if step == Reporting then s.coming[1..] else s.coming;
    if handled.sent == [] {
      assert before + handled.sent == before;
      KeepsReported(s.context, Happening(s, step), want);
    } else {
      SendsOneHop(s.context, Happening(s, step), want);
      assert handled.sent == [handled.sent[0]];
    }
  }

  lemma KeepsReported(c: Context, e: Event, want: DistState)
    ensures Handled(c, e, want).context.reported == if e.Report? then e.state else c.reported
  {
  }

  lemma {:induction false} RunStaysCaughtUp(s: System, steps: seq<Step>, want: DistState)
    requires want != NoVal && CaughtUp(s) && Possible(s, steps, want, false)
    ensures CaughtUp(After(s, steps, want))
    decreases steps
  {
    if steps != [] {
      StepStaysCaughtUp(s, steps[0], want);
      RunStaysCaughtUp(Next(s, steps[0], want), steps[1..], want);
    }
  }

  /** A wake-up of a session at rest, and what follows it until the session is at rest again. */
  ghost predicate Round(c: Context, want: DistState, steps: seq<Step>, next: Context) {
    && Possible(Settled(c), [Waking] + steps, want, true)
    && Possible(Settled(c), [Waking] + steps, want, false)
    && After(Settled(c), [Waking] + steps, want).Quiet()
    && After(Settled(c), [Waking] + steps, want).context == next
  }

  /** It leads from a state that was asked for and reported to the wanted one, asked for and reported. */
  lemma RoundArrives(c: Context, want: DistState, steps: seq<Step>, next: Context)
    requires want != NoVal && c.requested == c.reported && Round(c, want, steps, next)
    ensures next.requested == next.reported == want
  {
    ConvergesExactly(c, steps, want);
    RunStaysCaughtUp(Settled(c), [Waking] + steps, want);
  }

  // ----- a run of wake-ups --------------------------------------------------------------------------

  ghost predicate Rounds(contexts: seq<Context>, wants: seq<DistState>, rounds: seq<seq<Step>>) {
    && |contexts| == |wants| + 1 == |rounds| + 1
    && forall i | 0 <= i < |wants| :: Round(contexts[i], wants[i], rounds[i], contexts[i + 1])
  }

  lemma {:induction false} RoundsArrive(contexts: seq<Context>, wants: seq<DistState>, rounds: seq<seq<Step>>, i: nat)
    requires Rounds(contexts, wants, rounds) && i < |wants|
    requires contexts[0].requested == contexts[0].reported && NoVal !in wants
    ensures contexts[i + 1].requested == contexts[i + 1].reported == wants[i]
  {
    if i > 0 {
      RoundsArrive(contexts, wants, rounds, i - 1);
    }
    assert wants[i] in wants;
    assert Round(contexts[i], wants[i], rounds[i], contexts[i + 1]);
    RoundArrives(contexts[i], wants[i], rounds[i], contexts[i + 1]);
  }

  /** The states sampled at the wake-ups. */
  ghost predicate Samples(answers: T.Answers, wakes: seq<T.WakeUp>, wants: seq<DistState>) {
    |wants| == |wakes| && forall i | 0 <= i < |wants| :: wants[i] == answers(wakes[i].sampled).0
  }

  lemma SchedulesGiveStates(s: T.ActivePeriodsBase, ticks: int, lead: int, asked: Option<DistState>, now: int)
    requires s.WellFormed(ticks, lead) && asked != Some(NoVal)
    ensures s.CurrentState(ticks, lead, asked, now) != NoVal
  {
  }

  /** A session that starts in the state last asked for follows its schedule. Whatever order responses, reports
      and queued events take between two wake-ups, each response coming before the report it causes: once the
      session is at rest after a wake-up, the state it reports is the one that the schedule gives, from the
      wake-up until the transition announced at it. */
  lemma FollowsSchedule(
    s: T.ActivePeriodsBase, ticks: int, lead: int, asked: Option<DistState>, wakes: seq<T.WakeUp>,
    contexts: seq<Context>, wants: seq<DistState>, rounds: seq<seq<Step>>, i: nat, u: int)
    requires s.WellFormed(ticks, lead) && asked != Some(NoVal)
    requires var answers := T.AnswersOf(s, ticks, lead, asked);
             && T.TimerRun(answers, wakes) && T.AllSteady(answers, wakes) && Samples(answers, wakes, wants)
             && i < |wakes| && wakes[i].sampled <= u && T.Before(answers, wakes[i].armed, u)
    requires Rounds(contexts, wants, rounds) && contexts[0].requested == contexts[0].reported
    ensures contexts[i + 1].reported == s.CurrentState(ticks, lead, asked, u)
  {
    var answers := T.AnswersOf(s, ticks, lead, asked);
    forall k | 0 <= k < |wants| ensures wants[k] != NoVal {
      SchedulesGiveStates(s, ticks, lead, asked, wakes[k].sampled);
    }
    RoundsArrive(contexts, wants, rounds, i);
    T.SchedulesAreLossless(s, ticks, lead, asked);
    T.SteadySample(answers, wakes, i, u);
  }

  /** A session without a schedule is woken once, and from the moment at which it comes to rest it reports ACTIVE
      for ever, or the state that it was asked to be in. */
  lemma WithoutSchedule(
    ticks: int, lead: int, asked: Option<DistState>, wakes: seq<T.WakeUp>,
    contexts: seq<Context>, wants: seq<DistState>, rounds: seq<seq<Step>>)
    requires ticks > 0 && lead >= 0 && asked != Some(NoVal)
    requires var answers := T.AnswersOf(T.AlwaysActive, ticks, lead, asked);
             T.TimerRun(answers, wakes) && Samples(answers, wakes, wants)
    requires Rounds(contexts, wants, rounds) && contexts[0].requested == contexts[0].reported
    ensures |wakes| == 1
    ensures contexts[1].reported == match asked { case None => Active case Some(state) => state }
  {
    var answers := T.AnswersOf(T.AlwaysActive, ticks, lead, asked);
    forall now ensures answers(now).1.at == None {
      T.ScheduleMeans(T.AlwaysActive, ticks, lead, asked, now);
    }
    assert |wakes| > 1 ==> T.Wakes(answers, wakes[0], wakes[1]);
    FollowsSchedule(T.AlwaysActive, ticks, lead, asked, wakes, contexts, wants, rounds, 0, wakes[0].sampled);
    T.ScheduleMeans(T.AlwaysActive, ticks, lead, asked, wakes[0].sampled);
  }

  /** From the clock to the report: at rest the session reports ACTIVE just in the windows of its list, and
      ESTABLISHED just in the leads before them. */
  lemma FollowsWindows(
    list: seq<A.Window>, ticks: int, lead: int, asked: Option<DistState>, wakes: seq<T.WakeUp>,
    contexts: seq<Context>, wants: seq<DistState>, rounds: seq<seq<Step>>, i: nat, u: int)
    requires T.Windows(list).WellFormed(ticks, lead) && A.Sorted(list) && asked != Some(NoVal)
    requires var answers := T.AnswersOf(T.Windows(list), ticks, lead, asked);
             && T.TimerRun(answers, wakes) && T.AllSteady(answers, wakes) && Samples(answers, wakes, wants)
             && i < |wakes| && wakes[i].sampled <= u && T.Before(answers, wakes[i].armed, u)
    requires Rounds(contexts, wants, rounds) && contexts[0].requested == contexts[0].reported
    ensures contexts[i + 1].reported ==
            if exists w :: w in list && A.Covers(w, u) then Active
            else if exists w :: w in list && A.Precedes(w, lead * ticks, u) then Established
            else Inactive
  {
    FollowsSchedule(T.Windows(list), ticks, lead, asked, wakes, contexts, wants, rounds, i, u);
    T.ScheduleMeans(T.Windows(list), ticks, lead, asked, u);
  }
}
