/** How one distribution session follows the state its schedule wants: the PATCH requests of
    `Nmb2Build::buildNmb2DistSessionPatch`, and the handlers of `UserDataIngSession` and
    `DistributionSessionInfo` that decide when one is sent.

    A PATCH never asks an ACTIVE session to become ESTABLISHED. It asks for INACTIVE first, and the report
    that the session is INACTIVE queues the second PATCH. */
module StateChanges {
  import opened Schedule

  // ----- the handlers -------------------------------------------------------------------------------

  /** What `ContextData` keeps about the state of one session: the state stored with its description, the one
      last asked for, the one last reported, and whether a change of state is under way. */
  datatype Context = Context(stored: DistState, requested: DistState, reported: DistState, stateUpdate: bool)

  /** What one handler leaves behind: the context, the states asked for by PATCH, the PATCH events queued. */
  datatype Outcome = Outcome(context: Context, sent: seq<DistState>, queued: nat)

  datatype Event = Wake | Response | Report(state: DistState) | Failure | LocalPatch

  /** The state that a PATCH asks for, if there is one to ask for. */
  function Requested(c: Context, want: DistState): DistState {
    if !c.stateUpdate || want == c.reported then NoVal
    else if want == Established && c.reported == Active then Inactive
    else want
  }

  function Sending(c: Context, want: DistState): Outcome {
    var asked := Requested(c, want);
    if asked == NoVal then Outcome(c, [NoVal], 0) else Outcome(c.(requested := asked), [asked], 0)
  }

  function Woken(c: Context, want: DistState): Outcome {
    if want == c.requested then Outcome(c, [], 0)
    else
      var changing := c.(stateUpdate := true, stored := want);
      if want == c.reported then Outcome(changing, [], 0) else Sending(changing, want)
  }

  /** What each event does to a context while the schedule wants the state `want`. */
  function Handled(c: Context, e: Event, want: DistState): Outcome {
    match e
    case Wake => Woken(c, want)
    case Response =>
      var settled := c.(stateUpdate := false);
      if c.stored == want then Outcome(settled, [], 0) else Woken(settled, want)
    case Report(state) =>
      var told := c.(reported := state);
      if state == Inactive && c.stored == Established then Outcome(told.(stateUpdate := true), [], 1)
      else Outcome(told, [], 0)
    case Failure =>
      Outcome(c.(stored := Inactive), [], 0)
    case LocalPatch =>
      if c.stateUpdate && c.reported != want then Sending(c, want) else Outcome(c, [], 0)
  }

  class ContextData {
    var stored: DistState
    var lastRequested: DistState
    var lastReported: DistState
    var stateUpdate: bool

    constructor ()
      ensures Contents() == Context(NoVal, NoVal, NoVal, false)
    {
      stored, lastRequested, lastReported, stateUpdate := NoVal, NoVal, NoVal, false;
    }

    ghost function Contents(): Context
      reads this
    {
      Context(stored, lastRequested, lastReported, stateUpdate)
    }

    method BuildPatch(want: DistState) returns (asked: DistState)
      modifies `lastRequested
      ensures Outcome(Contents(), [asked], 0) == Sending(old(Contents()), want)
    {
      asked := NoVal;
      if stateUpdate {
        if want != lastReported {
          if want == Established && lastReported == Active {
            asked := Inactive;
          } else {
            asked := want;
          }
        }
      }
      if asked != NoVal {
        lastRequested := asked;
      }
    }

    method ChangeState(want: DistState) returns (sent: seq<DistState>)
      modifies this
      ensures Outcome(Contents(), sent, 0) == Handled(old(Contents()), Wake, want)
    {
      sent := [];
      if want != lastRequested {
        stateUpdate := true;
        stored := want;
        if want != lastReported {
          var asked := BuildPatch(want);
          sent := [asked];
        }
      }
    }

    method HandlePatchUpdateResponse(want: DistState) returns (sent: seq<DistState>)
      modifies this
      ensures Outcome(Contents(), sent, 0) == Handled(old(Contents()), Response, want)
    {
      sent := [];
      stateUpdate := false;
      if stored != want {
        sent := ChangeState(want);
      }
    }

    method ProcessReport(state: DistState) returns (queued: nat)
      modifies this
      ensures forall want :: Outcome(Contents(), [], queued) == Handled(old(Contents()), Report(state), want)
    {
      queued := 0;
      lastReported := state;
      if lastReported == Inactive && stored == Established {
        stateUpdate := true;
        queued := 1;
      }
    }

    method ProcessFailure()
      modifies `stored
      ensures forall want :: Outcome(Contents(), [], 0) == Handled(old(Contents()), Failure, want)
    {
      stored := Inactive;
    }

    method SendLocalPatch(want: DistState) returns (sent: seq<DistState>)
      modifies this
      ensures Outcome(Contents(), sent, 0) == Handled(old(Contents()), LocalPatch, want)
    {
      sent := [];
      if stateUpdate && lastReported != want {
        var asked := BuildPatch(want);
        sent := [asked];
      }
    }
  }

  // ----- any run: never from ACTIVE straight to ESTABLISHED -----------------------------------------

  /** An event, and the state that the schedule wants when it is handled. */
  datatype Occurrence = Occurrence(event: Event, want: DistState)

  function Run(c: Context, run: seq<Occurrence>): Context {
    if run == [] then c
    else
      var last := run[|run| - 1];
      Handled(Run(c, run[..|run| - 1]), last.event, last.want).context
  }

  /** The state that the reports of a run speak of last. */
  function LastReport(initial: DistState, run: seq<Occurrence>): DistState {
    if run == [] then initial
    else
      var last := run[|run| - 1].event;
      if last.Report? then last.state else LastReport(initial, run[..|run| - 1])
  }

  lemma {:induction false} ReportedIsLastReport(c: Context, run: seq<Occurrence>)
    ensures Run(c, run).reported == LastReport(c.reported, run)
  {
    if run != [] {
      ReportedIsLastReport(c, run[..|run| - 1]);
    }
  }

  lemma SendsOneHop(c: Context, e: Event, want: DistState)
    requires want != NoVal
    ensures var sent := Handled(c, e, want).sent;
            && |sent| <= 1
            && (sent != [] ==> sent[0] == if c.reported == Active && want == Established then Inactive else want)
            && (sent != [] ==> want != c.reported)
  {
  }

  lemma AsksForLast(c: Context, e: Event, want: DistState)
    requires want != NoVal
    ensures var handled := Handled(c, e, want);
            handled.context.requested == if handled.sent == [] then c.requested else handled.sent[0]
  {
  }

  /** Whatever happened before, in whatever order and however the schedule changed: no handler asks for
      ESTABLISHED while the last report was ACTIVE, and none asks for the state that the last report gave. */
  lemma NeverStraightToEstablished(c: Context, run: seq<Occurrence>, i: nat)
    requires i < |run| && run[i].want != NoVal
    ensures var sent := Handled(Run(c, run[..i]), run[i].event, run[i].want).sent;
            var last := LastReport(c.reported, run[..i]);
            && |sent| <= 1
            && last !in sent
            && (last == Active ==> Established !in sent)
            && (sent != [] ==> sent[0] == run[i].want || (last == Active && run[i].want == Established && sent[0] == Inactive))
  {
    ReportedIsLastReport(c, run[..i]);
    SendsOneHop(Run(c, run[..i]), run[i].event, run[i].want);
  }

  /** What the builder of a PATCH does, whoever calls it. It asks for nothing exactly if no change of state is under
      way, or the state is there, or none is wanted; then what was asked for last stays on record. Otherwise it asks
      for the wanted state, or on the way from ACTIVE to ESTABLISHED for INACTIVE, and once that is reported for
      ESTABLISHED. */
  lemma BuilderAsks(c: Context, want: DistState)
    ensures var o := Sending(c, want);
            && |o.sent| == 1 && o.queued == 0
            && (o.sent[0] == NoVal <==> !c.stateUpdate || want == c.reported || want == NoVal)
            && (if o.sent[0] == NoVal then o.context == c
                else if c.reported == Active && want == Established then
                  && o.sent[0] == o.context.requested == Inactive
                  && Sending(o.context.(reported := Inactive), want).sent == [Established]
                else o.sent[0] == o.context.requested == want)
            && o.context.(requested := c.requested) == c
  {
  }

  /** A failure of the session ends a detour: it sends and queues nothing, and until the next wake-up no report
      queues the second PATCH. The response that is still to come wakes the session, unless INACTIVE is wanted. */
  lemma {:induction false} FailureEndsDetour(c: Context, reports: seq<Occurrence>, state: DistState, want: DistState)
    requires forall r | r in reports :: r.event.Report? || r.event.Failure?
    ensures var failed := Handled(c, Failure, want);
            var later := Run(failed.context, reports);
            && failed.sent == [] && failed.queued == 0
            && Handled(later, Report(state), want).queued == 0
            && later.stored == Inactive && later.requested == c.requested
            && (Handled(later, Response, want).sent != [] <==> want !in {Inactive, c.requested, later.reported})
  {
    if reports != [] {
      FailureEndsDetour(c, reports[..|reports| - 1], state, want);
      assert reports[|reports| - 1] in reports;
    }
  }

  // ----- the schedule stands still: the session gets there ------------------------------------------

  /** A context together with the MBSTF, which answers each PATCH and later reports the state it asked for. */
  datatype System = System(
    context: Context, unanswered: nat, coming: seq<DistState>, queued: nat, patches: nat, wakes: nat)
  {
    /** Nothing is on its way. */
    predicate Quiet() {
      unanswered == 0 && coming == [] && queued == 0
    }
  }

  datatype Step = Waking | Answering | Reporting | Patching

  predicate Enabled(s: System, step: Step) {
    match step
    case Waking => true
    case Answering => s.unanswered > 0
    case Reporting => s.coming != []
    case Patching => s.queued > 0
  }

  /** A report is handled after the response to the PATCH that caused it. */
  predicate Orderly(s: System, step: Step) {
    Enabled(s, step) && (step == Reporting ==> s.unanswered < |s.coming|)
  }

  function Happening(s: System, step: Step): Event
    requires Enabled(s, step)
  {
    match step
    case Waking => Wake
    case Answering => Response
    case Reporting => Report(s.coming[0])
    case Patching => LocalPatch
  }

  function Next(s: System, step: Step, want: DistState): System
    requires Enabled(s, step)
  {
    var handled := Handled(s.context, Happening(s, step), want);
    var coming := (if step == Reporting then s.coming[1..] else s.coming) + handled.sent;
    System(handled.context,
           (if step == Answering then s.unanswered - 1 else s.unanswered) + |handled.sent|,
           coming,
           (if step == Patching then s.queued - 1 else s.queued) + handled.queued,
           s.patches + |handled.sent|,
           if step == Waking then s.wakes + 1 else s.wakes)
  }

  ghost predicate Possible(s: System, steps: seq<Step>, want: DistState, orderly: bool)
    decreases steps
  {
    steps == [] ||
    (&& (if orderly then Orderly(s, steps[0]) else Enabled(s, steps[0]))
     && Possible(Next(s, steps[0], want), steps[1..], want, orderly))
  }

  function After(s: System, steps: seq<Step>, want: DistState): System
    requires Possible(s, steps, want, false)
    decreases steps
  {
    if steps == [] then s else After(Next(s, steps[0], want), steps[1..], want)
  }

  /** A session with nothing under way. */
  function Settled(c: Context): System {
    System(c, 0, [], 0, 0, 0)
  }

  function Detours(coming: seq<DistState>, want: DistState): nat {
    if coming == [] then 0
    else (if want == Established && coming[0] == Inactive then 1 else 0) + Detours(coming[1..], want)
  }

  lemma {:induction false} DetoursAppend(coming: seq<DistState>, sent: DistState, want: DistState)
    ensures Detours(coming + [sent], want) ==
            Detours(coming, want) + (if want == Established && sent == Inactive then 1 else 0)
  {
    if coming == [] {
      assert coming + [sent] == [sent];
    } else {
      DetoursAppend(coming[1..], sent, want);
      assert (coming + [sent])[1..] == coming[1..] + [sent];
    }
  }

  /** The reports to come: the detours first, then the wanted state. */
  ghost predicate Heading(coming: seq<DistState>, want: DistState) {
    && (forall i | 0 <= i < |coming| :: coming[i] == want || (want == Established && coming[i] == Inactive))
    && (forall i, j | 0 <= i < j < |coming| && coming[j] == Inactive :: coming[i] == Inactive)
  }

  /** What every orderly step keeps, from the first wake-up on. */
  ghost predicate Underway(s: System, want: DistState) {
    var c := s.context;
    && c.stored == want
    && s.unanswered <= |s.coming|
    && Heading(s.coming, want)
    && (want != Established ==> s.queued == 0)
    && (want == Established && c.reported == Active ==>
          s.coming != [] && s.queued == 0 && forall i | 0 <= i < |s.coming| :: s.coming[i] == Inactive)
    && (s.coming == [] && c.reported != want ==> c.reported == Inactive && c.stateUpdate && s.queued > 0)
    && s.patches + s.queued + Detours(s.coming, want) <= 2 * s.wakes
  }

  lemma FirstHop(c: Context, asked: DistState, want: DistState)
    requires c.stored == want && c.reported != want
    requires asked == if want == Established && c.reported == Active then Inactive else want
    ensures Underway(System(c, 1, [asked], 0, 1, 1), want)
  {
    assert [asked][1..] == [];
    assert Detours([asked], want) <= 1;
  }

  lemma FirstWake(c: Context, want: DistState)
    requires want != NoVal && c.requested != want
    ensures Underway(Next(Settled(c), Waking, want), want)
  {
    var s := Next(Settled(c), Waking, want);
    if c.reported == want {
      assert s.coming == [];
    } else {
      var asked := if want == Established && c.reported == Active then Inactive else want;
      assert s.coming == [asked];
      assert s == System(s.context, 1, [asked], 0, 1, 1);
      FirstHop(s.context, asked, want);
    }
  }

  lemma HeadingAppend(coming: seq<DistState>, sent: DistState, want: DistState)
    requires Heading(coming, want)
    requires || (sent == want && (want == Inactive ==> forall i | 0 <= i < |coming| :: coming[i] == Inactive))
             || (want == Established && sent == Inactive && forall i | 0 <= i < |coming| :: coming[i] == Inactive)
    ensures Heading(coming + [sent], want)
  {
  }

  /** A PATCH that is sent while a change is under way. */
  lemma SendingStaysUnderway(s: System, next: System, asked: DistState, want: DistState)
    requires want != NoVal && Underway(s, want) && s.context.reported != want
    requires asked == if want == Established && s.context.reported == Active then Inactive else want
    requires next.coming == s.coming + [asked] && next.unanswered == s.unanswered + 1 && next.patches == s.patches + 1
    requires next.context.stored == want && next.context.reported == s.context.reported
    requires || (next.queued == s.queued && next.wakes == s.wakes + 1)
             || (next.queued == s.queued - 1 && next.wakes == s.wakes)
    ensures Underway(next, want)
  {
    DetoursAppend(s.coming, asked, want);
    HeadingAppend(s.coming, asked, want);
  }

  lemma WakingStaysUnderway(s: System, want: DistState)
    requires want != NoVal && Underway(s, want)
    ensures Underway(Next(s, Waking, want), want)
  {
    var c, next := s.context, Next(s, Waking, want);
    if want == c.requested || want == c.reported {
      assert next.coming == s.coming;
    } else {
      SendingStaysUnderway(s, next, Handled(c, Wake, want).sent[0], want);
    }
  }

  lemma PatchingStaysUnderway(s: System, want: DistState)
    requires want != NoVal && Underway(s, want) && s.queued > 0
    ensures Underway(Next(s, Patching, want), want)
  {
    var c, next := s.context, Next(s, Patching, want);
    if c.stateUpdate && c.reported != want {
      SendingStaysUnderway(s, next, Handled(c, LocalPatch, want).sent[0], want);
    } else {
      assert next.coming == s.coming;
    }
  }

  lemma AnsweringStaysUnderway(s: System, want: DistState)
    requires want != NoVal && Underway(s, want) && s.unanswered > 0
    ensures Underway(Next(s, Answering, want), want)
  {
    assert s.coming + [] == s.coming;
  }

  lemma ReportingStaysUnderway(s: System, want: DistState)
    requires want != NoVal && Underway(s, want) && Orderly(s, Reporting)
    ensures Underway(Next(s, Reporting, want), want)
  {
    assert s.coming[1..] + [] == s.coming[1..];
  }

  lemma StepStaysUnderway(s: System, step: Step, want: DistState)
    requires want != NoVal && Underway(s, want) && Orderly(s, step)
    ensures Underway(Next(s, step, want), want)
  {
    match step
    case Waking => WakingStaysUnderway(s, want);
    case Answering => AnsweringStaysUnderway(s, want);
    case Reporting => ReportingStaysUnderway(s, want);
    case Patching => PatchingStaysUnderway(s, want);
  }

  lemma {:induction false} OrderlyIsPossible(s: System, steps: seq<Step>, want: DistState)
    requires Possible(s, steps, want, true)
    ensures Possible(s, steps, want, false)
    decreases steps
  {
    if steps != [] {
      OrderlyIsPossible(Next(s, steps[0], want), steps[1..], want);
    }
  }

  lemma {:induction false} RunStaysUnderway(s: System, steps: seq<Step>, want: DistState)
    requires want != NoVal && Underway(s, want) && Possible(s, steps, want, true)
    ensures Possible(s, steps, want, false) && Underway(After(s, steps, want), want)
    decreases steps
  {
    OrderlyIsPossible(s, steps, want);
    if steps != [] {
      StepStaysUnderway(s, steps[0], want);
      RunStaysUnderway(Next(s, steps[0], want), steps[1..], want);
    }
  }

  /** An upper bound on the events still to be handled. */
  function Outstanding(s: System, want: DistState): nat {
    s.unanswered + |s.coming| + 3 * s.queued + 3 * Detours(s.coming, want)
  }

  /** Every step that is not a further wake-up brings the end nearer, and until the end there is one to take. */
  lemma Progress(s: System, step: Step, want: DistState)
    requires want != NoVal && Underway(s, want)
    ensures Orderly(s, step) && step != Waking ==> Outstanding(Next(s, step, want), want) < Outstanding(s, want)
    ensures s.Quiet() || Orderly(s, Answering) || Orderly(s, Reporting) || Orderly(s, Patching)
    ensures Outstanding(s, want) == 0 <==> s.Quiet()
  {
    if Orderly(s, step) && step != Waking {
      var sent := Handled(s.context, Happening(s, step), want).sent;
      if step == Patching && sent != [] {
        assert sent == [sent[0]];
        DetoursAppend(s.coming, sent[0], want);
      } else if step == Reporting {
        assert s.coming[1..] + [] == s.coming[1..];
      } else {
        assert s.coming + [] == s.coming;
      }
    }
  }

  function Wakes(steps: seq<Step>): nat {
    if steps == [] then 0 else (if steps[0] == Waking then 1 else 0) + Wakes(steps[1..])
  }

  lemma {:induction false} WakesAreCounted(s: System, steps: seq<Step>, want: DistState)
    requires Possible(s, steps, want, false)
    ensures After(s, steps, want).wakes == s.wakes + Wakes(steps)
    decreases steps
  {
    if steps != [] {
      WakesAreCounted(Next(s, steps[0], want), steps[1..], want);
    }
  }

  /** A session on which nothing is asked: neither a wake-up nor anything else changes what was reported. */
  lemma {:induction false} NothingToAsk(c: Context, s: System, steps: seq<Step>, want: DistState)
    requires c.requested == want && s.context == c && s.Quiet() && s.patches == 0
    requires Possible(s, steps, want, false)
    ensures var end := After(s, steps, want); end.context == c && end.Quiet() && end.patches == 0
    decreases steps
  {
    if steps != [] {
      assert steps[0] == Waking;
      assert s.coming + [] == s.coming;
      NothingToAsk(c, Next(s, steps[0], want), steps[1..], want);
    }
  }

  /** Two hops at most. The schedule keeps wanting the same state, the timer wakes the session and may wake it
      again at any time, and each response is handled before the report that its PATCH caused. Then a run that
      has come to rest ends in the wanted state with at most two PATCH requests per wake-up, exactly if the
      state was not the last one asked for already, or was already there. */
  lemma ConvergesExactly(c: Context, steps: seq<Step>, want: DistState)
    requires want != NoVal
    requires Possible(Settled(c), [Waking] + steps, want, true)
    ensures Possible(Settled(c), [Waking] + steps, want, false)
    ensures var end := After(Settled(c), [Waking] + steps, want);
            && end.patches <= 2 * (1 + Wakes(steps))
            && (end.Quiet() ==> (end.context.reported == want <==> c.requested != want || c.reported == want))
  {
    var s := Settled(c);
    var all := [Waking] + steps;
    assert all[0] == Waking && all[1..] == steps;
    OrderlyIsPossible(s, all, want);
    WakesAreCounted(s, all, want);
    if c.requested != want {
      FirstWake(c, want);
      RunStaysUnderway(Next(s, Waking, want), steps, want);
    } else {
      NothingToAsk(c, s, all, want);
    }
  }

  // ----- a response that is late --------------------------------------------------------------------

  /** Some response is handled while a PATCH event is queued. */
  predicate Overtaken(s: System, steps: seq<Step>, want: DistState)
    requires Possible(s, steps, want, false)
    decreases steps
  {
    steps != [] &&
    (|| (steps[0] == Answering && s.queued > 0)
     || Overtaken(Next(s, steps[0], want), steps[1..], want))
  }

  /** What every step keeps after a single wake-up, in whatever order responses and reports are handled. */
  ghost predicate OnTheWay(s: System, want: DistState) {
    var c := s.context;
    && c.stored == want
    && |s.coming| <= 1
    && Heading(s.coming, want)
    && (s.queued > 0 ==> s.queued == 1 && s.coming == [] && want == Established && c.reported == Inactive && c.stateUpdate)
    && (s.coming == [] && s.queued == 0 ==> c.reported == want)
    && (s.coming == [Inactive] && want == Established ==> s.unanswered <= 1)
    && (s.queued == 1 ==> s.unanswered <= 1)
  }

  /** The queued event will find that no change is under way, and nothing else is to come. */
  predicate Stuck(s: System, want: DistState) {
    var c := s.context;
    want == Established && c.stored == want && c.reported == Inactive && !c.stateUpdate && s.coming == [] && s.unanswered == 0
  }

  lemma StepOnTheWay(s: System, step: Step, want: DistState)
    requires want != NoVal && step != Waking && Enabled(s, step) && OnTheWay(s, want)
    ensures var next := Next(s, step, want);
            if step == Answering && s.queued > 0 then Stuck(next, want) else OnTheWay(next, want)
  {
    var sent := Handled(s.context, Happening(s, step), want).sent;
    match step
    case Answering => assert s.coming + sent == s.coming;
    case Reporting => assert s.coming[1..] + sent == [];
    case Patching => assert s.coming + sent == [want];
  }

  lemma {:induction false} StuckForGood(s: System, steps: seq<Step>, want: DistState)
    requires Stuck(s, want) && Possible(s, steps, want, false) && Wakes(steps) == 0
    ensures Stuck(After(s, steps, want), want)
    decreases steps
  {
    if steps != [] {
      assert s.coming + [] == s.coming;
      StuckForGood(Next(s, steps[0], want), steps[1..], want);
    }
  }

  lemma {:induction false} StuckOrOnTheWay(s: System, steps: seq<Step>, want: DistState)
    requires want != NoVal && OnTheWay(s, want) && Possible(s, steps, want, false) && Wakes(steps) == 0
    ensures var end := After(s, steps, want);
            if Overtaken(s, steps, want) then Stuck(end, want) else OnTheWay(end, want)
    decreases steps
  {
    if steps != [] {
      StepOnTheWay(s, steps[0], want);
      var next := Next(s, steps[0], want);
      if steps[0] == Answering && s.queued > 0 {
        StuckForGood(next, steps[1..], want);
      } else {
        StuckOrOnTheWay(next, steps[1..], want);
      }
    }
  }

  lemma AloneOnTheWay(c: Context, want: DistState)
    requires want != NoVal && c.requested != want
    ensures OnTheWay(Next(Settled(c), Waking, want), want)
  {
    var sent := Handled(c, Wake, want).sent;
    assert Next(Settled(c), Waking, want).coming == sent;
    assert c.reported != want ==> sent == [sent[0]];
  }

  /** Without the assumption on the order, a change that is due gets there after its single wake-up exactly if
      no response is handled while the second PATCH is queued. Otherwise the session stays INACTIVE. */
  lemma ConvergesUnlessOvertaken(c: Context, steps: seq<Step>, want: DistState)
    requires want != NoVal && c.requested != want && Wakes(steps) == 0
    requires Possible(Next(Settled(c), Waking, want), steps, want, false)
    requires After(Next(Settled(c), Waking, want), steps, want).Quiet()
    ensures var start := Next(Settled(c), Waking, want);
            var end := After(start, steps, want).context.reported;
            && (end == want <==> !Overtaken(start, steps, want))
            && (end != want ==> want == Established && end == Inactive)
  {
    AloneOnTheWay(c, want);
    StuckOrOnTheWay(Next(Settled(c), Waking, want), steps, want);
  }

  /** Such a run: the report comes first, then the response, then the queued event, which does nothing. */
  lemma OvertakenRun()
    ensures var c := Context(Active, Active, Active, false);
            var start := Next(Settled(c), Waking, Established);
            var steps := [Reporting, Answering, Patching];
            && Possible(start, steps, Established, false)
            && After(start, steps, Established).Quiet()
            && After(start, steps, Established).context.reported == Inactive
            && Overtaken(start, steps, Established)
  {
    var start := Next(Settled(Context(Active, Active, Active, false)), Waking, Established);
    assert start.coming == [Inactive];
  }
}
