/** A schedule that changes its mind while PATCH requests, responses, reports and events are under way: for which
    sessions the last wake-up still leads to the wanted state. */
module ScheduleChanges {
  import opened Schedule
  import opened StateChanges

  // ----- sessions under any schedule ----------------------------------------------------------------

  /** A step, and the state that the schedule wants when it is taken. */
  datatype Move = Move(step: Step, want: DistState)

  ghost predicate Moves(s: System, moves: seq<Move>)
    decreases moves
  {
    moves == [] ||
    (&& moves[0].want != NoVal && Orderly(s, moves[0].step)
     && Moves(Next(s, moves[0].step, moves[0].want), moves[1..]))
  }

  function AfterMoves(s: System, moves: seq<Move>): System
    requires Moves(s, moves)
    decreases moves
  {
    if moves == [] then s else AfterMoves(Next(s, moves[0].step, moves[0].want), moves[1..])
  }

  /** What comes last is what was asked for last. */
  ghost predicate InStep(s: System) {
    s.unanswered <= |s.coming| && (s.coming != [] ==> s.coming[|s.coming| - 1] == s.context.requested)
  }

  lemma StepStaysInStep(s: System, step: Step, want: DistState)
    requires want != NoVal && InStep(s) && Orderly(s, step)
    ensures InStep(Next(s, step, want))
  {
    var handled := Handled(s.context, Happening(s, step), want);
    SendsOneHop(s.context, Happening(s, step), want);
    AsksForLast(s.context, Happening(s, step), want);
    var before := if step == Reporting then s.coming[1..] else s.coming;
    if handled.sent == [] {
      assert before + handled.sent == before;
    } else {
      assert handled.sent == [handled.sent[0]];
    }
  }

  /** However the schedule changes, a session stays in step. */
  lemma {:induction false} AnyScheduleStaysInStep(s: System, moves: seq<Move>)
    requires InStep(s) && Moves(s, moves)
    ensures InStep(AfterMoves(s, moves))
    decreases moves
  {
    if moves != [] {
      StepStaysInStep(s, moves[0].step, moves[0].want);
      AnyScheduleStaysInStep(Next(s, moves[0].step, moves[0].want), moves[1..]);
    }
  }

  // ----- where a wake-up leads ----------------------------------------------------------------------

  /** A state that a PATCH asks for on the way to the wanted one. */
  predicate Toward(state: DistState, want: DistState) {
    state == want || (want == Established && state == Inactive)
  }

  /** A report of INACTIVE is to come, and none of ESTABLISHED after it. */
  ghost predicate PendingDetour(coming: seq<DistState>) {
    exists j :: 0 <= j < |coming| && DetourAt(coming, j)
  }

  ghost predicate DetourAt(coming: seq<DistState>, j: nat)
    requires j < |coming|
  {
    coming[j] == Inactive && forall k | j < k < |coming| :: coming[k] != Established
  }

  /** Something will be sent at a wake-up, or nothing is to come, or what comes last leads to the wanted state. */
  predicate Promising(s: System, want: DistState) {
    s.context.reported != want || s.coming == [] || Toward(s.coming[|s.coming| - 1], want)
  }

  /** When a wake-up leads to the wanted state. If that was asked for last, the wake-up does nothing: the state is
      to come, or there, or an event is queued that will ask for it. Otherwise the session must be promising, or a
      detour is pending with no response outstanding, which could make the queued event find that no change is
      under way. */
  ghost predicate Leads(s: System, want: DistState) {
    var c := s.context;
    if c.requested == want then s.coming != [] || c.reported == want || (c.stateUpdate && s.queued > 0)
    else Promising(s, want) || (want == Established && s.unanswered == 0 && PendingDetour(s.coming))
  }

  /** The run does not come to rest in another state than the wanted one. */
  ghost predicate EndsWell(s: System, steps: seq<Step>, want: DistState) {
    Possible(s, steps, want, true) && Possible(s, steps, want, false) && After(s, steps, want).Quiet() ==>
      After(s, steps, want).context.reported == want
  }

  /** A wake-up for the state asked for last changes nothing and sends nothing. */
  lemma AskedAlready(s: System, want: DistState)
    requires s.context.requested == want
    ensures Next(s, Waking, want) == s.(wakes := s.wakes + 1)
  {
    assert s.coming + [] == s.coming;
  }

  // ----- sessions that are bound for the wanted state -----------------------------------------------

  /** What every orderly step keeps from then on. A session may still have another state stored when nothing but
      the wanted one was asked for, or when a response is outstanding that will put it right. */
  ghost predicate Bound(s: System, want: DistState) {
    var c := s.context;
    && s.unanswered <= |s.coming|
    && (s.coming != [] ==> Toward(s.coming[|s.coming| - 1], want))
    && (s.coming == [] && c.reported != want ==>
          want == Established == c.stored && c.reported == Inactive && c.stateUpdate && s.queued > 0)
    && (c.stored != want ==>
          && (s.coming != [] ==> s.coming[|s.coming| - 1] == c.requested)
          && (c.requested != want ==> s.unanswered > 0))
  }

  /** A step that sends a PATCH is bound for the wanted state. */
  lemma SendingBinds(s: System, step: Step, want: DistState)
    requires want != NoVal && s.unanswered <= |s.coming| && Orderly(s, step) && step != Reporting
    requires Handled(s.context, Happening(s, step), want).sent != []
    ensures Bound(Next(s, step, want), want)
  {
    var sent := Handled(s.context, Happening(s, step), want).sent;
    SendsOneHop(s.context, Happening(s, step), want);
    AsksForLast(s.context, Happening(s, step), want);
    assert sent == [sent[0]] && Toward(sent[0], want);
  }

  lemma WakeBinds(s: System, want: DistState)
    requires want != NoVal && s.unanswered <= |s.coming|
    requires (s.context.requested != want && Promising(s, want)) || Bound(s, want)
    ensures Bound(Next(s, Waking, want), want)
  {
    if Handled(s.context, Wake, want).sent != [] {
      SendingBinds(s, Waking, want);
    } else {
      assert s.coming + [] == s.coming;
    }
  }

  lemma AnswerStaysBound(s: System, want: DistState)
    requires want != NoVal && Bound(s, want) && s.unanswered > 0
    ensures Bound(Next(s, Answering, want), want)
  {
    if Handled(s.context, Response, want).sent != [] {
      SendingBinds(s, Answering, want);
    } else {
      assert s.coming + [] == s.coming;
    }
  }

  lemma PatchStaysBound(s: System, want: DistState)
    requires want != NoVal && Bound(s, want) && s.queued > 0
    ensures Bound(Next(s, Patching, want), want)
  {
    if Handled(s.context, LocalPatch, want).sent != [] {
      SendingBinds(s, Patching, want);
    } else {
      assert s.coming + [] == s.coming;
    }
  }

  lemma ReportStaysBound(s: System, want: DistState)
    requires want != NoVal && Bound(s, want) && Orderly(s, Reporting)
    ensures Bound(Next(s, Reporting, want), want)
  {
    assert s.coming[1..] + [] == s.coming[1..];
  }

  lemma StepStaysBound(s: System, step: Step, want: DistState)
    requires want != NoVal && Bound(s, want) && Orderly(s, step)
    ensures Bound(Next(s, step, want), want)
  {
    match step
    case Waking => WakeBinds(s, want);
    case Answering => AnswerStaysBound(s, want);
    case Reporting => ReportStaysBound(s, want);
    case Patching => PatchStaysBound(s, want);
  }

  lemma {:induction false} RunStaysBound(s: System, steps: seq<Step>, want: DistState)
    requires want != NoVal && Bound(s, want) && Possible(s, steps, want, true)
    ensures Possible(s, steps, want, false) && Bound(After(s, steps, want), want)
    decreases steps
  {
    OrderlyIsPossible(s, steps, want);
    if steps != [] {
      StepStaysBound(s, steps[0], want);
      RunStaysBound(Next(s, steps[0], want), steps[1..], want);
    }
  }

  /** From any session: a wake-up for a state that was not the last one asked for leads there, in every orderly
      run that comes to rest, if the session is promising. */
  lemma LastWakeConverges(s: System, steps: seq<Step>, want: DistState)
    requires want != NoVal && s.context.requested != want && s.unanswered <= |s.coming| && Promising(s, want)
    requires Possible(Next(s, Waking, want), steps, want, true)
    ensures Possible(Next(s, Waking, want), steps, want, false)
    ensures var end := After(Next(s, Waking, want), steps, want); end.Quiet() ==> end.context.reported == want
  {
    WakeBinds(s, want);
    RunStaysBound(Next(s, Waking, want), steps, want);
  }

  // ----- sessions that are about to ask -------------------------------------------------------------

  /** No response can stop the queued event, or the event that a detour to come will queue, from asking for the
      wanted state. */
  ghost predicate Poised(s: System, want: DistState) {
    var c := s.context;
    && s.unanswered == 0
    && (|| (want == Established == c.stored && PendingDetour(s.coming))
        || (c.stateUpdate && s.queued > 0 && c.reported != want && want !in s.coming))
  }

  lemma DetourAfterReport(coming: seq<DistState>)
    requires coming != [] && PendingDetour(coming)
    ensures PendingDetour(coming[1..]) || (coming[0] == Inactive && Established !in coming[1..])
  {
    var j :| 0 <= j < |coming| && DetourAt(coming, j);
    if j > 0 {
      assert DetourAt(coming[1..], j - 1);
    }
  }

  lemma StepStaysPoised(s: System, step: Step, want: DistState)
    requires want != NoVal && Poised(s, want) && Orderly(s, step)
    ensures Poised(Next(s, step, want), want) || Bound(Next(s, step, want), want)
  {
    var sent := Handled(s.context, Happening(s, step), want).sent;
    if step == Reporting {
      assert s.coming[1..] + [] == s.coming[1..];
      if PendingDetour(s.coming) {
        DetourAfterReport(s.coming);
      }
    } else if sent != [] {
      SendingBinds(s, step, want);
    } else {
      assert s.coming + [] == s.coming;
    }
  }

  lemma {:induction false} PoisedEndsWell(s: System, steps: seq<Step>, want: DistState)
    requires want != NoVal && (Poised(s, want) || Bound(s, want))
    ensures EndsWell(s, steps, want)
    decreases steps
  {
    if Possible(s, steps, want, true) && steps != [] {
      var next := Next(s, steps[0], want);
      if Bound(s, want) {
        StepStaysBound(s, steps[0], want);
      } else {
        StepStaysPoised(s, steps[0], want);
      }
      PoisedEndsWell(next, steps[1..], want);
    }
  }

  // ----- sessions that can get lost -----------------------------------------------------------------

  /** There is a way for the session to come to rest elsewhere: what comes last leads elsewhere, and every queued
      event can be handled when it does nothing. */
  ghost predicate CanGetLost(s: System, want: DistState) {
    var c := s.context;
    && (c.stored == want || s.coming == [])
    && s.unanswered <= |s.coming|
    && (if s.coming == [] then c.reported != want else !Toward(s.coming[|s.coming| - 1], want))
    && (|| s.unanswered > 0
        || (&& !(want == Established && PendingDetour(s.coming))
            && (c.stateUpdate && s.queued > 0 && c.reported != want ==> want in s.coming)))
  }

  /** The step to take on that way: hold one response back until no detour is pending, then take the responses,
      then each queued event as soon as it does nothing, and then the next report. */
  ghost function LosingStep(s: System, want: DistState): Step {
    var c := s.context;
    if s.unanswered > 1 then Answering
    else if s.unanswered == 1 then
      if want == Established && PendingDetour(s.coming) then Reporting else Answering
    else if s.queued > 0 && (!c.stateUpdate || c.reported == want) then Patching
    else Reporting
  }

  function Left(s: System): nat {
    s.unanswered + s.queued + 2 * |s.coming|
  }

  lemma DetourLeavesTwo(coming: seq<DistState>)
    requires PendingDetour(coming) && coming[|coming| - 1] != Inactive
    ensures |coming| >= 2
  {
    var j :| 0 <= j < |coming| && DetourAt(coming, j);
  }

  lemma NoDetourLater(coming: seq<DistState>)
    requires coming != [] && !PendingDetour(coming)
    ensures !PendingDetour(coming[1..])
    ensures coming[0] == Inactive ==> Established in coming[1..]
  {
    var later := coming[1..];
    forall j | 0 <= j < |later| ensures !DetourAt(later, j) {
      assert !DetourAt(coming, j + 1);
      assert forall k | j + 1 < k < |coming| :: coming[k] == later[k - 1];
    }
    if coming[0] == Inactive {
      assert !DetourAt(coming, 0);
    }
  }

  lemma LosingAnswer(s: System, want: DistState)
    requires want != NoVal && CanGetLost(s, want) && s.unanswered > 0
    requires s.unanswered > 1 || !(want == Established && PendingDetour(s.coming))
    ensures CanGetLost(Next(s, Answering, want), want)
  {
    assert s.coming + [] == s.coming;
  }

  lemma LosingPatch(s: System, want: DistState)
    requires want != NoVal && CanGetLost(s, want) && s.unanswered == 0 && s.queued > 0
    requires !s.context.stateUpdate || s.context.reported == want
    ensures CanGetLost(Next(s, Patching, want), want)
  {
    assert s.coming + [] == s.coming;
  }

  lemma LosingReport(s: System, want: DistState)
    requires want != NoVal && CanGetLost(s, want) && s.coming != [] && LosingStep(s, want) == Reporting
    ensures Orderly(s, Reporting) && CanGetLost(Next(s, Reporting, want), want)
  {
    assert s.coming[1..] + [] == s.coming[1..];
    if s.unanswered == 1 {
      DetourLeavesTwo(s.coming);
    } else if want == Established {
      NoDetourLater(s.coming);
    }
  }

  lemma {:induction false} LosingRun(s: System, want: DistState) returns (steps: seq<Step>)
    requires want != NoVal && CanGetLost(s, want)
    ensures !EndsWell(s, steps, want)
    decreases Left(s)
  {
    if s.Quiet() {
      steps := [];
    } else {
      var step := LosingStep(s, want);
      LosingStepStays(s, want);
      var rest := LosingRun(Next(s, step, want), want);
      steps := [step] + rest;
      assert steps[0] == step && steps[1..] == rest;
    }
  }

  lemma LosingStepStays(s: System, want: DistState)
    requires want != NoVal && CanGetLost(s, want) && !s.Quiet()
    ensures var step := LosingStep(s, want);
            && Orderly(s, step)
            && CanGetLost(Next(s, step, want), want)
            && Left(Next(s, step, want)) < Left(s)
  {
    var step := LosingStep(s, want);
    match step
    case Answering => LosingAnswer(s, want); assert s.coming + [] == s.coming;
    case Patching => LosingPatch(s, want); assert s.coming + [] == s.coming;
    case Reporting => LosingReport(s, want); assert s.coming[1..] + [] == s.coming[1..];
  }

  // ----- the exact condition ------------------------------------------------------------------------

  lemma LeadingEndsWell(s: System, want: DistState)
    requires want != NoVal && InStep(s) && Leads(s, want)
    ensures Bound(Next(s, Waking, want), want) || Poised(Next(s, Waking, want), want)
  {
    if s.context.requested == want {
      AskedAlready(s, want);
    } else if Promising(s, want) {
      WakeBinds(s, want);
    } else {
      assert s.coming + [] == s.coming;
    }
  }

  lemma OthersCanGetLost(s: System, want: DistState)
    requires want != NoVal && InStep(s) && !Leads(s, want)
    ensures CanGetLost(Next(s, Waking, want), want)
  {
    assert s.coming + [] == s.coming;
  }

  /** However the schedule changed before, with anything under way: after a wake-up all orderly runs that come to
      rest end in the wanted state, further wake-ups for it included, exactly if the session leads there. When it
      does not, some run that comes to rest ends elsewhere. */
  lemma LastWakeExactly(s: System, want: DistState)
    requires want != NoVal && InStep(s)
    ensures (forall steps :: EndsWell(Next(s, Waking, want), steps, want)) <==> Leads(s, want)
  {
    if Leads(s, want) {
      LeadingEndsWell(s, want);
      forall steps ensures EndsWell(Next(s, Waking, want), steps, want) {
        PoisedEndsWell(Next(s, Waking, want), steps, want);
      }
    } else {
      OthersCanGetLost(s, want);
      var steps := LosingRun(Next(s, Waking, want), want);
      assert !EndsWell(Next(s, Waking, want), steps, want);
    }
  }

  // ----- when every run gets lost -------------------------------------------------------------------

  /** The session will go where the last report takes it, and nothing is sent on the way. */
  ghost predicate Adrift(s: System, want: DistState, end: DistState) {
    && s.context.stored == want && s.queued == 0
    && !(want == Established && (Inactive in s.coming || end == Inactive))
    && (if s.coming == [] then s.context.reported else s.coming[|s.coming| - 1]) == end
  }

  lemma StepStaysAdrift(s: System, step: Step, want: DistState, end: DistState)
    requires Adrift(s, want, end) && Enabled(s, step) && step != Waking
    ensures Adrift(Next(s, step, want), want, end)
  {
    assert s.coming + [] == s.coming;
    if step == Reporting {
      assert s.coming[1..] + [] == s.coming[1..];
    }
  }

  lemma {:induction false} RunStaysAdrift(s: System, steps: seq<Step>, want: DistState, end: DistState)
    requires Adrift(s, want, end) && Possible(s, steps, want, false) && Wakes(steps) == 0
    ensures Adrift(After(s, steps, want), want, end)
    decreases steps
  {
    if steps != [] {
      StepStaysAdrift(s, steps[0], want, end);
      RunStaysAdrift(Next(s, steps[0], want), steps[1..], want, end);
    }
  }

  /** With no event queued and no INACTIVE to come, all runs without a further wake-up agree: each one that comes
      to rest ends in the wanted state if the session is promising, and elsewhere if not, because nothing is sent
      at the wake-up. */
  lemma LastWakeWithoutDetour(s: System, steps: seq<Step>, want: DistState)
    requires want != NoVal && s.context.requested != want && s.unanswered <= |s.coming|
    requires s.queued == 0 && !(want == Established && Inactive in s.coming)
    requires Possible(Next(s, Waking, want), steps, want, true) && Wakes(steps) == 0
    ensures Possible(Next(s, Waking, want), steps, want, false)
    ensures var end := After(Next(s, Waking, want), steps, want);
            end.Quiet() ==> (end.context.reported == want <==> Promising(s, want))
  {
    OrderlyIsPossible(Next(s, Waking, want), steps, want);
    if Promising(s, want) {
      LastWakeConverges(s, steps, want);
    } else {
      assert s.coming + [] == s.coming;
      RunStaysAdrift(Next(s, Waking, want), steps, want, s.coming[|s.coming| - 1]);
    }
  }

  lemma TwoMoves(s: System, first: Move, second: Move)
    requires first.want != NoVal && Orderly(s, first.step)
    requires second.want != NoVal && Orderly(Next(s, first.step, first.want), second.step)
    ensures Moves(s, [first, second])
    ensures AfterMoves(s, [first, second]) == Next(Next(s, first.step, first.want), second.step, second.want)
  {
    var moves := [first, second];
    assert moves[1..] == [second] && moves[1..][1..] == [];
    var s1 := Next(s, first.step, first.want);
    var s2 := Next(s1, second.step, second.want);
    assert Moves(s2, []) && Moves(s1, moves[1..]);
    assert AfterMoves(s1, moves[1..]) == AfterMoves(s2, []) == s2;
  }

  /** A session at rest for which the schedule leaves ACTIVE for ESTABLISHED, after the response to the PATCH. */
  lemma LeavingActive()
    ensures var start := Settled(Context(Active, Active, Active, false));
            var moves := [Move(Waking, Established), Move(Answering, Established)];
            && Moves(start, moves)
            && AfterMoves(start, moves) == System(Context(Established, Inactive, Active, false), 0, [Inactive], 0, 1, 1)
  {
    var start := Settled(Context(Active, Active, Active, false));
    var s1 := System(Context(Established, Inactive, Active, true), 1, [Inactive], 0, 1, 1);
    assert Next(start, Waking, Established) == s1;
    assert Next(s1, Answering, Established).coming == [Inactive];
    TwoMoves(start, Move(Waking, Established), Move(Answering, Established));
  }

  /** There the schedule returns to ACTIVE before INACTIVE is reported: nothing is sent, and the session comes to
      rest at INACTIVE. */
  lemma ReturningRun()
    ensures var s := System(Context(Established, Inactive, Active, false), 0, [Inactive], 0, 1, 1);
            && InStep(s) && !Leads(s, Active)
            && var end := Next(Next(s, Waking, Active), Reporting, Active);
               end.Quiet() && end.context.reported == Inactive
  {
    var s := System(Context(Established, Inactive, Active, false), 0, [Inactive], 0, 1, 1);
    var woken := System(Context(Active, Inactive, Active, true), 0, [Inactive], 0, 1, 2);
    assert Next(s, Waking, Active) == woken;
    assert woken.coming[1..] == [];
  }
}
