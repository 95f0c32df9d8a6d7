/** `MBSMFMBSSession`: changes of an MBS session are pushed to the MB-SMF one at a time. A push that comes while
    a change is in flight is remembered, and made up for when the result of that change arrives. */
module MbSmfSession {
  datatype Request = Change | Deletion

  /** `sent` holds the configurations pushed so far, `outstanding` the requests still without a result. */
  datatype State<C> = State(
    session: bool, config: C, changesInFlight: bool, sendUpdates: bool, sent: seq<C>, outstanding: seq<Request>)

  /** A result is `done` when it tells of a deletion that succeeded. */
  datatype Step<C> = Set(config: C) | Push | Delete | Result(done: bool)

  function Initial<C>(config: C): State<C> {
    State(true, config, false, false, [], [])
  }

  /** The library pushes a configuration unless it is the one it pushed before, and tells whether it did. */
  predicate Differs<C(==)>(s: State<C>) {
    s.session && (s.sent == [] || s.sent[|s.sent| - 1] != s.config)
  }

  function Pushed<C(==)>(s: State<C>): State<C> {
    if s.changesInFlight then s.(sendUpdates := true)
    else if Differs(s) then
      s.(changesInFlight := true, sendUpdates := false, sent := s.sent + [s.config], outstanding := s.outstanding + [Change])
    else s
  }

  predicate Possible<C>(s: State<C>, step: Step<C>) {
    step.Result? ==> s.outstanding != [] && (step.done ==> s.outstanding[0] == Deletion)
  }

  function Next<C(==)>(s: State<C>, step: Step<C>): State<C>
    requires Possible(s, step)
  {
    match step
    case Set(config) => if s.session then s.(config := config) else s
    case Push => Pushed(s)
    case Delete =>
      if s.session then s.(changesInFlight := true, sendUpdates := false, outstanding := s.outstanding + [Deletion]) else s
    case Result(done) =>
      var landed := s.(changesInFlight := false, outstanding := s.outstanding[1..], session := s.session && !done);
      if landed.sendUpdates then Pushed(landed.(sendUpdates := false)) else landed
  }

  class MbSmfMbsSession<C(==)> {
    var session: bool
    var config: C
    var changesInFlight: bool
    var sendUpdates: bool
    var sent: seq<C>
    var outstanding: seq<Request>

    constructor (config: C)
      ensures Contents() == Initial(config)
    {
      session, this.config, changesInFlight, sendUpdates := true, config, false, false;
      sent, outstanding := [], [];
    }

    ghost function Contents(): State<C>
      reads this
    {
      State(session, config, changesInFlight, sendUpdates, sent, outstanding)
    }

    /** A setter: the change stays with the session until it is pushed. */
    method SetConfig(config: C)
      modifies `config
      ensures Contents() == Next(old(Contents()), Set(config))
    {
      if session {
        this.config := config;
      }
    }

    method LibraryPush() returns (pushed: bool)
      modifies `sent, `outstanding
      ensures pushed == Differs(old(Contents()))
      ensures sent == old(sent) + if pushed then [config] else []
      ensures outstanding == old(outstanding) + if pushed then [Change] else []
    {
      pushed := session && (sent == [] || sent[|sent| - 1] != config);
      if pushed {
        sent := sent + [config];
        outstanding := outstanding + [Change];
      }
    }

    method PushChanges()
      modifies this
      ensures Contents() == Next(old(Contents()), Push)
    {
      if changesInFlight {
        sendUpdates := true;
      } else {
        var pushed := LibraryPush();
        if pushed {
          changesInFlight := true;
          sendUpdates := false;
        }
      }
    }

    method DeleteSession()
      modifies this
      ensures Contents() == Next(old(Contents()), Delete)
    {
      if session {
        outstanding := outstanding + [Deletion];
        changesInFlight := true;
        sendUpdates := false;
      }
    }

    method MbsSessionCallback(done: bool)
      requires outstanding != [] && (done ==> outstanding[0] == Deletion)
      modifies this
      ensures Contents() == Next(old(Contents()), Result(done))
    {
      outstanding := outstanding[1..];
      changesInFlight := false;
      if done {
        session := false;
      }
      if sendUpdates {
        sendUpdates := false;
        PushChanges();
      }
    }
  }

  // ----- runs ---------------------------------------------------------------------------------------

  ghost predicate IsRun<C>(config: C, run: seq<Step<C>>)
    decreases |run|, 0
  {
    run == [] ||
    (IsRun(config, run[..|run| - 1]) && Possible(Run(config, run[..|run| - 1]), run[|run| - 1]))
  }

  ghost function Run<C>(config: C, run: seq<Step<C>>): State<C>
    requires IsRun(config, run)
    decreases |run|, 1
  {
    if run == [] then Initial(config) else Next(Run(config, run[..|run| - 1]), run[|run| - 1])
  }

  /** The configuration last set. */
  function Current<C>(config: C, run: seq<Step<C>>): C {
    if run == [] then config
    else match run[|run| - 1]
      case Set(c) => c
      case _ => Current(config, run[..|run| - 1])
  }

  /** The configurations that were current at the last push or later. Without a push there are none. */
  ghost function SinceLastPush<C>(config: C, run: seq<Step<C>>): set<C> {
    if run == [] then {}
    else
      var earlier := run[..|run| - 1];
      match run[|run| - 1]
      case Push => {Current(config, run)}
      case Set(c) => if SinceLastPush(config, earlier) == {} then {} else SinceLastPush(config, earlier) + {c}
      case _ => SinceLastPush(config, earlier)
  }

  function Results<C>(run: seq<Step<C>>): nat {
    if run == [] then 0 else Results(run[..|run| - 1]) + if run[|run| - 1].Result? then 1 else 0
  }

  /** What the flags mean. */
  ghost predicate Accurate<C>(s: State<C>) {
    && s.changesInFlight == (s.outstanding != [])
    && |s.outstanding| <= 1
    && (s.sendUpdates ==> s.changesInFlight)
  }

  lemma {:induction false} CurrentSincePush<C>(config: C, run: seq<Step<C>>)
    ensures SinceLastPush(config, run) != {} ==> Current(config, run) in SinceLastPush(config, run)
  {
    if run != [] {
      CurrentSincePush(config, run[..|run| - 1]);
    }
  }

  lemma StepCounts<C>(s: State<C>, step: Step<C>)
    requires Accurate(s) && s.session && Deletion !in s.outstanding && Possible(s, step) && !step.Delete?
    ensures var next := Next(s, step);
            && Accurate(next) && next.session && Deletion !in next.outstanding
            && next.config == (if step.Set? then step.config else s.config)
            && |next.sent| - |next.outstanding| == |s.sent| - |s.outstanding| + if step.Result? then 1 else 0
  {
  }

  ghost predicate LastSent<C>(s: State<C>, config: C) {
    s.sent != [] && s.sent[|s.sent| - 1] == config
  }

  /** After a push the configuration is sent, or is bound to be. A result makes up for a push that was put off. */
  lemma StepSends<C>(s: State<C>, step: Step<C>)
    requires Accurate(s) && s.session && Deletion !in s.outstanding && Possible(s, step) && !step.Delete?
    ensures var next := Next(s, step);
            && (step.Push? ==> next.sendUpdates || LastSent(next, s.config))
            && (step.Result? && s.sendUpdates ==> LastSent(next, s.config))
            && (step.Set? || (step.Result? && !s.sendUpdates) ==> next.sent == s.sent && next.sendUpdates == s.sendUpdates)
  {
  }

  /** No push is lost. Over every run of setters, pushes and results: at most one change is in flight, the
      number of pushes that reach the MB-SMF is the number of results and the one in flight, whatever number of
      pushes was asked for, and the last one sent was current at the last push or later, unless another is
      bound to follow. */
  lemma {:induction false} NoLostUpdate<C>(config: C, run: seq<Step<C>>)
    requires IsRun(config, run) && forall step | step in run :: !step.Delete?
    ensures var s := Run(config, run);
            && Accurate(s) && s.session && s.config == Current(config, run)
            && (Deletion !in s.outstanding)
            && |s.sent| == Results(run) + |s.outstanding|
            && (SinceLastPush(config, run) != {} ==>
                  s.sendUpdates || (s.sent != [] && s.sent[|s.sent| - 1] in SinceLastPush(config, run)))
  {
    if run != [] {
      var earlier, step := run[..|run| - 1], run[|run| - 1];
      assert !step.Delete?;
      NoLostUpdate(config, earlier);
      StepCounts(Run(config, earlier), step);
      StepSends(Run(config, earlier), step);
      CurrentSincePush(config, earlier);
    }
  }

  /** At rest the MB-SMF has what it should: when nothing was set since the last push, the current
      configuration. */
  lemma UpToDateAtRest<C>(config: C, run: seq<Step<C>>)
    requires IsRun(config, run) && forall step | step in run :: !step.Delete?
    requires SinceLastPush(config, run) != {} && !Run(config, run).changesInFlight
    ensures var s := Run(config, run);
            && s.outstanding == [] && s.sent != []
            && s.sent[|s.sent| - 1] in SinceLastPush(config, run)
            && (SinceLastPush(config, run) == {Current(config, run)} ==> s.sent[|s.sent| - 1] == s.config)
  {
    NoLostUpdate(config, run);
  }

  /** Without further pushes two results bring the session to rest, and cost at most one more push. */
  lemma TwoResultsSettle<C>(s: State<C>)
    requires Accurate(s) && s.session && s.changesInFlight && s.outstanding == [Change]
    ensures var next := Next(s, Result(false));
            && |s.sent| <= |next.sent| <= |s.sent| + 1
            && (next.changesInFlight ==>
                  !Next(next, Result(false)).changesInFlight && Next(next, Result(false)).sent == next.sent)
            && (!next.changesInFlight ==> s.sendUpdates ==> !Differs(s))
  {
  }

  // ----- with deletion ------------------------------------------------------------------------------

  /** A deletion is asked for while a request is outstanding. */
  ghost predicate Overlaps<C>(config: C, run: seq<Step<C>>, k: nat)
    requires IsRun(config, run) && k < |run|
  {
    PrefixIsRun(config, run, k);
    var s := Run(config, run[..k]);
    run[k].Delete? && s.session && s.outstanding != []
  }

  lemma {:induction false} PrefixIsRun<C>(config: C, run: seq<Step<C>>, k: nat)
    requires IsRun(config, run) && k <= |run|
    ensures IsRun(config, run[..k])
    decreases |run|
  {
    if k < |run| {
      PrefixIsRun(config, run[..|run| - 1], k);
      assert run[..|run| - 1][..k] == run[..k];
    } else {
      assert run[..k] == run;
    }
  }

  lemma StepStaysAccurate<C>(s: State<C>, step: Step<C>)
    requires Accurate(s) && Possible(s, step)
    ensures Accurate(Next(s, step)) <==> !(step.Delete? && s.session && s.outstanding != [])
  {
  }

  /** `deleteSession` does not look at the flag. So with deletions the flag is right and there is one request
      at a time, all through a run, exactly if no deletion is asked for while a request is outstanding. */
  lemma {:induction false} OneAtATimeExactly<C>(config: C, run: seq<Step<C>>)
    requires IsRun(config, run)
    ensures (forall k | 0 <= k <= |run| :: AccurateAt(config, run, k)) <==> (forall k | 0 <= k < |run| :: !Overlaps(config, run, k))
    decreases |run|
  {
    if run == [] {
      assert run[..0] == [];
      assert forall k | 0 <= k <= |run| :: AccurateAt(config, run, k);
    } else {
      var n := |run| - 1;
      var earlier := run[..n];
      OneAtATimeExactly(config, earlier);
      forall k | 0 <= k <= n
        ensures AccurateAt(config, run, k) == AccurateAt(config, earlier, k)
        ensures k < n ==> Overlaps(config, run, k) == Overlaps(config, earlier, k)
      {
        assert run[..k] == earlier[..k];
      }
      assert run[..|run|] == run;
      assert AccurateAt(config, run, n) == Accurate(Run(config, earlier));
      assert AccurateAt(config, run, |run|) == Accurate(Run(config, run));
      if Accurate(Run(config, earlier)) {
        StepStaysAccurate(Run(config, earlier), run[n]);
        assert AccurateAt(config, run, |run|) <==> !Overlaps(config, run, n);
      }
    }
  }

  ghost predicate AccurateAt<C>(config: C, run: seq<Step<C>>, k: nat)
    requires IsRun(config, run) && k <= |run|
  {
    PrefixIsRun(config, run, k);
    Accurate(Run(config, run[..k]))
  }

  /** When a deletion is done the session is dropped, and a push that was put off is not sent for it. Nor is
      anything set or sent at any time after. */
  lemma {:induction false} DoneSendsNothing<C>(config: C, run: seq<Step<C>>, k: nat)
    requires IsRun(config, run) && k < |run| && run[k] == Result(true)
    ensures IsRun(config, run[..k])
    ensures var s, before := Run(config, run), Run(config, run[..k]); !s.session && s.sent == before.sent && s.config == before.config
    decreases |run|
  {
    PrefixIsRun(config, run, k);
    var earlier := run[..|run| - 1];
    if k < |run| - 1 {
      assert earlier[..k] == run[..k] && earlier[k] == run[k];
      DoneSendsNothing(config, earlier, k);
    }
  }

  /** A deletion can be reported done, and takes back a push that was put off: until the next push nothing is
      sent, however many results come and whatever is set. */
  lemma {:induction false} DeletionDropsPutOff<C>(config: C, run: seq<Step<C>>, k: nat)
    requires IsRun(config, run) && k < |run| && run[k] == Delete
    requires forall j | k < j < |run| :: !run[j].Push?
    ensures IsRun(config, run[..k])
    ensures Run(config, run[..k]).session ==> !Run(config, run).sendUpdates && Run(config, run).sent == Run(config, run[..k]).sent
    decreases |run|
  {
    PrefixIsRun(config, run, k);
    var earlier := run[..|run| - 1];
    if k < |run| - 1 {
      assert earlier[..k] == run[..k] && earlier[k] == run[k];
      DeletionDropsPutOff(config, earlier, k);
    }
  }

  /** At rest a deletion is the only request in flight, and its result ends the session exactly if it is done. */
  lemma DeletionEndsSession<C>(s: State<C>, done: bool)
    requires s.session && s.outstanding == []
    ensures var next := Next(s, Delete);
            && next.outstanding == [Deletion] && Possible(next, Result(done))
            && Next(next, Result(done)).session == !done && Next(next, Result(done)).outstanding == []
  {
  }

  // ----- what is held back --------------------------------------------------------------------------

  /** A push came at step `k` while a change was in flight, and since then there was neither a result nor a
      deletion. */
  ghost predicate PutOffAt<C>(config: C, run: seq<Step<C>>, k: nat)
    requires IsRun(config, run) && k < |run|
  {
    PrefixIsRun(config, run, k);
    && run[k].Push? && Run(config, run[..k]).changesInFlight
    && forall j | k < j < |run| :: !run[j].Result? && (run[j].Delete? ==> !SessionAt(config, run, j))
  }

  ghost predicate SessionAt<C>(config: C, run: seq<Step<C>>, k: nat)
    requires IsRun(config, run) && k <= |run|
  {
    PrefixIsRun(config, run, k);
    Run(config, run[..k]).session
  }

  lemma PutOffBefore<C>(config: C, run: seq<Step<C>>, k: nat)
    requires IsRun(config, run) && k < |run| - 1
    ensures var earlier, step := run[..|run| - 1], run[|run| - 1];
            PutOffAt(config, run, k) <==>
            PutOffAt(config, earlier, k) && !step.Result? && (step.Delete? ==> !Run(config, earlier).session)
  {
    var n := |run| - 1;
    var earlier := run[..n];
    assert earlier[..k] == run[..k];
    assert SessionAt(config, run, n) == Run(config, earlier).session;
    forall j | k < j < n ensures SessionAt(config, run, j) == SessionAt(config, earlier, j) {
      assert earlier[..j] == run[..j];
    }
    assert forall j | k < j < |run| :: j == n || (j < n && run[j] == earlier[j]);
  }

  /** A push is due with the next result exactly if one was put off; so a result sends nothing by itself. */
  lemma {:induction false} DueExactly<C>(config: C, run: seq<Step<C>>)
    requires IsRun(config, run)
    ensures Run(config, run).sendUpdates <==> exists k :: 0 <= k < |run| && PutOffAt(config, run, k)
    ensures Run(config, run).sendUpdates ==> Run(config, run).changesInFlight
  {
    if run != [] {
      var n := |run| - 1;
      DueExactly(config, run[..n]);
      forall k: nat | k < n
        ensures PutOffAt(config, run, k) <==>
                PutOffAt(config, run[..n], k) && !run[n].Result? && (run[n].Delete? ==> !Run(config, run[..n]).session)
      {
        PutOffBefore(config, run, k);
      }
      assert PutOffAt(config, run, n) <==> run[n].Push? && Run(config, run[..n]).changesInFlight;
    }
  }
}
