/** Creating and deleting an MBS User Data Ingest Session: the two barriers of `UserDataIngSession` over all of
    its distribution sessions. The environment is the MB-SMF, which reports on one MBS session per distribution
    session, the MBSTF, which responds to create requests, and the clients that ask for deletion. */
module IngestSession {
  datatype Status = No | Created | Failed | Deleted

  /** The part of `ContextData` that the barriers look at. */
  datatype Distribution = Distribution(status: Status, responded: bool)

  /** What the client that asked for the creation is told. */
  datatype Reply = Success | Problem(context: nat)

  /** What a client that asks for the deletion is told. */
  datatype Answer = NoContent(stream: nat) | NotFound(stream: nat)

  /** A session, the requests that wait in the event queue, and what was sent so far: the MBSTF create requests,
      the replies to the creating client, and the answers to delete requests. A session that was deleted is no
      longer found. */
  datatype Session = Session(
    found: bool, contexts: seq<Distribution>, deleting: seq<nat>,
    queue: seq<nat>, requests: seq<nat>, replies: seq<Reply>, answers: seq<Answer>)

  datatype Event =
    | SmfOk(context: nat) | SmfError(context: nat) | SmfDone(context: nat)
    | BuildRequest | MbstfResponse(context: nat) | DeleteRequest(stream: nat)
  {
    predicate Fits(n: nat) {
      BuildRequest? || DeleteRequest? || context < n
    }

    /** The status that a result of the MB-SMF gives to its context. */
    function Result(): Status {
      match this
      case SmfOk(_) => Created
      case SmfError(_) => Failed
      case SmfDone(_) => Deleted
      case _ => No
    }
  }

  function Fresh(n: nat): Session {
    Session(true, seq(n, _ => Distribution(No, false)), [], [], [], [], [])
  }

  // ----- what each handler does ---------------------------------------------------------------------

  predicate AllAnswered(cs: seq<Distribution>) {
    forall i | 0 <= i < |cs| :: cs[i].status == Created || cs[i].status == Failed
  }

  predicate AllCreated(cs: seq<Distribution>) {
    forall i | 0 <= i < |cs| :: cs[i].status == Created
  }

  predicate AllDeleted(cs: seq<Distribution>) {
    forall i | 0 <= i < |cs| :: cs[i].status == Deleted
  }

  predicate AllResponded(cs: seq<Distribution>) {
    forall i | 0 <= i < |cs| :: cs[i].responded
  }

  /** The contexts from the first `n` that still lack a response, in order. */
  function Waiting(cs: seq<Distribution>, n: nat): seq<nat>
    requires n <= |cs|
  {
    if n == 0 then [] else Waiting(cs, n - 1) + if cs[n - 1].responded then [] else [n - 1]
  }

  /** A problem reply for each failed context among the first `n`, in order. */
  function Problems(cs: seq<Distribution>, n: nat): seq<Reply>
    requires n <= |cs|
  {
    if n == 0 then [] else Problems(cs, n - 1) + if cs[n - 1].status == Failed then [Problem(n - 1)] else []
  }

  /** The answers with a 204 for each of the streams, in order. */
  function Answered(answers: seq<Answer>, streams: seq<nat>): seq<Answer> {
    if streams == [] then answers
    else Answered(answers, streams[..|streams| - 1]) + [NoContent(streams[|streams| - 1])]
  }

  function Next(s: Session, e: Event): Session
    requires e.Fits(|s.contexts|)
  {
    if e.BuildRequest? then
      if s.queue == [] then s
      else s.(queue := s.queue[1..], requests := if s.found then s.requests + [s.queue[0]] else s.requests)
    else if !s.found then
      if e.DeleteRequest? then s.(answers := s.answers + [NotFound(e.stream)]) else s
    else
      match e
      case SmfOk(i) =>
        var cs := s.contexts[i := s.contexts[i].(status := Created)];
        if AllCreated(cs) then s.(contexts := cs, queue := s.queue + Waiting(cs, |cs|))
        else if AllAnswered(cs) then s.(contexts := cs, replies := s.replies + Problems(cs, |cs|))
        else s.(contexts := cs)
      case SmfError(i) =>
        var cs := s.contexts[i := s.contexts[i].(status := Failed)];
        if AllAnswered(cs) then s.(contexts := cs, replies := s.replies + [Problem(i)], found := false)
        else s.(contexts := cs)
      case SmfDone(i) =>
        var cs := s.contexts[i := s.contexts[i].(status := Deleted)];
        if AllDeleted(cs) then
          s.(contexts := cs, answers := Answered(s.answers, s.deleting), deleting := [], found := false)
        else s.(contexts := cs)
      case MbstfResponse(i) =>
        var cs := s.contexts[i := s.contexts[i].(responded := true)];
        if AllResponded(cs) then s.(contexts := cs, replies := s.replies + [Success]) else s.(contexts := cs)
      case DeleteRequest(stream) =>
        s.(deleting := s.deleting + [stream])
  }

  class UserDataIngSession {
    var found: bool
    var contexts: seq<Distribution>
    var deleteRequests: seq<nat>
    var eventQueue: seq<nat>
    var requests: seq<nat>
    var replies: seq<Reply>
    var answers: seq<Answer>

    constructor (n: nat)
      ensures Contents() == Fresh(n)
    {
      found, contexts, deleteRequests := true, seq(n, _ => Distribution(No, false)), [];
      eventQueue, requests, replies, answers := [], [], [], [];
    }

    ghost function Contents(): Session
      reads this
    {
      Session(found, contexts, deleteRequests, eventQueue, requests, replies, answers)
    }

    method CheckIfAllMbsSessionResponsesReceived() returns (all: bool)
      ensures all == AllAnswered(contexts)
    {
      for k := 0 to |contexts|
        invariant forall i | 0 <= i < k :: contexts[i].status == Created || contexts[i].status == Failed
      {
        if contexts[k].status != Created && contexts[k].status != Failed {
          return false;
        }
      }
      return true;
    }

    method CheckIfAllMbsSessionDeletionsReceived() returns (all: bool)
      ensures all == AllDeleted(contexts)
    {
      for k := 0 to |contexts|
        invariant forall i | 0 <= i < k :: contexts[i].status == Deleted
      {
        if contexts[k].status != Deleted {
          return false;
        }
      }
      return true;
    }

    method CheckIfAllMbstfResponsesReceived() returns (all: bool)
      ensures all == AllResponded(contexts)
    {
      for k := 0 to |contexts|
        invariant forall i | 0 <= i < k :: contexts[i].responded
      {
        if !contexts[k].responded {
          return false;
        }
      }
      return true;
    }

    method SendMbstfRequests()
      modifies `eventQueue
      ensures eventQueue == old(eventQueue) + Waiting(contexts, |contexts|)
    {
      for k := 0 to |contexts|
        invariant eventQueue == old(eventQueue) + Waiting(contexts, k)
      {
        if !contexts[k].responded {
          eventQueue := eventQueue + [k];
        }
      }
    }

    method CheckIfAllMbsSessionCreated() returns (all: bool)
      modifies `eventQueue
      ensures all == AllCreated(contexts)
      ensures eventQueue == old(eventQueue) + if all then Waiting(contexts, |contexts|) else []
    {
      all := true;
      var k := 0;
      while k < |contexts|
        invariant k <= |contexts| && all && eventQueue == old(eventQueue)
        invariant forall i | 0 <= i < k :: contexts[i].status == Created
      {
        if contexts[k].status != Created {
          all := false;
          break;
        }
        k := k + 1;
      }
      if all {
        SendMbstfRequests();
      }
    }

    method HandleFailedMbsSession()
      modifies `replies
      ensures replies == old(replies) + Problems(contexts, |contexts|)
    {
      for k := 0 to |contexts|
        invariant replies == old(replies) + Problems(contexts, k)
      {
        if contexts[k].status == Failed {
          replies := replies + [Problem(k)];
        }
      }
    }

    method SetMbsSessionFlag(i: nat)
      requires i < |contexts|
      modifies this
      ensures Contents() == Next(old(Contents()), SmfOk(i))
    {
      if !found {
        return;
      }
      contexts := contexts[i := contexts[i].(status := Created)];
      var received := CheckIfAllMbsSessionResponsesReceived();
      if received {
        var created := CheckIfAllMbsSessionCreated();
        if !created {
          HandleFailedMbsSession();
        }
      }
    }

    method SetMbsSessionFailureFlag(i: nat)
      requires i < |contexts|
      modifies this
      ensures Contents() == Next(old(Contents()), SmfError(i))
    {
      if !found {
        return;
      }
      contexts := contexts[i := contexts[i].(status := Failed)];
      var received := CheckIfAllMbsSessionResponsesReceived();
      if received {
        replies := replies + [Problem(i)];
        found := false;
      }
    }

    method SetMbsSessionDeleted(i: nat)
      requires i < |contexts|
      modifies this
      ensures Contents() == Next(old(Contents()), SmfDone(i))
    {
      if !found {
        return;
      }
      contexts := contexts[i := contexts[i].(status := Deleted)];
      var all := CheckIfAllMbsSessionDeletionsReceived();
      if all {
        for k := 0 to |deleteRequests|
          invariant found && contexts == old(contexts)[i := old(contexts)[i].(status := Deleted)]
          invariant deleteRequests == old(deleteRequests) && eventQueue == old(eventQueue)
          invariant requests == old(requests) && replies == old(replies)
          invariant answers == Answered(old(answers), deleteRequests[..k])
        {
          assert deleteRequests[..k + 1][..k] == deleteRequests[..k];
          answers := answers + [NoContent(deleteRequests[k])];
        }
        assert deleteRequests[..|deleteRequests|] == deleteRequests;
        deleteRequests := [];
        found := false;
      }
    }

    method SendMbstfRequestBuild()
      requires eventQueue != []
      modifies this
      ensures Contents() == Next(old(Contents()), BuildRequest)
    {
      var i := eventQueue[0];
      eventQueue := eventQueue[1..];
      if found {
        requests := requests + [i];
      }
    }

    method ProcessDistSession(i: nat)
      requires i < |contexts|
      modifies this
      ensures Contents() == Next(old(Contents()), MbstfResponse(i))
    {
      if !found {
        return;
      }
      contexts := contexts[i := contexts[i].(responded := true)];
      var received := CheckIfAllMbstfResponsesReceived();
      if received {
        replies := replies + [Success];
      }
    }

    method Delete(stream: nat)
      modifies this
      ensures Contents() == Next(old(Contents()), DeleteRequest(stream))
    {
      if !found {
        answers := answers + [NotFound(stream)];
      } else {
        deleteRequests := deleteRequests + [stream];
      }
    }
  }

  // ----- any run: the delete barrier ----------------------------------------------------------------

  /** Each context has one of the statuses. */
  predicate AllIn(cs: seq<Distribution>, statuses: set<Status>) {
    forall i | 0 <= i < |cs| :: cs[i].status in statuses
  }

  lemma ChecksAreExact(cs: seq<Distribution>)
    ensures AllCreated(cs) <==> AllIn(cs, {Created})
    ensures AllAnswered(cs) <==> AllIn(cs, {Created, Failed})
    ensures AllDeleted(cs) <==> AllIn(cs, {Deleted})
  {
  }

  ghost predicate Fitting(n: nat, run: seq<Event>) {
    forall i | 0 <= i < |run| :: run[i].Fits(n)
  }

  /** The session after a run of events, in whatever order and number they come. */
  function Run(n: nat, run: seq<Event>): (s: Session)
    requires Fitting(n, run)
    ensures |s.contexts| == n
  {
    if run == [] then Fresh(n)
    else
      var s := Run(n, run[..|run| - 1]);
      assert run[|run| - 1].Fits(n);
      Next(s, run[|run| - 1])
  }

  /** The streams of the delete requests that came while the session was found. */
  function Accepted(n: nat, run: seq<Event>): seq<nat>
    requires Fitting(n, run)
  {
    if run == [] then []
    else
      var earlier := run[..|run| - 1];
      var e := run[|run| - 1];
      Accepted(n, earlier) + if e.DeleteRequest? && Run(n, earlier).found then [e.stream] else []
  }

  /** The streams that were sent 204, in order. */
  function Streams(answers: seq<Answer>): seq<nat> {
    if answers == [] then []
    else
      var last := answers[|answers| - 1];
      Streams(answers[..|answers| - 1]) + if last.NoContent? then [last.stream] else []
  }

  lemma StreamsOne(answers: seq<Answer>, last: Answer)
    ensures Streams(answers + [last]) == if last.NoContent? then Streams(answers) + [last.stream] else Streams(answers)
  {
    assert (answers + [last])[..|answers + [last]| - 1] == answers;
  }

  lemma {:induction false} StreamsAnswered(answers: seq<Answer>, streams: seq<nat>)
    ensures Streams(Answered(answers, streams)) == Streams(answers) + streams
  {
    if streams != [] {
      var init, last := streams[..|streams| - 1], streams[|streams| - 1];
      StreamsAnswered(answers, init);
      StreamsOne(Answered(answers, init), NoContent(last));
      assert streams == init + [last];
    }
  }

  /** The delete requests that one step answers, those that wait after it, and those it accepts. */
  lemma StepIsAccounted(s: Session, e: Event)
    requires e.Fits(|s.contexts|)
    ensures var next := Next(s, e);
            if s.found && e.SmfDone? && AllDeleted(next.contexts) then
              Streams(next.answers) == Streams(s.answers) + s.deleting && next.deleting == []
            else
              && Streams(next.answers) == Streams(s.answers)
              && next.deleting == s.deleting + if s.found && e.DeleteRequest? then [e.stream] else []
  {
    if e.SmfDone? {
      StreamsAnswered(s.answers, s.deleting);
    } else if e.DeleteRequest? {
      StreamsOne(s.answers, NotFound(e.stream));
    }
  }

  /** Only the deletion of an MBS session can make it the case that all are deleted, and then the session goes. */
  lemma DeletedOnlyByDone(s: Session, e: Event)
    requires e.Fits(|s.contexts|) && (s.found ==> !AllDeleted(s.contexts))
    ensures var next := Next(s, e);
            && (next.found ==> !AllDeleted(next.contexts))
            && (AllDeleted(next.contexts) <==> AllDeleted(s.contexts) || (s.found && e.SmfDone? && AllDeleted(next.contexts)))
            && (AllDeleted(s.contexts) ==> next.contexts == s.contexts)
  {
    var next := Next(s, e);
    if s.found {
      match e
      case SmfOk(i) => assert next.contexts[i].status == Created;
      case SmfError(i) => assert next.contexts[i].status == Failed;
      case MbstfResponse(_) => assert forall i | 0 <= i < |s.contexts| :: next.contexts[i].status == s.contexts[i].status;
      case _ =>
    }
  }

  /** Over every run, with any number of results, repeated ones included: no delete request is answered before
      all sessions are deleted, and when they are, each one that was accepted is answered by exactly one 204, in
      order, and none is left. No delete request is accepted after that. */
  lemma {:induction false} DeleteBarrier(n: nat, run: seq<Event>)
    requires n > 0 && Fitting(n, run)
    ensures var s := Run(n, run);
            && (s.found ==> !AllIn(s.contexts, {Deleted}))
            && (AllIn(s.contexts, {Deleted}) ==> Streams(s.answers) == Accepted(n, run) && s.deleting == [])
            && (!AllIn(s.contexts, {Deleted}) ==> Streams(s.answers) == [] && s.deleting == Accepted(n, run))
  {
    if run == [] {
      assert Fresh(n).contexts[0].status == No;
    } else {
      var earlier, e := run[..|run| - 1], run[|run| - 1];
      DeleteBarrier(n, earlier);
      assert e.Fits(n);
      StepIsAccounted(Run(n, earlier), e);
      DeletedOnlyByDone(Run(n, earlier), e);
    }
  }

  /** What the MB-SMF said last about a context. */
  function LastResult(run: seq<Event>, i: nat): Status {
    if run == [] then No
    else
      var e := run[|run| - 1];
      if e.Result() != No && e.context == i then e.Result() else LastResult(run[..|run| - 1], i)
  }

  lemma StatusOfNext(s: Session, e: Event, i: nat)
    requires e.Fits(|s.contexts|) && i < |s.contexts|
    ensures Next(s, e).contexts[i].status ==
            if s.found && e.Result() != No && e.context == i then e.Result() else s.contexts[i].status
    ensures Next(s, e).found ==> s.found
  {
  }

  /** While the session is found, each context shows the last result. */
  lemma {:induction false} StatusIsLastResult(n: nat, run: seq<Event>, i: nat)
    requires Fitting(n, run) && i < n
    ensures var s := Run(n, run); s.found ==> s.contexts[i].status == LastResult(run, i)
  {
    if run != [] {
      var earlier, e := run[..|run| - 1], run[|run| - 1];
      StatusIsLastResult(n, earlier, i);
      assert e.Fits(n);
      StatusOfNext(Run(n, earlier), e, i);
    }
  }

  /** A failure arrives as the last of the results: all MBS sessions are created or have failed now. */
  predicate FailsCreation(s: Session, e: Event)
    requires e.Fits(|s.contexts|)
  {
    s.found && e.SmfError? && AllIn(Next(s, e).contexts, {Created, Failed})
  }

  /** It does so at the k-th event of a run. */
  ghost predicate FailsAt(n: nat, run: seq<Event>, k: nat)
    requires Fitting(n, run) && k < |run|
  {
    assert run[k].Fits(n);
    FailsCreation(Run(n, run[..k]), run[k])
  }

  ghost predicate CreationFails(n: nat, run: seq<Event>)
    requires Fitting(n, run)
  {
    exists k :: 0 <= k < |run| && FailsAt(n, run, k)
  }

  lemma FailsEarlierOrNow(n: nat, run: seq<Event>)
    requires Fitting(n, run) && run != []
    ensures var earlier, e := run[..|run| - 1], run[|run| - 1];
            && e.Fits(n)
            && (CreationFails(n, run) <==> CreationFails(n, earlier) || FailsCreation(Run(n, earlier), e))
  {
    var last := |run| - 1;
    assert run[last].Fits(n);
    forall k | 0 <= k < last ensures FailsAt(n, run, k) == FailsAt(n, run[..last], k) {
      assert run[..last][..k] == run[..k];
    }
    assert FailsAt(n, run, last) == FailsCreation(Run(n, run[..last]), run[last]);
  }

  lemma FoundAfter(s: Session, e: Event)
    requires e.Fits(|s.contexts|) && |s.contexts| > 0 && (s.found ==> !AllIn(s.contexts, {Deleted}))
    ensures var next := Next(s, e);
            && (next.found <==> s.found && !AllIn(next.contexts, {Deleted}) && !FailsCreation(s, e))
            && (FailsCreation(s, e) ==> !AllIn(next.contexts, {Deleted}))
            && (!s.found ==> next.contexts == s.contexts)
  {
    DeletedOnlyByDone(s, e);
    if FailsCreation(s, e) {
      assert Next(s, e).contexts[e.context].status == Failed;
    }
  }

  /** A session goes for one of two reasons: all of its MBS sessions are deleted, or its creation failed. */
  lemma {:induction false} GoneExactly(n: nat, run: seq<Event>)
    requires n > 0 && Fitting(n, run)
    ensures var s := Run(n, run);
            && (!s.found <==> AllIn(s.contexts, {Deleted}) || CreationFails(n, run))
            && !(AllIn(s.contexts, {Deleted}) && CreationFails(n, run))
  {
    DeleteBarrier(n, run);
    if run != [] {
      var earlier, e := run[..|run| - 1], run[|run| - 1];
      GoneExactly(n, earlier);
      FailsEarlierOrNow(n, run);
      FoundAfter(Run(n, earlier), e);
    }
  }

  /** Let deletion be the last that the MB-SMF reports about each MBS session. Then every client that asked for
      it in time has its 204, and none waits, exactly if there is no such client or no failure was the last of
      the results, which would have taken the session away before. */
  lemma DeletionAnswersExactly(n: nat, run: seq<Event>)
    requires n > 0 && Fitting(n, run)
    requires forall i | 0 <= i < n :: LastResult(run, i) == Deleted
    ensures var s := Run(n, run);
            (Streams(s.answers) == Accepted(n, run) && s.deleting == []) <==>
            Accepted(n, run) == [] || !CreationFails(n, run)
    ensures !Run(n, run).found
  {
    var s := Run(n, run);
    forall i | 0 <= i < n ensures s.found ==> s.contexts[i].status == Deleted {
      StatusIsLastResult(n, run, i);
      assert LastResult(run, i) == Deleted;
    }
    DeleteBarrier(n, run);
    GoneExactly(n, run);
  }

  /** A failure that is the last of the results takes the session away from the clients that wait for its
      deletion. Whatever comes after it, they stay unanswered. */
  lemma {:induction false} FailureForgetsDeleteRequests(n: nat, run: seq<Event>, k: nat)
    requires n > 0 && Fitting(n, run) && k < |run| && FailsAt(n, run, k)
    ensures Streams(Run(n, run).answers) == []
    ensures Run(n, run).deleting == Accepted(n, run) == Accepted(n, run[..k])
    decreases |run|
  {
    var earlier, e := run[..|run| - 1], run[|run| - 1];
    assert CreationFails(n, run);
    GoneExactly(n, run);
    DeleteBarrier(n, run);
    assert e.Fits(n);
    if k < |run| - 1 {
      assert earlier[..k] == run[..k];
      assert FailsAt(n, earlier, k);
      FailureForgetsDeleteRequests(n, earlier, k);
      GoneExactly(n, earlier);
    }
  }

  /** Such a run: the only MBS session cannot be created after a client has asked for its deletion. */
  lemma ForgettingRun(stream: nat)
    ensures var run := [DeleteRequest(stream), SmfError(0)];
            Fitting(1, run) && FailsAt(1, run, 1) && Accepted(1, run) == [stream]
  {
    var run := [DeleteRequest(stream), SmfError(0)];
    assert run[..1] == [DeleteRequest(stream)] && run[..1][..0] == [];
    assert Run(1, run[..1]) == Next(Fresh(1), DeleteRequest(stream));
    assert Accepted(1, run[..1]) == [stream];
  }

  /** The MB-SMF handler reports a failure with problem details twice. The second report changes nothing. */
  lemma FailureReportedTwice(s: Session, i: nat)
    requires i < |s.contexts|
    ensures Next(Next(s, SmfError(i)), SmfError(i)) == Next(s, SmfError(i))
  {
    var cs := s.contexts[i := s.contexts[i].(status := Failed)];
    assert cs[i := cs[i].(status := Failed)] == cs;
  }

  // ----- the create barrier -------------------------------------------------------------------------

  /** Each context gets one final result, and one response after its request was sent. Clients may ask for the
      deletion at any time, but no MBS session is deleted. */
  predicate Expected(s: Session, e: Event) {
    match e
    case SmfOk(i) => i < |s.contexts| && s.contexts[i].status == No
    case SmfError(i) => i < |s.contexts| && s.contexts[i].status == No
    case MbstfResponse(i) => i < |s.contexts| && i in s.requests && !s.contexts[i].responded
    case BuildRequest => true
    case DeleteRequest(_) => true
    case SmfDone(_) => false
  }

  ghost predicate Creating(n: nat, run: seq<Event>)
  {
    && Fitting(n, run)
    && forall k | 0 <= k < |run| :: Expected(Run(n, run[..k]), run[k])
  }

  /** The last result in a run. */
  function LastOutcome(run: seq<Event>): Event {
    if run == [] then BuildRequest
    else if run[|run| - 1].Result() != No then run[|run| - 1]
    else LastOutcome(run[..|run| - 1])
  }

  function UpTo(n: nat): (r: seq<nat>)
    ensures |r| == n && forall i | 0 <= i < n :: r[i] == i
  {
    seq(n, i => i)
  }

  lemma {:induction false} NobodyResponded(cs: seq<Distribution>, n: nat)
    requires n <= |cs| && forall i | 0 <= i < n :: !cs[i].responded
    ensures Waiting(cs, n) == UpTo(n)
  {
    if n > 0 {
      NobodyResponded(cs, n - 1);
      assert UpTo(n) == UpTo(n - 1) + [n - 1];
    } else {
      assert UpTo(0) == [];
    }
  }

  /** What is known of a session that is being created, given the last of its results. */
  ghost predicate BarrierHolds(s: Session, last: Event) {
    && (forall i | 0 <= i < |s.contexts| :: s.contexts[i].status != Deleted)
    && (last.SmfError? ==> last.context < |s.contexts| && s.contexts[last.context].status == Failed)
    && (s.found <==> !(AllAnswered(s.contexts) && last.SmfError?))
    && (if AllCreated(s.contexts) then Asked(s) else Unasked(s, last))
  }

  /** All are created: each context is asked once, and success is told with the last response. */
  ghost predicate Asked(s: Session) {
    && s.requests + s.queue == UpTo(|s.contexts|)
    && (forall i | 0 <= i < |s.contexts| && s.contexts[i].responded :: i in s.requests)
    && s.replies == (if AllResponded(s.contexts) then [Success] else [])
  }

  /** Not all are created: nobody is asked. */
  ghost predicate Unasked(s: Session, last: Event) {
    && s.requests == s.queue == []
    && (forall i | 0 <= i < |s.contexts| :: !s.contexts[i].responded)
    && s.replies == Reported(s, last)
  }

  /** What is told of a creation that has failed, or is not decided. */
  function Reported(s: Session, last: Event): seq<Reply> {
    if !AllAnswered(s.contexts) then []
    else if last.SmfError? then [Problem(last.context)]
    else Problems(s.contexts, |s.contexts|)
  }

  /** The last success asks everybody. */
  lemma EverybodyAsked(s: Session, next: Session)
    requires s.requests == s.queue == [] && s.replies == []
    requires |next.contexts| > 0 && forall i | 0 <= i < |next.contexts| :: !next.contexts[i].responded
    requires next.requests == s.requests && next.queue == s.queue + Waiting(next.contexts, |next.contexts|)
    requires next.replies == s.replies
    ensures Asked(next)
  {
    NobodyResponded(next.contexts, |next.contexts|);
    assert !next.contexts[0].responded;
  }

  lemma SmfOkKeepsBarrier(s: Session, i: nat, last: Event)
    requires |s.contexts| > 0 && BarrierHolds(s, last) && Expected(s, SmfOk(i))
    ensures BarrierHolds(Next(s, SmfOk(i)), SmfOk(i))
  {
    NotAnswered(s, i);
    var next := Next(s, SmfOk(i));
    var cs := s.contexts[i := s.contexts[i].(status := Created)];
    assert next.contexts == cs && forall k | 0 <= k < |cs| :: !cs[k].responded && cs[k].status != Deleted;
    if AllCreated(cs) {
      EverybodyAsked(s, next);
    } else if AllAnswered(cs) {
      assert [] + Problems(cs, |cs|) == Problems(cs, |cs|);
    }
  }

  lemma NotAnswered(s: Session, i: nat)
    requires i < |s.contexts| && s.contexts[i].status == No
    ensures !AllAnswered(s.contexts) && !AllCreated(s.contexts)
  {
    assert s.contexts[i].status == No;
  }

  lemma SmfErrorKeepsBarrier(s: Session, i: nat, last: Event)
    requires |s.contexts| > 0 && BarrierHolds(s, last) && Expected(s, SmfError(i))
    ensures BarrierHolds(Next(s, SmfError(i)), SmfError(i))
  {
    NotAnswered(s, i);
    var next := Next(s, SmfError(i));
    var cs := s.contexts[i := s.contexts[i].(status := Failed)];
    assert next.contexts == cs && forall k | 0 <= k < |cs| :: !cs[k].responded && cs[k].status != Deleted;
    assert !AllCreated(cs) by { assert cs[i].status == Failed; }
    if AllAnswered(cs) {
      assert s.replies == [] && [] + [Problem(i)] == [Problem(i)];
    }
  }

  lemma BuildKeepsBarrier(s: Session, last: Event)
    requires |s.contexts| > 0 && BarrierHolds(s, last)
    ensures BarrierHolds(Next(s, BuildRequest), last)
  {
    var next := Next(s, BuildRequest);
    if s.queue != [] {
      assert AllCreated(s.contexts);
      assert next.requests + next.queue == s.requests + s.queue;
    }
  }

  /** A response keeps account of who was asked. */
  lemma ResponseKeepsAsked(s: Session, i: nat)
    requires s.found && Asked(s) && i < |s.contexts| && i in s.requests && !s.contexts[i].responded
    ensures Asked(Next(s, MbstfResponse(i)))
  {
    assert !AllResponded(s.contexts);
    assert s.replies == [] && [] + [Success] == [Success];
  }

  lemma ResponseKeepsStatus(s: Session, i: nat)
    requires s.found && i < |s.contexts|
    ensures var next := Next(s, MbstfResponse(i));
            && next.found && |next.contexts| == |s.contexts|
            && forall k | 0 <= k < |s.contexts| :: next.contexts[k].status == s.contexts[k].status
  {
  }

  lemma ResponseKeepsBarrier(s: Session, i: nat, last: Event)
    requires |s.contexts| > 0 && BarrierHolds(s, last) && Expected(s, MbstfResponse(i))
    ensures BarrierHolds(Next(s, MbstfResponse(i)), last)
  {
    assert AllCreated(s.contexts);
    assert !last.SmfError?;
    ResponseKeepsAsked(s, i);
    ResponseKeepsStatus(s, i);
  }

  lemma DeleteRequestKeepsBarrier(s: Session, stream: nat, last: Event)
    requires |s.contexts| > 0 && BarrierHolds(s, last)
    ensures BarrierHolds(Next(s, DeleteRequest(stream)), last)
  {
  }

  lemma StepKeepsBarrier(s: Session, e: Event, last: Event)
    requires |s.contexts| > 0 && BarrierHolds(s, last) && Expected(s, e)
    ensures e.Fits(|s.contexts|)
    ensures BarrierHolds(Next(s, e), if e.Result() != No then e else last)
  {
    match e
    case SmfOk(i) => SmfOkKeepsBarrier(s, i, last);
    case SmfError(i) => SmfErrorKeepsBarrier(s, i, last);
    case BuildRequest => BuildKeepsBarrier(s, last);
    case MbstfResponse(i) => ResponseKeepsBarrier(s, i, last);
    case DeleteRequest(stream) => DeleteRequestKeepsBarrier(s, stream, last);
  }

  lemma CreatingBefore(n: nat, run: seq<Event>)
    requires Creating(n, run) && run != []
    ensures Creating(n, run[..|run| - 1]) && Expected(Run(n, run[..|run| - 1]), run[|run| - 1])
  {
    var earlier := run[..|run| - 1];
    assert forall k | 0 <= k < |earlier| :: earlier[..k] == run[..k] && earlier[k] == run[k];
  }

  lemma FreshBarrier(n: nat)
    requires n > 0
    ensures BarrierHolds(Fresh(n), BuildRequest)
  {
    assert Fresh(n).contexts[0].status == No;
  }

  lemma {:induction false} BarrierIsKept(n: nat, run: seq<Event>)
    requires n > 0 && Creating(n, run)
    ensures BarrierHolds(Run(n, run), LastOutcome(run))
  {
    if run == [] {
      FreshBarrier(n);
    } else {
      CreatingBefore(n, run);
      BarrierIsKept(n, run[..|run| - 1]);
      StepKeepsBarrier(Run(n, run[..|run| - 1]), run[|run| - 1], LastOutcome(run[..|run| - 1]));
    }
  }

  /** The status of each context is the last result, and its response is noted, even of a session that has
      gone: all results were in by then, and no request was sent. */
  lemma {:induction false} CreatingIsNoted(n: nat, run: seq<Event>, i: nat)
    requires n > 0 && Creating(n, run) && i < n
    ensures var context := Run(n, run).contexts[i];
            context.status == LastResult(run, i) && (context.responded <==> MbstfResponse(i) in run)
  {
    if run != [] {
      var earlier, e := run[..|run| - 1], run[|run| - 1];
      CreatingBefore(n, run);
      CreatingIsNoted(n, earlier, i);
      BarrierIsKept(n, earlier);
      NotedBy(Run(n, earlier), e, LastOutcome(earlier), i);
      assert MbstfResponse(i) in run <==> MbstfResponse(i) in earlier || e == MbstfResponse(i);
    }
  }

  lemma NotedBy(s: Session, e: Event, last: Event, i: nat)
    requires BarrierHolds(s, last) && Expected(s, e) && e.Fits(|s.contexts|) && i < |s.contexts|
    ensures var next := Next(s, e).contexts[i];
            && next.status == (if e.Result() != No && e.context == i then e.Result() else s.contexts[i].status)
            && next.responded == (s.contexts[i].responded || e == MbstfResponse(i))
  {
    if !s.found {
      assert s.requests == [];
    }
  }

  /** What the MB-SMF said last about every context is among the statuses. */
  ghost predicate Results(n: nat, run: seq<Event>, statuses: set<Status>) {
    forall i | 0 <= i < n :: LastResult(run, i) in statuses
  }

  ghost predicate Responses(n: nat, run: seq<Event>) {
    forall i | 0 <= i < n :: MbstfResponse(i) in run
  }

  lemma CreatingStatuses(n: nat, run: seq<Event>)
    requires n > 0 && Creating(n, run)
    ensures forall statuses :: AllIn(Run(n, run).contexts, statuses) <==> Results(n, run, statuses)
    ensures AllCreated(Run(n, run).contexts) <==> Results(n, run, {Created})
    ensures AllAnswered(Run(n, run).contexts) <==> Results(n, run, {Created, Failed})
    ensures AllResponded(Run(n, run).contexts) <==> Responses(n, run)
  {
    ChecksAreExact(Run(n, run).contexts);
    var s := Run(n, run);
    forall i | 0 <= i < n
      ensures s.contexts[i].status == LastResult(run, i) && (s.contexts[i].responded <==> MbstfResponse(i) in run)
    {
      CreatingIsNoted(n, run, i);
    }
  }

  /** Over every arrival order of the results and responses, with clients asking for the deletion meanwhile.
      Requests are sent only when all MBS sessions are created, and then every context is asked exactly once, in
      order; success is replied exactly when the last response is in, once, and then it is the only reply.
      When a session could not be created, no request and no success is ever sent; the session goes away exactly
      if the failure was the last result. */
  lemma CreateBarrier(n: nat, run: seq<Event>)
    requires n > 0 && Creating(n, run)
    ensures var s := Run(n, run);
            && (s.requests + s.queue == if Results(n, run, {Created}) then UpTo(n) else [])
            && (Success in s.replies <==> Results(n, run, {Created}) && Responses(n, run))
            && (Success in s.replies ==> s.replies == [Success])
            && (!s.found <==> Results(n, run, {Created, Failed}) && LastOutcome(run).SmfError?)
  {
    BarrierIsKept(n, run);
    CreatingStatuses(n, run);
    BarrierMeans(Run(n, run), LastOutcome(run));
  }

  lemma BarrierMeans(s: Session, last: Event)
    requires |s.contexts| > 0 && BarrierHolds(s, last)
    ensures s.requests + s.queue == if AllCreated(s.contexts) then UpTo(|s.contexts|) else []
    ensures Success in s.replies <==> AllCreated(s.contexts) && AllResponded(s.contexts)
    ensures Success in s.replies ==> s.replies == [Success]
    ensures !s.found <==> AllAnswered(s.contexts) && last.SmfError?
  {
    NoSuccessAmongProblems(s.contexts, |s.contexts|);
  }

  lemma {:induction false} NoSuccessAmongProblems(cs: seq<Distribution>, n: nat)
    requires n <= |cs|
    ensures Success !in Problems(cs, n)
  {
    if n > 0 {
      NoSuccessAmongProblems(cs, n - 1);
    }
  }

  /** Problems name the failed contexts, each once and in order. */
  ghost predicate NamesFailed(problems: seq<Reply>, cs: seq<Distribution>, n: nat)
    requires n <= |cs|
  {
    && (forall i: nat :: Problem(i) in problems <==> i < n && cs[i].status == Failed)
    && (forall k | 0 <= k < |problems| :: problems[k].Problem? && problems[k].context < n)
    && (forall j, k | 0 <= j < k < |problems| :: problems[j].context < problems[k].context)
  }

  lemma {:induction false} ProblemsNameFailed(cs: seq<Distribution>, n: nat)
    requires n <= |cs|
    ensures NamesFailed(Problems(cs, n), cs, n)
  {
    if n > 0 {
      ProblemsNameFailed(cs, n - 1);
      if cs[n - 1].status == Failed {
        OneProblemMore(Problems(cs, n - 1), cs, n - 1);
      }
    }
  }

  lemma OneProblemMore(problems: seq<Reply>, cs: seq<Distribution>, n: nat)
    requires n < |cs| && NamesFailed(problems, cs, n) && cs[n].status == Failed
    ensures NamesFailed(problems + [Problem(n)], cs, n + 1)
  {
    var more := problems + [Problem(n)];
    assert forall i: nat :: Problem(i) in more <==> Problem(i) in problems || i == n;
    assert forall k | 0 <= k < |problems| :: more[k] == problems[k];
  }

  /** What the client is told when not all MBS sessions could be created. As long as a result is missing it is
      told nothing. If the last result was a failure, it is told of that one only. If it was a success, it is told
      just of the contexts that failed, once of each and in order. */
  lemma ProblemsReported(n: nat, run: seq<Event>)
    requires n > 0 && Creating(n, run) && !Results(n, run, {Created})
    ensures var replies, last := Run(n, run).replies, LastOutcome(run);
            if !Results(n, run, {Created, Failed}) then replies == []
            else if last.SmfError? then replies == [Problem(last.context)]
            else
              && (forall i | 0 <= i < n :: Problem(i) in replies <==> LastResult(run, i) == Failed)
              && (forall k | 0 <= k < |replies| :: replies[k].Problem? && replies[k].context < n)
              && (forall j, k | 0 <= j < k < |replies| :: replies[j].context < replies[k].context)
  {
    BarrierIsKept(n, run);
    CreatingStatuses(n, run);
    ProblemsNameFailed(Run(n, run).contexts, n);
    forall i | 0 <= i < n ensures Run(n, run).contexts[i].status == LastResult(run, i) {
      CreatingIsNoted(n, run, i);
    }
  }

  lemma RequestsAfter(s: Session, e: Event)
    requires e.Fits(|s.contexts|) && s.requests == [] && s.queue == []
    ensures var next := Next(s, e); next.requests == [] && (next.queue != [] ==> AllCreated(next.contexts))
  {
  }

  /** Any run at all: a request that is queued or was sent goes back to a moment when all were created. */
  lemma {:induction false} RequestsNeedAllCreated(n: nat, run: seq<Event>)
    requires Fitting(n, run)
    requires Run(n, run).requests != [] || Run(n, run).queue != []
    ensures exists k :: 0 <= k <= |run| && WereAllCreated(n, run, k)
  {
    var earlier, e := run[..|run| - 1], run[|run| - 1];
    var s := Run(n, earlier);
    assert e.Fits(n);
    if s.requests != [] || s.queue != [] {
      RequestsNeedAllCreated(n, earlier);
      var k :| 0 <= k <= |earlier| && WereAllCreated(n, earlier, k);
      assert earlier[..k] == run[..k];
      assert WereAllCreated(n, run, k);
    } else {
      RequestsAfter(s, e);
      assert run[..|run|] == run;
      assert WereAllCreated(n, run, |run|);
    }
  }

  ghost predicate WereAllCreated(n: nat, run: seq<Event>, k: nat)
    requires Fitting(n, run) && k <= |run|
  {
    AllIn(Run(n, run[..k]).contexts, {Created})
  }

  // ----- how often a context is asked ---------------------------------------------------------------

  /** A success of the MB-SMF after which all are created, while the response of the i-th is not in. */
  predicate Asks(s: Session, e: Event, i: nat)
    requires e.Fits(|s.contexts|) && i < |s.contexts|
  {
    s.found && e.SmfOk? && AllIn(Next(s, e).contexts, {Created}) && !s.contexts[i].responded
  }

  /** The number of such successes in a run. */
  function Askings(n: nat, run: seq<Event>, i: nat): nat
    requires Fitting(n, run) && i < n
  {
    if run == [] then 0
    else
      var earlier, e := run[..|run| - 1], run[|run| - 1];
      assert e.Fits(n);
      Askings(n, earlier, i) + if Asks(Run(n, earlier), e, i) then 1 else 0
  }

  function Count(xs: seq<nat>, i: nat): nat {
    if xs == [] then 0 else Count(xs[..|xs| - 1], i) + if xs[|xs| - 1] == i then 1 else 0
  }

  lemma {:induction false} CountAppend(xs: seq<nat>, ys: seq<nat>, i: nat)
    ensures Count(xs + ys, i) == Count(xs, i) + Count(ys, i)
  {
    if ys == [] {
      assert xs + ys == xs;
    } else {
      var k := |ys| - 1;
      assert (xs + ys)[..|xs + ys| - 1] == xs + ys[..k] && (xs + ys)[|xs + ys| - 1] == ys[k];
      CountAppend(xs, ys[..k], i);
    }
  }

  /** The create requests for the i-th context, sent or queued. */
  function Requested(s: Session, i: nat): nat {
    Count(s.requests + s.queue, i)
  }

  lemma CountOne(xs: seq<nat>, x: nat, i: nat)
    ensures Count(xs + [x], i) == Count(xs, i) + if x == i then 1 else 0
  {
    assert (xs + [x])[..|xs + [x]| - 1] == xs;
  }

  lemma {:induction false} WaitingOnce(cs: seq<Distribution>, n: nat, i: nat)
    requires n <= |cs|
    ensures Count(Waiting(cs, n), i) == if i < n && !cs[i].responded then 1 else 0
  {
    if n == 0 {
    } else if cs[n - 1].responded {
      WaitingOnce(cs, n - 1, i);
      assert Waiting(cs, n) == Waiting(cs, n - 1);
    } else {
      WaitingOnce(cs, n - 1, i);
      CountOne(Waiting(cs, n - 1), n - 1, i);
    }
  }

  lemma BuildKeepsRequested(s: Session, i: nat)
    ensures Requested(Next(s, BuildRequest), i) <= Requested(s, i)
    ensures s.found ==> Requested(Next(s, BuildRequest), i) == Requested(s, i)
  {
    if s.queue != [] {
      var next, first := Next(s, BuildRequest), s.queue[0];
      assert s.requests + s.queue == (s.requests + [first]) + s.queue[1..];
      CountAppend(s.requests + [first], s.queue[1..], i);
      CountOne(s.requests, first, i);
      CountAppend(s.requests, s.queue[1..], i);
    }
  }

  lemma OkAsks(s: Session, j: nat, i: nat)
    requires j < |s.contexts| && i < |s.contexts|
    ensures Requested(Next(s, SmfOk(j)), i) == Requested(s, i) + if Asks(s, SmfOk(j), i) then 1 else 0
  {
    var next := Next(s, SmfOk(j));
    if s.found && AllIn(next.contexts, {Created}) {
      WaitingOnce(next.contexts, |next.contexts|, i);
      assert next.contexts[i].responded == s.contexts[i].responded;
      RequestedMore(s, next, Waiting(next.contexts, |next.contexts|), i);
    }
  }

  lemma RequestedMore(s: Session, next: Session, more: seq<nat>, i: nat)
    requires next.requests == s.requests && next.queue == s.queue + more
    ensures Requested(next, i) == Requested(s, i) + Count(more, i)
  {
    assert next.requests + next.queue == (s.requests + s.queue) + more;
    CountAppend(s.requests + s.queue, more, i);
  }

  lemma RequestedAfter(s: Session, e: Event, i: nat)
    requires e.Fits(|s.contexts|) && i < |s.contexts|
    ensures var more := if Asks(s, e, i) then 1 else 0;
            && Requested(Next(s, e), i) <= Requested(s, i) + more
            && (s.found ==> Requested(Next(s, e), i) == Requested(s, i) + more)
  {
    match e
    case SmfOk(j) => OkAsks(s, j, i);
    case BuildRequest => BuildKeepsRequested(s, i);
    case _ =>
  }

  /** Over every run, a context is asked as often as the MB-SMF reports a success when all are created and its
      response is not in; once the session is gone, no more often than that. So it is asked at most once exactly
      if there is at most one such success. */
  lemma {:induction false} AskedExactly(n: nat, run: seq<Event>, i: nat)
    requires Fitting(n, run) && i < n
    ensures Requested(Run(n, run), i) <= Askings(n, run, i)
    ensures Run(n, run).found ==> Requested(Run(n, run), i) == Askings(n, run, i)
    ensures Run(n, run).found ==> (Requested(Run(n, run), i) <= 1 <==> Askings(n, run, i) <= 1)
  {
    if run != [] {
      var earlier, e := run[..|run| - 1], run[|run| - 1];
      AskedExactly(n, earlier, i);
      assert e.Fits(n);
      RequestedAfter(Run(n, earlier), e, i);
      StatusOfNext(Run(n, earlier), e, i);
    }
  }

  function Successes(m: nat): seq<Event> {
    if m == 0 then [] else Successes(m - 1) + [SmfOk(0)]
  }

  lemma OneMoreSuccess(s: Session)
    requires s.found && |s.contexts| == 1 && !s.contexts[0].responded
    ensures var next := Next(s, SmfOk(0));
            && next.found && |next.contexts| == 1 && !next.contexts[0].responded
            && Requested(next, 0) == Requested(s, 0) + 1
  {
    OkAsks(s, 0, 0);
    assert AllCreated(Next(s, SmfOk(0)).contexts);
  }

  /** The MB-SMF reports a success m times, as it does for every later change: one context is asked m times. */
  lemma {:induction false} RepeatedResultAsksAgain(m: nat)
    ensures Fitting(1, Successes(m))
    ensures var s := Run(1, Successes(m)); s.found && !s.contexts[0].responded && Requested(s, 0) == m
  {
    if m > 0 {
      RepeatedResultAsksAgain(m - 1);
      var run := Successes(m);
      assert run[..|run| - 1] == Successes(m - 1) && run[|run| - 1] == SmfOk(0);
      OneMoreSuccess(Run(1, Successes(m - 1)));
    }
  }

  // ----- after the session is gone ------------------------------------------------------------------

  /** Once the session is gone, no create request is sent any more, queued as it may be, the creating client hears
      nothing, and no context changes. */
  lemma {:induction false} GoneStaysSilent(n: nat, run: seq<Event>, more: seq<Event>)
    requires Fitting(n, run + more) && Fitting(n, run) && !Run(n, run).found
    ensures var s, end := Run(n, run), Run(n, run + more);
            && !end.found && end.requests == s.requests && end.replies == s.replies
            && end.contexts == s.contexts && end.deleting == s.deleting
    decreases more
  {
    if more == [] {
      assert run + more == run;
    } else {
      var all, init := run + more, more[..|more| - 1];
      assert all[..|all| - 1] == run + init && all[|all| - 1].Fits(n);
      GoneStaysSilent(n, run, init);
    }
  }

  /** As long as the session is found, each event that is taken off the queue sends the next request, and nothing
      else happens. */
  lemma {:induction false} QueueIsSent(n: nat, run: seq<Event>, builds: seq<Event>)
    requires Fitting(n, run) && Fitting(n, run + builds) && forall i | 0 <= i < |builds| :: builds[i] == BuildRequest
    requires Run(n, run).found && |builds| <= |Run(n, run).queue|
    ensures var s, k := Run(n, run), |builds|;
            Run(n, run + builds) == s.(requests := s.requests + s.queue[..k], queue := s.queue[k..])
  {
    if builds == [] {
      assert run + builds == run;
    } else {
      var all, init := run + builds, builds[..|builds| - 1];
      assert all[..|all| - 1] == run + init && all[|all| - 1] == BuildRequest;
      QueueIsSent(n, run, init);
      BuildSends(Run(n, run), Run(n, run + init), |init|);
    }
  }

  lemma BuildSends(s: Session, t: Session, k: nat)
    requires s.found && k < |s.queue| && t == s.(requests := s.requests + s.queue[..k], queue := s.queue[k..])
    ensures Next(t, BuildRequest) == s.(requests := s.requests + s.queue[..k + 1], queue := s.queue[k + 1..])
  {
    assert s.requests + s.queue[..k] + [s.queue[k]] == s.requests + s.queue[..k + 1];
  }

  /** The streams of the delete requests that came when the session was gone. */
  function Refused(n: nat, run: seq<Event>): seq<nat>
    requires Fitting(n, run)
  {
    if run == [] then []
    else
      var earlier, e := run[..|run| - 1], run[|run| - 1];
      Refused(n, earlier) + if e.DeleteRequest? && !Run(n, earlier).found then [e.stream] else []
  }

  /** The streams that were sent 404, in order. */
  function NotFounds(answers: seq<Answer>): seq<nat> {
    if answers == [] then []
    else
      var last := answers[|answers| - 1];
      NotFounds(answers[..|answers| - 1]) + if last.NotFound? then [last.stream] else []
  }

  lemma NotFoundsOne(answers: seq<Answer>, last: Answer)
    ensures NotFounds(answers + [last]) == if last.NotFound? then NotFounds(answers) + [last.stream] else NotFounds(answers)
  {
    assert (answers + [last])[..|answers + [last]| - 1] == answers;
  }

  lemma {:induction false} NotFoundsAnswered(answers: seq<Answer>, streams: seq<nat>)
    ensures NotFounds(Answered(answers, streams)) == NotFounds(answers)
  {
    if streams != [] {
      NotFoundsAnswered(answers, streams[..|streams| - 1]);
      NotFoundsOne(Answered(answers, streams[..|streams| - 1]), NoContent(streams[|streams| - 1]));
    }
  }

  lemma NotFoundsAfter(s: Session, e: Event)
    requires e.Fits(|s.contexts|)
    ensures NotFounds(Next(s, e).answers) == NotFounds(s.answers) + if e.DeleteRequest? && !s.found then [e.stream] else []
  {
    if e.SmfDone? {
      NotFoundsAnswered(s.answers, s.deleting);
    } else if e.DeleteRequest? {
      NotFoundsOne(s.answers, NotFound(e.stream));
    }
  }

  /** Over every run, the clients that ask for the deletion of a session that is gone, and only those, have a 404
      each, in order. */
  lemma {:induction false} LateRequestsAreRefused(n: nat, run: seq<Event>)
    requires Fitting(n, run)
    ensures NotFounds(Run(n, run).answers) == Refused(n, run)
  {
    if run != [] {
      var earlier, e := run[..|run| - 1], run[|run| - 1];
      LateRequestsAreRefused(n, earlier);
      assert e.Fits(n);
      NotFoundsAfter(Run(n, earlier), e);
    }
  }
}
