/** How the event reports of an MBSTF notification change a distribution session: `DistributionSessionInfo`
    sorts them by time, and `SubscribedEvents` keeps a time for each kind of event. */
module EventReports {
  import opened Schedule
  import S = StableSort
  import C = StateChanges

  datatype Kind =
    | ServiceManagementFailure | DataIngestFailure
    | DataIngestSessionEstablished | DataIngestSessionTerminated | SessionDeactivated | SessionActivated

  /** A report; `at` is missing when it carries no timestamp, or one that cannot be parsed. */
  datatype Report = Report(kind: Kind, at: Option<int>)

  /** A report whose time is known. */
  datatype Timed = Timed(kind: Kind, at: int)

  /** The slots of `SubscribedEvents` that reports are written to. */
  datatype Slot =
    | DataIngestFailureAt | DistSessTerminated | DistSessActivated | DistSessServMngtFailure
    | DistSessStarting | SessionTerminated

  const FAILURES: set<Kind> := {ServiceManagementFailure, DataIngestFailure}
  const STATEFUL: set<Kind> :=
    {DataIngestSessionEstablished, DataIngestSessionTerminated, SessionDeactivated, SessionActivated}

  /** The state that a report speaks of. */
  function StateOf(kind: Kind): DistState {
    match kind
    case DataIngestSessionEstablished => Established
    case DataIngestSessionTerminated => Deactivating
    case SessionDeactivated => Inactive
    case SessionActivated => Active
    case _ => NoVal
  }

  function SlotOf(kind: Kind): Slot {
    match kind
    case DataIngestFailure => DataIngestFailureAt
    case SessionDeactivated => DistSessTerminated
    case SessionActivated => DistSessActivated
    case ServiceManagementFailure => DistSessServMngtFailure
    case DataIngestSessionEstablished => DistSessStarting
    case DataIngestSessionTerminated => SessionTerminated
  }

  /** What a notification can change. `seen` holds the kinds whose flag is set. */
  datatype Info = Info(
    stored: DistState, reported: DistState, seen: set<Kind>, slots: map<Slot, int>, stateUpdate: bool, queued: nat)

  // ----- sorting ------------------------------------------------------------------------------------

  /** The reports that are kept, in the order in which they came. */
  function Kept(reports: seq<Option<Report>>): seq<Timed> {
    if reports == [] then []
    else
      var last := reports[|reports| - 1];
      Kept(reports[..|reports| - 1]) +
      if last.Some? && last.value.at.Some? then [Timed(last.value.kind, last.value.at.value)] else []
  }

  /** How often a list holds a report of the given kind and time. */
  function Occurrences(reports: seq<Option<Report>>, r: Timed): nat {
    if reports == [] then 0
    else Occurrences(reports[..|reports| - 1], r) + if reports[|reports| - 1] == Some(Report(r.kind, Some(r.at))) then 1 else 0
  }

  /** Kept are just the reports that are there and whose time is known, each as often as it is listed, in order:
      one that is absent or has no time makes no difference. */
  lemma {:induction false} KeptExactly(reports: seq<Option<Report>>, r: Timed)
    ensures multiset(Kept(reports))[r] == Occurrences(reports, r)
  {
    if reports != [] {
      KeptExactly(reports[..|reports| - 1], r);
    }
  }

  lemma {:induction false} KeptInOrder(reports: seq<Option<Report>>, more: seq<Option<Report>>)
    ensures Kept(reports + more) == Kept(reports) + Kept(more)
  {
    if more == [] {
      assert reports + more == reports;
    } else {
      var all, init := reports + more, more[..|more| - 1];
      assert all[..|all| - 1] == reports + init && all[|all| - 1] == more[|more| - 1];
      KeptInOrder(reports, init);
    }
  }

  predicate IsOlder(q: Timed, r: Timed) {
    q.at < r.at
  }

  /** Insertion into a multimap: after everything that is not newer. */
  function Emplace(sorted: seq<Timed>, r: Timed): seq<Timed> {
    S.Insert(IsOlder, sorted, r)
  }

  function Sort(reports: seq<Timed>): seq<Timed> {
    S.Sort(IsOlder, reports)
  }

  // ----- what the reports do ------------------------------------------------------------------------

  /** `processEvents` on one report. */
  function Processed(info: Info, r: Timed): Info {
    if r.kind in FAILURES then info.(stored := Inactive, slots := info.slots[DistSessTerminated := r.at])
    else info.(seen := info.seen + {r.kind}, reported := StateOf(r.kind))
  }

  function ProcessedAll(info: Info, reports: seq<Timed>): Info {
    if reports == [] then info else Processed(ProcessedAll(info, reports[..|reports| - 1]), reports[|reports| - 1])
  }

  function Continued(info: Info): Info {
    if info.reported == Inactive && info.stored == Established then
      info.(stateUpdate := true, queued := info.queued + 1)
    else info
  }

  function RegisteredAll(slots: map<Slot, int>, reports: seq<Timed>): map<Slot, int> {
    if reports == [] then slots
    else
      var last := reports[|reports| - 1];
      RegisteredAll(slots, reports[..|reports| - 1])[SlotOf(last.kind) := last.at]
  }

  /** `processStatusNotifyReqData` on reports whose times are known. */
  function Notified(info: Info, reports: seq<Timed>): Info {
    var sorted := Sort(reports);
    var processed := Continued(ProcessedAll(info, sorted));
    processed.(slots := RegisteredAll(processed.slots, sorted))
  }

  class DistributionSessionInfo {
    var stored: DistState
    var lastReported: DistState
    var seen: set<Kind>
    var slots: map<Slot, int>
    var stateUpdate: bool
    var queued: nat
    var reportList: seq<Timed>

    constructor (stored: DistState)
      ensures Contents() == Info(stored, NoVal, {}, map[], false, 0)
    {
      this.stored, lastReported, seen, slots := stored, NoVal, {}, map[];
      stateUpdate, queued, reportList := false, 0, [];
    }

    ghost function Contents(): Info
      reads this
    {
      Info(stored, lastReported, seen, slots, stateUpdate, queued)
    }

    method SortEventReports(reports: seq<Option<Report>>)
      modifies `reportList
      ensures reportList == Sort(Kept(reports))
    {
      var sorted: seq<Timed> := [];
      for k := 0 to |reports|
        invariant sorted == Sort(Kept(reports[..k]))
      {
        assert reports[..k + 1][..k] == reports[..k] && reports[..k + 1][k] == reports[k];
        var report := reports[k];
        if report.Some? && report.value.at.Some? {
          var timed := Timed(report.value.kind, report.value.at.value);
          S.SortAppend(IsOlder, Kept(reports[..k]), timed);
          assert Kept(reports[..k + 1]) == Kept(reports[..k]) + [timed];
          sorted := Emplace(sorted, timed);
        } else {
          assert Kept(reports[..k + 1]) == Kept(reports[..k]);
        }
      }
      assert reports[..|reports|] == reports;
      reportList := sorted;
    }

    method ProcessEvent(report: Timed)
      modifies `stored, `lastReported, `seen, `slots
      ensures Contents() == Processed(old(Contents()), report)
    {
      match report.kind
      case ServiceManagementFailure =>
        stored := Inactive;
        slots := slots[DistSessTerminated := report.at];
      case DataIngestFailure =>
        stored := Inactive;
        slots := slots[DistSessTerminated := report.at];
      case DataIngestSessionEstablished =>
        seen := seen + {DataIngestSessionEstablished};
        lastReported := Established;
      case DataIngestSessionTerminated =>
        seen := seen + {DataIngestSessionTerminated};
        lastReported := Deactivating;
      case SessionDeactivated =>
        seen := seen + {SessionDeactivated};
        lastReported := Inactive;
      case SessionActivated =>
        seen := seen + {SessionActivated};
        lastReported := Active;
    }

    method ProcessEvents()
      modifies `stored, `lastReported, `seen, `slots, `stateUpdate, `queued
      ensures Contents() == Continued(ProcessedAll(old(Contents()), reportList))
    {
      for k := 0 to |reportList|
        invariant stateUpdate == old(stateUpdate) && queued == old(queued)
        invariant Contents() == ProcessedAll(old(Contents()), reportList[..k])
      {
        assert reportList[..k + 1][..k] == reportList[..k] && reportList[..k + 1][k] == reportList[k];
        ProcessEvent(reportList[k]);
      }
      assert reportList[..|reportList|] == reportList;
      if lastReported == Inactive && stored == Established {
        stateUpdate := true;
        queued := queued + 1;
      }
    }

    method RegisterEvents()
      modifies `slots
      ensures slots == RegisteredAll(old(slots), reportList)
    {
      for k := 0 to |reportList|
        invariant slots == RegisteredAll(old(slots), reportList[..k])
      {
        assert reportList[..k + 1][..k] == reportList[..k];
        slots := slots[SlotOf(reportList[k].kind) := reportList[k].at];
      }
      assert reportList[..|reportList|] == reportList;
    }

    /** A notification, which must have some report whose time is known. */
    method ProcessStatusNotifyReqData(reports: seq<Option<Report>>)
      requires Kept(reports) != []
      modifies this
      ensures Contents() == Notified(old(Contents()), Kept(reports))
    {
      SortEventReports(reports);
      ProcessEvents();
      RegisterEvents();
    }
  }

  // ----- the newest report of some kinds ------------------------------------------------------------

  /** The newest report of the given kinds; of several that are equally new, the one that came last. */
  function Newest(reports: seq<Timed>, kinds: set<Kind>): Option<Timed> {
    if reports == [] then None
    else
      var newest, last := Newest(reports[..|reports| - 1], kinds), reports[|reports| - 1];
      if last.kind in kinds && (newest.None? || newest.value.at <= last.at) then Some(last) else newest
  }

  /** It is what the name says. */
  lemma {:induction false} NewestIsNewest(reports: seq<Timed>, kinds: set<Kind>)
    ensures var newest := Newest(reports, kinds);
            && (newest.Some? ==> newest.value in reports && newest.value.kind in kinds)
            && (forall r | r in reports && r.kind in kinds :: newest.Some? && r.at <= newest.value.at)
  {
    if reports != [] {
      NewestIsNewest(reports[..|reports| - 1], kinds);
      assert reports == reports[..|reports| - 1] + [reports[|reports| - 1]];
    }
  }

  /** The last report of the given kinds. */
  function Last(reports: seq<Timed>, kinds: set<Kind>): Option<Timed> {
    if reports == [] then None
    else if reports[|reports| - 1].kind in kinds then Some(reports[|reports| - 1])
    else Last(reports[..|reports| - 1], kinds)
  }

  ghost predicate Sorted(reports: seq<Timed>) {
    forall i, j | 0 <= i < j < |reports| :: reports[i].at <= reports[j].at
  }

  /** The sort puts the reports in order of time, and loses none. */
  lemma SortSorts(reports: seq<Timed>)
    ensures Sorted(Sort(reports)) && multiset(Sort(reports)) == multiset(reports)
  {
    assert forall x, y, z :: S.WeakAt(IsOlder, x, y, z);
    S.SortAscends(IsOlder, reports);
    S.SortKeeps(IsOlder, reports);
  }

  lemma LastAppend(reports: seq<Timed>, r: Timed, kinds: set<Kind>)
    ensures Last(reports + [r], kinds) == if r.kind in kinds then Some(r) else Last(reports, kinds)
  {
    assert (reports + [r])[..|reports|] == reports;
  }

  lemma {:induction false} LastInSorted(sorted: seq<Timed>, kinds: set<Kind>)
    requires Sorted(sorted)
    ensures var last := Last(sorted, kinds); last.Some? ==> last.value in sorted
  {
    if sorted != [] {
      LastInSorted(sorted[..|sorted| - 1], kinds);
    }
  }

  lemma {:induction false} LastAfterEmplace(sorted: seq<Timed>, r: Timed, kinds: set<Kind>)
    requires Sorted(sorted)
    ensures var last := Last(sorted, kinds);
            Last(Emplace(sorted, r), kinds) ==
            if r.kind in kinds && (last.None? || last.value.at <= r.at) then Some(r) else last
  {
    LastInSorted(sorted, kinds);
    if sorted == [] || sorted[|sorted| - 1].at <= r.at {
      LastAppend(sorted, r, kinds);
    } else {
      var init, last := sorted[..|sorted| - 1], sorted[|sorted| - 1];
      LastAfterEmplace(init, r, kinds);
      LastAppend(Emplace(init, r), last, kinds);
    }
  }

  lemma {:induction false} LastOfSorted(reports: seq<Timed>, kinds: set<Kind>)
    ensures Last(Sort(reports), kinds) == Newest(reports, kinds)
  {
    if reports != [] {
      var init := reports[..|reports| - 1];
      LastOfSorted(init, kinds);
      SortSorts(init);
      LastAfterEmplace(Sort(init), reports[|reports| - 1], kinds);
    }
  }

  // ----- what a notification amounts to -------------------------------------------------------------

  ghost predicate Has(reports: seq<Timed>, kinds: set<Kind>) {
    exists r :: r in reports && r.kind in kinds
  }

  lemma {:induction false} ProcessedMeans(info: Info, reports: seq<Timed>)
    ensures var after, stateful, failure := ProcessedAll(info, reports), Last(reports, STATEFUL), Last(reports, FAILURES);
            && after.reported == (if stateful.Some? then StateOf(stateful.value.kind) else info.reported)
            && after.stored == (if failure.Some? then Inactive else info.stored)
            && after.slots == (if failure.Some? then info.slots[DistSessTerminated := failure.value.at] else info.slots)
            && (forall k: Kind :: k in after.seen <==> k in info.seen || (k in STATEFUL && Last(reports, {k}).Some?))
            && after.stateUpdate == info.stateUpdate && after.queued == info.queued
  {
    if reports != [] {
      ProcessedMeans(info, reports[..|reports| - 1]);
    }
  }

  lemma {:induction false} RegisteredMeans(slots: map<Slot, int>, reports: seq<Timed>, kind: Kind)
    ensures var after, last := RegisteredAll(slots, reports), Last(reports, {kind});
            if last.Some? then SlotOf(kind) in after && after[SlotOf(kind)] == last.value.at
            else SameAt(slots, after, SlotOf(kind))
  {
    if reports != [] {
      RegisteredMeans(slots, reports[..|reports| - 1], kind);
    }
  }

  /** Two tables agree on a slot. */
  ghost predicate SameAt(before: map<Slot, int>, after: map<Slot, int>, slot: Slot) {
    (slot in before <==> slot in after) && (slot in before ==> before[slot] == after[slot])
  }

  /** A slot holds the time of a report if there is one, and is unchanged otherwise. */
  ghost predicate Holds(before: map<Slot, int>, after: map<Slot, int>, slot: Slot, newest: Option<Timed>) {
    if newest.Some? then slot in after && after[slot] == newest.value.at else SameAt(before, after, slot)
  }

  /** The whole effect of a notification, told without an order. The state last reported is that of the newest
      report that bears a state. A failure makes the stored state INACTIVE. Each slot holds the newest time of
      its kind. Only the slot for the end of a session also takes the times of failures, when the notification
      does not report a deactivation, be it older. */
  lemma NotifiedMeans(info: Info, reports: seq<Timed>)
    ensures var after, stateful := Notified(info, reports), Newest(reports, STATEFUL);
            && after.reported == (if stateful.Some? then StateOf(stateful.value.kind) else info.reported)
            && after.stored == (if Has(reports, FAILURES) then Inactive else info.stored)
            && (forall k: Kind :: k in after.seen <==> k in info.seen || (k in STATEFUL && Has(reports, {k})))
            && (after.stateUpdate <==> info.stateUpdate || (after.reported == Inactive && after.stored == Established))
            && after.queued == info.queued + (if after.reported == Inactive && after.stored == Established then 1 else 0)
            && forall slot: Slot :: Holds(info.slots, after.slots, slot, Deciding(reports, slot))
  {
    var sorted := Sort(reports);
    ProcessedMeans(info, sorted);
    LastOfSorted(reports, STATEFUL);
    LastOfSorted(reports, FAILURES);
    NewestExists(reports, FAILURES);
    forall k: Kind ensures Last(sorted, {k}).Some? <==> Has(reports, {k}) {
      LastOfSorted(reports, {k});
      NewestExists(reports, {k});
    }
    forall slot: Slot ensures Holds(info.slots, Notified(info, reports).slots, slot, Deciding(reports, slot)) {
      SlotMeans(info, reports, slot);
    }
  }

  /** The report that decides what a slot holds after a notification. */
  function Deciding(reports: seq<Timed>, slot: Slot): Option<Timed> {
    var newest := Newest(reports, {KindOf(slot)});
    if slot == DistSessTerminated && newest.None? then Newest(reports, FAILURES) else newest
  }

  lemma SlotMeans(info: Info, reports: seq<Timed>, slot: Slot)
    ensures Holds(info.slots, Notified(info, reports).slots, slot, Deciding(reports, slot))
  {
    var sorted := Sort(reports);
    var processed := Continued(ProcessedAll(info, sorted));
    ProcessedMeans(info, sorted);
    LastOfSorted(reports, FAILURES);
    LastOfSorted(reports, {KindOf(slot)});
    RegisteredMeans(processed.slots, sorted, KindOf(slot));
    assert SlotOf(KindOf(slot)) == slot;
  }

  function KindOf(slot: Slot): Kind {
    match slot
    case DataIngestFailureAt => DataIngestFailure
    case DistSessTerminated => SessionDeactivated
    case DistSessActivated => SessionActivated
    case DistSessServMngtFailure => ServiceManagementFailure
    case DistSessStarting => DataIngestSessionEstablished
    case SessionTerminated => DataIngestSessionTerminated
  }

  lemma NewestExists(reports: seq<Timed>, kinds: set<Kind>)
    ensures Newest(reports, kinds).Some? <==> Has(reports, kinds)
  {
    NewestIsNewest(reports, kinds);
    var newest := Newest(reports, kinds);
    if newest.Some? {
      assert newest.value in reports && newest.value.kind in kinds;
    }
  }

  /** Kind by kind: what the newest report that bears a state says, is what was reported last. */
  lemma NewestDecidesState(info: Info, reports: seq<Timed>)
    ensures var reported := Notified(info, reports).reported;
            var newest := Newest(reports, {SessionActivated, SessionDeactivated,
                                           DataIngestSessionEstablished, DataIngestSessionTerminated});
            if newest.None? then reported == info.reported
            else
              && (reported == Active <==> newest.value.kind == SessionActivated)
              && (reported == Inactive <==> newest.value.kind == SessionDeactivated)
              && (reported == Established <==> newest.value.kind == DataIngestSessionEstablished)
              && (reported == Deactivating <==> newest.value.kind == DataIngestSessionTerminated)
  {
    NotifiedMeans(info, reports);
    NewestIsNewest(reports, STATEFUL);
    assert STATEFUL == {SessionActivated, SessionDeactivated, DataIngestSessionEstablished, DataIngestSessionTerminated};
  }

  /** And slot by slot. */
  lemma NewestDecidesSlots(info: Info, reports: seq<Timed>)
    ensures var before, after := info.slots, Notified(info, reports).slots;
            && Holds(before, after, DataIngestFailureAt, Newest(reports, {DataIngestFailure}))
            && Holds(before, after, DistSessServMngtFailure, Newest(reports, {ServiceManagementFailure}))
            && Holds(before, after, DistSessActivated, Newest(reports, {SessionActivated}))
            && Holds(before, after, DistSessStarting, Newest(reports, {DataIngestSessionEstablished}))
            && Holds(before, after, SessionTerminated, Newest(reports, {DataIngestSessionTerminated}))
            && Holds(before, after, DistSessTerminated,
                     if Has(reports, {SessionDeactivated}) then Newest(reports, {SessionDeactivated})
                     else Newest(reports, {DataIngestFailure, ServiceManagementFailure}))
  {
    SlotMeans(info, reports, DataIngestFailureAt);
    SlotMeans(info, reports, DistSessServMngtFailure);
    SlotMeans(info, reports, DistSessActivated);
    SlotMeans(info, reports, DistSessStarting);
    SlotMeans(info, reports, SessionTerminated);
    SlotMeans(info, reports, DistSessTerminated);
    NewestExists(reports, {SessionDeactivated});
    assert FAILURES == {DataIngestFailure, ServiceManagementFailure};
  }

  // ----- a notification as an event of the state protocol -------------------------------------------

  /** The part of a session that the state protocol looks at. */
  function ContextOf(info: Info, requested: DistState): C.Context {
    C.Context(info.stored, requested, info.reported, info.stateUpdate)
  }

  /** A notification does to the state protocol what one report of the newest state does, or of the state known
      before when no report bears one, after a failure if any is among the reports. */
  lemma NotificationIsOneReport(info: Info, reports: seq<Timed>, requested: DistState, want: DistState)
    ensures var c := ContextOf(info, requested);
            var failed := Has(reports, {DataIngestFailure, ServiceManagementFailure});
            var known := if failed then C.Handled(c, C.Failure, want).context else c;
            var handled := C.Handled(known, C.Report(Notified(info, reports).reported), want);
            && ContextOf(Notified(info, reports), requested) == handled.context
            && Notified(info, reports).queued == info.queued + handled.queued
  {
    NotifiedMeans(info, reports);
    assert FAILURES == {DataIngestFailure, ServiceManagementFailure};
  }

  /** `updatedSince`: the slots that are newer here than in another table. */
  function UpdatedSince(slots: map<Slot, int>, other: map<Slot, int>): set<Slot> {
    set slot | slot in slots && (slot !in other || other[slot] < slots[slot])
  }

  /** Subscribers who know the times before a notification learn exactly of those events for which it decides
      a newer time. An event that is reported late is not announced, though it sets its slot back. */
  lemma AnnouncedExactly(info: Info, reports: seq<Timed>, slot: Slot)
    ensures var after, deciding := Notified(info, reports).slots, Deciding(reports, slot);
            && (slot in UpdatedSince(after, info.slots) <==>
                  deciding.Some? && (slot in info.slots ==> info.slots[slot] < deciding.value.at))
            && (slot in UpdatedSince(info.slots, after) <==>
                  deciding.Some? && slot in info.slots && deciding.value.at < info.slots[slot])
  {
    SlotMeans(info, reports, slot);
  }

  // ----- the order of the reports -------------------------------------------------------------------

  /** The reports that are newest among those that bear a state, all bear the same. Reports with different
      times always agree. */
  ghost predicate NewestAgree(reports: seq<Timed>) {
    forall r, q | IsNewest(reports, r) && IsNewest(reports, q) :: StateOf(r.kind) == StateOf(q.kind)
  }

  ghost predicate IsNewest(reports: seq<Timed>, r: Timed) {
    r in reports && r.kind in STATEFUL && forall q | q in reports && q.kind in STATEFUL :: q.at <= r.at
  }

  lemma SameNewest(xs: seq<Timed>, ys: seq<Timed>, kinds: set<Kind>)
    requires multiset(xs) == multiset(ys)
    ensures Has(xs, kinds) <==> Has(ys, kinds)
    ensures Newest(xs, kinds).Some? <==> Newest(ys, kinds).Some?
    ensures Newest(xs, kinds).Some? ==> Newest(xs, kinds).value.at == Newest(ys, kinds).value.at
  {
    S.SameMembers(xs, ys);
    NewestIsNewest(xs, kinds);
    NewestIsNewest(ys, kinds);
    NewestExists(xs, kinds);
    NewestExists(ys, kinds);
  }

  lemma SameSlots(one: map<Slot, int>, other: map<Slot, int>)
    requires forall slot: Slot :: SameAt(one, other, slot)
    ensures one == other
  {
    assert forall slot :: slot in one ==> SameAt(one, other, slot);
    assert forall slot :: slot in other ==> SameAt(one, other, slot);
  }

  lemma AgreeingOrders(info: Info, xs: seq<Timed>, ys: seq<Timed>)
    requires multiset(xs) == multiset(ys) && NewestAgree(xs)
    ensures Notified(info, xs) == Notified(info, ys)
  {
    NotifiedMeans(info, xs);
    NotifiedMeans(info, ys);
    SameNewest(xs, ys, FAILURES);
    AgreeingReports(xs, ys);
    var one, other := Notified(info, xs), Notified(info, ys);
    forall k: Kind ensures k in one.seen <==> k in other.seen {
      SameNewest(xs, ys, {k});
    }
    forall slot: Slot ensures SameAt(one.slots, other.slots, slot) {
      AgreeingSlots(info, xs, ys, slot);
    }
    SameSlots(one.slots, other.slots);
  }

  lemma AgreeingSlots(info: Info, xs: seq<Timed>, ys: seq<Timed>, slot: Slot)
    requires multiset(xs) == multiset(ys)
    ensures SameAt(Notified(info, xs).slots, Notified(info, ys).slots, slot)
  {
    SlotMeans(info, xs, slot);
    SlotMeans(info, ys, slot);
    SameNewest(xs, ys, FAILURES);
    SameNewest(xs, ys, {KindOf(slot)});
  }

  lemma AgreeingReports(xs: seq<Timed>, ys: seq<Timed>)
    requires multiset(xs) == multiset(ys) && NewestAgree(xs)
    ensures var one, other := Newest(xs, STATEFUL), Newest(ys, STATEFUL);
            one.Some? == other.Some? && (one.Some? ==> StateOf(one.value.kind) == StateOf(other.value.kind))
  {
    SameNewest(xs, ys, STATEFUL);
    S.SameMembers(xs, ys);
    NewestIsNewest(xs, STATEFUL);
    NewestIsNewest(ys, STATEFUL);
    var one, other := Newest(xs, STATEFUL), Newest(ys, STATEFUL);
    if one.Some? {
      assert IsNewest(xs, one.value) && IsNewest(xs, other.value);
    }
  }

  /** A notification that differs only in order, and has a given newest report at the end. */
  lemma MovedToEnd(info: Info, reports: seq<Timed>, r: Timed) returns (moved: seq<Timed>)
    requires IsNewest(reports, r)
    ensures multiset(moved) == multiset(reports) && Notified(info, moved).reported == StateOf(r.kind)
  {
    var k :| 0 <= k < |reports| && reports[k] == r;
    var rest := reports[..k] + reports[k + 1..];
    moved := rest + [r];
    assert reports == reports[..k] + [r] + reports[k + 1..];
    S.SameMembers(moved, reports);
    assert moved[..|moved| - 1] == rest;
    NewestIsNewest(rest, STATEFUL);
    var newest := Newest(rest, STATEFUL);
    assert newest.Some? ==> newest.value in moved;
    NotifiedMeans(info, moved);
  }

  /** The order in which a notification lists its reports does not matter, exactly if the newest reports that
      bear a state agree. In particular it never matters when all times differ. */
  lemma OrderIndependentExactly(info: Info, reports: seq<Timed>)
    ensures NewestAgree(reports) <==> forall ys | multiset(ys) == multiset(reports) :: SameEffect(info, reports, ys)
    ensures (forall i, j | 0 <= i < j < |reports| :: reports[i].at != reports[j].at) ==> NewestAgree(reports)
  {
    if NewestAgree(reports) {
      forall ys | multiset(ys) == multiset(reports) ensures SameEffect(info, reports, ys) {
        AgreeingOrders(info, reports, ys);
      }
    } else {
      var r, q :| IsNewest(reports, r) && IsNewest(reports, q) && StateOf(r.kind) != StateOf(q.kind);
      var xs := MovedToEnd(info, reports, r);
      var ys := MovedToEnd(info, reports, q);
      assert !(SameEffect(info, reports, xs) && SameEffect(info, reports, ys));
      var i :| 0 <= i < |reports| && reports[i] == r;
      var j :| 0 <= j < |reports| && reports[j] == q;
      assert reports[i].at == reports[j].at && i != j;
    }
  }

  ghost predicate SameEffect(info: Info, xs: seq<Timed>, ys: seq<Timed>) {
    Notified(info, xs) == Notified(info, ys)
  }
}
