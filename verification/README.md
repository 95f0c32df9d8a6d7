# A model of the MBSF and its proofs

The MBSF (Multicast/Broadcast Service Function) of a 5G core runs MBS User Data Ingest Sessions. Each of them
holds distribution sessions, which a schedule switches between INACTIVE, ESTABLISHED and ACTIVE. The MB-SMF
allocates an MBS session for each, and the MBSTF carries it out. This project models the parts of the MBSF that
decide, and proves what they promise:

| file | models |
|---|---|
| `Schedule.dfy`, `Pattern.dfy` | the answers of a schedule; a repeating pattern measured in clock ticks |
| `StableSort.dfy` | the stable sort that stands for `std::list::sort` and `std::multimap` |
| `RepetitionRule.dfy` | the schedule given by a repetition rule (`ActivePeriodsRepRule`), which divides and cuts to whole seconds |
| `ActivePeriods.dfy` | the schedule given by a list of windows (`ActivePeriods`): the scan, the conversion of a request, the versions |
| `ActivationTimer.dfy` | that the rule refines the list, and the timer that looks at the schedule only at announced instants |
| `Identifiers.dfy`, `ServiceAreas.dfy`, `UniqueSessionIds.dfy`, `SessionIdSet.dfy` | the comparison of unique MBS session ids, and the search tree that is keyed by it |
| `StateChanges.dfy` | how a distribution session follows the wanted state by PATCH requests, with the detour over INACTIVE |
| `ScheduleChanges.dfy` | a schedule that changes its mind while PATCH requests are under way |
| `ScheduledSession.dfy` | the timer and the PATCH protocol together |
| `IngestSession.dfy` | the barriers over all distribution sessions at creation and at deletion |
| `MbSmfSession.dfy` | pushing changes to the MB-SMF one at a time |
| `EventReports.dfy` | the event reports of a notification: their sorting, and what they change |
| `NotificationUrls.dfy` | the escaping of notification URLs and the map from them to sessions |
| `MultipartMime.dfy` | the multipart body that is grown in place |

Time is a whole number of clock ticks, `ticks` of them to the second. The clock, the lead before a window and the
results of the network are parameters. Code that changes objects step by step is a class whose methods are tied to
functions on the contents of the object; what the code promises is proved about these functions, over runs of any
length. `dafny verify dfyconfig.toml` checks the project.

## What came out

Some promises hold only under a condition, which is then stated exactly:

* A timer that looks at the schedule only at announced instants misses nothing exactly if the duration of a rule
  fits into its interval, or no window that the scan can stop at is over before it starts
  (`RepetitionRule.HoldsExactly`, `ActivePeriods.HoldsExactly`). What a list can miss is the end of a lead
  (`ActivePeriods.ReversedWindowIsMissed`), never an activation (`ActivePeriods.NoActivationIsMissed`).
* The comparison of session ids is an order exactly if areas fall into groups that overlap throughout and no other
  area has its key between theirs (`UniqueSessionIds.WeakOrderExactly`). It tells list entries apart by their
  address, and does not count the length of a list. External areas that are apart are held equal
  (`UniqueSessionIds.ExternalAreasCollide`), so ids in them are ordered only in trivial cases
  (`UniqueSessionIds.ExternalOrderExactly`).
* A session gets from ACTIVE to ESTABLISHED exactly if no PATCH response is handled while the second PATCH is
  queued; otherwise it stays INACTIVE (`StateChanges.ConvergesUnlessOvertaken`).
* When the schedule returns to the reported state while another is under way, nothing is sent, and the session can
  come to rest in the other (`ScheduleChanges.ReturningRun`). For which sessions a wake-up leads to the wanted
  state is stated exactly, whatever is under way (`ScheduleChanges.LastWakeExactly`).
* A session whose changes come to rest between wake-ups follows its schedule (`ScheduledSession.FollowsSchedule`),
  as long as no transition falls between the two readings of the clock at one wake-up. Otherwise a whole window
  can be lost (`ActivationTimer.WindowLostBetweenReadings`).
* An ingest session that could not be created is deleted exactly if the last result was a failure
  (`IngestSession.CreateBarrier`). Clients that wait for its deletion are then never answered, whatever follows
  (`IngestSession.FailureForgetsDeleteRequests`). When the deletion of every MBS session is reported in the end,
  this is the only way in which a client is forgotten (`IngestSession.DeletionAnswersExactly`).
* The MBSTF is asked for a context once for every success of the MB-SMF while all are created and its response is
  not in, so more than once exactly if there is more than one (`IngestSession.AskedExactly`).
* `deleteSession` can put a second request in flight, exactly when it is called while one is outstanding
  (`MbSmfSession.OneAtATimeExactly`).
* The order of the reports in a notification matters exactly if newest reports of the same time bear different
  states (`EventReports.OrderIndependentExactly`). A report that comes late sets its slot back, and is not
  announced (`EventReports.AnnouncedExactly`).
* A multipart body can be taken apart exactly if no part contains the delimiter
  (`MultipartMime.PartsAreRecovered`).

## Model

| member | source | states |
|---|---|---|
| `RepetitionRule.TruncationIsExact` | src/mbsf/ActivePeriodsRepRule.cc:105-128 | cutting the remainder to whole seconds changes no comparison with a number of seconds |
| `RepetitionRule.Untruncated` | src/mbsf/ActivePeriodsRepRule.cc:84-177 | state and transition of a rule are those of the pattern measured in ticks |
| `RepetitionRule.ClosedForm` | src/mbsf/ActivePeriodsRepRule.cc:84-132 | for every duration and lead: ACTIVE iff in a window, ESTABLISHED iff in no window but in the lead of one |
| `RepetitionRule.HoldsExactly` | src/mbsf/ActivePeriodsRepRule.cc:84-177 | at every instant both answers stay until the announced instant, which is ahead, iff the duration fits into the interval |
| `RepetitionRule.PredictsExactly` | src/mbsf/ActivePeriodsRepRule.cc:155-174 | the announced state is the state found there, at every instant, iff there is a lead, windows are not empty and gaps exceed the lead |
| `RepetitionRule.FourSpanAnInterval` | src/mbsf/ActivePeriodsRepRule.cc:134-177 | the chain of transitions never ends, and any four in succession span an interval |
| `Pattern.Pattern.ClosedForm` | src/mbsf/ActivePeriodsRepRule.cc:99-128 | the same closed form in ticks, from the place of an instant in its period |
| `Pattern.Pattern.FourSpanAPeriod` | src/mbsf/ActivePeriodsRepRule.cc:150-174 | four armed instants span a period, windows longer than the period included |
| `ActivePeriods.FirstMatchDecidesUnion` | src/mbsf/ActivePeriods.cc:76-113 | on a sorted list, overlapping or not, the first match gives the state of the union of all windows |
| `ActivePeriods.HoldsExactly` | src/mbsf/ActivePeriods.cc:76-153 | sampling at transitions loses nothing iff every window the scan can stop at is timely; with no transition left nothing changes ever again |
| `ActivePeriods.ReversedWindowIsMissed` | src/mbsf/ActivePeriods.cc:115-153 | a sorted list with a window that ends before it starts, on which the end of a lead is missed |
| `ActivePeriods.NoActivationIsMissed` | src/mbsf/ActivePeriods.cc:76-153 | on every sorted list, reversed windows included, no activation comes before the announced instant |
| `ActivePeriods.PredictsExactly` | src/mbsf/ActivePeriods.cc:121-152 | announced states are right iff the list is empty, or there is a lead and each window is followed by a longer gap |
| `ActivePeriods.RemainingDrops` | src/mbsf/ActivePeriods.cc:115-153 | the measure of transitions left drops at each announced instant |
| `ActivePeriods.BoundedWakeups` | src/mbsf/ActivePeriods.cc:115-153 | n windows wake a punctual timer at most 3n times |
| `ActivePeriods.SortSorts` | src/mbsf/ActivePeriods.cc:224-226 | the sort orders by start and keeps the multiset of windows |
| `StableSort.SortAscends` | src/mbsf/ActivePeriods.cc:224-226 | the stable sort puts values in order, for every comparison that is a strict weak order on them |
| `StableSort.SortedIsKept` | src/mbsf/ActivePeriods.cc:224-226 | what is in order already is left as it is |
| `ActivePeriods.ConversionKeepsWindows` | src/mbsf/ActivePeriods.cc:193-228 | conversion yields exactly the windows that parse, in order of their starts |
| `ActivePeriods.EverySortedListArises` | src/mbsf/ActivePeriods.cc:193-228 | every sorted list is the conversion of the request that lists it |
| `ActivePeriods.CarriesOver` | src/mbsf/ActivePeriods.cc:209-220 | a window of the old list keeps its version in the new one |
| `ActivePeriods.VersionsPersist` | src/mbsf/ActivePeriods.cc:193-228 | across any chain of updates a window that is always requested keeps the version it was given |
| `ActivePeriods.OnceCarries` | src/mbsf/ActivePeriods.cc:210-216 | a window that a list holds once has a version to keep |
| `ActivePeriods.VersionsTellApart` | src/mbsf/ActivePeriods.cc:209-220 | over any chain of updates from no list, windows with different bounds never share a version, and all versions are below the counter |
| `ActivePeriods.ActivePeriods.ConvertActPeriods` | src/mbsf/ActivePeriods.cc:193-228 | the list built in place, and the version counter, are the sorted versioned windows of the request |
| `ActivePeriods.ActivePeriods.CurrentState` | src/mbsf/ActivePeriods.cc:76-113 | the scanning loop gives the state at the first window not over |
| `ActivePeriods.ActivePeriods.NextTransition` | src/mbsf/ActivePeriods.cc:115-153 | the scanning loop gives the transition of the first window not over |
| `ActivationTimer.RuleRefinesWindows` | src/mbsf/ActivePeriodsRepRule.cc:84-177 | before the end of its n-th window a rule and the list of its first n windows give the same state and the same transition |
| `ActivationTimer.RuleStatesRefineWindows` | src/mbsf/ActivePeriodsRepRule.cc:84-132 | they give the same state for every duration, be it above the interval |
| `ActivationTimer.RuleRefinesExactly` | src/mbsf/ActivePeriodsRepRule.cc:134-177 | they announce the same transitions iff the duration fits into the interval |
| `ActivationTimer.ScheduleMeans` | src/mbsf/AlwaysActive.cc:50-60 | the answers of each kind of schedule, said without the code: no schedule is ACTIVE or the given state with no transition; lists and rules by their windows |
| `ActivationTimer.NothingKnown` | src/mbsf/ActivePeriodsRepRule.cc:94-98 | a rule whose start does not parse has no state and no transition |
| `ActivationTimer.NothingMissed` | src/mbsf/UserDataIngSession.cc:801-819 | for every kind of schedule nothing changes between an instant and the transition announced at it |
| `ActivationTimer.SampledStateIsCurrent` | src/mbsf/UserDataIngSession.cc:988-1013 | in a timer run of any length, early and late wake-ups included, where no transition falls between sampling and arming: the state sampled at the last wake-up that was due holds until the next announced instant |
| `ActivationTimer.StaleOnlyWhenLate` | src/mbsf/UserDataIngSession.cc:988-1013 | in such a run the sampled state is another than the current one only from an announced instant until the wake-up that is late for it |
| `ActivationTimer.WindowLostBetweenReadings` | src/mbsf/UserDataIngSession.cc:994-1012 | a wake-up that samples just before a window and arms just after its start loses the window |
| `ActivationTimer.ArmedWithinAMillisecond` | src/mbsf/UserDataIngSession.cc:2838-2843 | the delay never overshoots, and falls short by less than a millisecond; it is none for an instant gone by |
| `ActivationTimer.SessionTimer.StartTimer` | src/mbsf/UserDataIngSession.cc:801-819 | the timer ends up armed just before the next transition, at once if that has passed when the delay is computed, or stopped if there is none |
| `Identifiers.StringsOrdered` | src/mbsf/UniqueMBSSessionId.cc:357-362 | the order of strings is strict and total |
| `Identifiers.TaisOrdered` | src/mbsf/UniqueMBSSessionId.cc:383-401 | `TaiLess` is a strict total order |
| `Identifiers.NcgisOrdered` | src/mbsf/UniqueMBSSessionId.cc:364-381 | `NcgiLess` is a strict total order |
| `Identifiers.IpAddrsOrdered` | src/mbsf/UniqueMBSSessionId.cc:890-914 | `ip_addr_ordering` is a total order on addresses |
| `Identifiers.SsmsOrdered` | src/mbsf/UniqueMBSSessionId.cc:875-888 | `ssm_ordering` is a total order, no SSM first |
| `Identifiers.TmgisOrdered` | src/mbsf/UniqueMBSSessionId.cc:916-930 | `tmgi_ordering` is a total order |
| `Identifiers.StringLessMeans` | src/mbsf/UniqueMBSSessionId.cc:357-362 | the first character in which two strings differ decides, and a string comes before its continuations |
| `Identifiers.TaiLessMeans` | src/mbsf/UniqueMBSSessionId.cc:385-390 | TAIs are ordered by MCC, MNC, TAC and NID, the first that differs; no NID first |
| `Identifiers.NcgiLessMeans` | src/mbsf/UniqueMBSSessionId.cc:365-370 | cells are ordered by MCC, MNC, cell id and NID; no NID first |
| `Identifiers.IpAddrLessMeans` | src/mbsf/UniqueMBSSessionId.cc:890-914 | addresses are ordered by IPv4 address, IPv6 address and prefix, an absent one first |
| `Identifiers.SsmLessMeans` | src/mbsf/UniqueMBSSessionId.cc:875-888 | no SSM comes first, then the fields of the destination decide before those of the source |
| `Identifiers.TmgiLessMeans` | src/mbsf/UniqueMBSSessionId.cc:916-930 | TMGIs are ordered by service, MCC and MNC |
| `Identifiers.SessionsOrdered` | src/mbsf/UniqueMBSSessionId.cc:790-804 | with its flags as callers set them the session comparison is a total preorder; equal are sessions with the same SSM, or with none and the same TMGI |
| `Identifiers.SessionLessMeans` | src/mbsf/UniqueMBSSessionId.cc:790-804 | sessions without SSM come first: those without TMGI, then by TMGI; those with an SSM are ordered by it alone |
| `Identifiers.TmgiMayBeWritten` | src/mbsf/UserDataIngSession.cc:2225-2229 | writing a TMGI into an id changes no comparison iff the id has an SSM or had that TMGI |
| `ServiceAreas.SvcAreaOverlap` | src/mbsf/UniqueMBSSessionId.cc:687-746 | the search loops find an overlap iff there is a shared cell or TAI, or a TAI around an NcgiTai |
| `ServiceAreas.NcgiTaiOverlap` | src/mbsf/UniqueMBSSessionId.cc:669-685 | two NcgiTais overlap iff their TAIs are equal and they share a cell |
| `ServiceAreas.OverlapIsIntersection` | src/mbsf/UniqueMBSSessionId.cc:669-746 | on all areas, overlap is intersection of the covered cells, or an NcgiTai without cells inside a TAI |
| `ServiceAreas.OverlapOfWellFormed` | src/mbsf/UniqueMBSSessionId.cc:669-746 | on well-formed areas overlap is intersection, symmetric and reflexive |
| `ServiceAreas.SvcAreaOrdering` | src/mbsf/UniqueMBSSessionId.cc:807-864 | the loops over sorted copies compute the walk that tells entries apart by address |
| `ServiceAreas.KeysOrdered` | src/mbsf/UniqueMBSSessionId.cc:807-864 | the keys of areas are totally ordered |
| `ServiceAreas.DisjointOrderedByKey` | src/mbsf/UniqueMBSSessionId.cc:807-864 | areas that do not overlap have different keys, and the ordering of areas is that of the keys |
| `ServiceAreas.DisjointAreasInOrder` | src/mbsf/UniqueMBSSessionId.cc:807-864 | of two areas apart that one is less which has a TAI or cell before all those of the other: TAIs before cells, cells within their TAI |
| `ServiceAreas.WalkMeans` | src/mbsf/UniqueMBSSessionId.cc:823-833 | lists of any kind are compared at the first place where they hold different objects, and are equal if there is none before the shorter ends |
| `ServiceAreas.GapsComeFirst` | src/mbsf/UniqueMBSSessionId.cc:424-435 | empty entries are sorted to the front, and a list with one comes before a list without |
| `ServiceAreas.FirstIsLeast` | src/mbsf/UniqueMBSSessionId.cc:407-410 | the first entry after sorting is the least one |
| `ServiceAreas.SameListingSameKey` | src/mbsf/UniqueMBSSessionId.cc:403-436 | areas that list the same things in any order have the same key |
| `UniqueSessionIds.CompareIds` | src/mbsf/UniqueMBSSessionId.cc:594-633 | the imperative comparison, with the overlap search, computes `Compare` |
| `UniqueSessionIds.NoSessionComesFirst` | src/mbsf/UniqueMBSSessionId.cc:594-606 | an id without a session is equal to its like and less than any other |
| `UniqueSessionIds.ExternalComesFirst` | src/mbsf/UniqueMBSSessionId.cc:617-632 | an id with only an external area and one with only a service area are never equal, and the external one is less, either way round |
| `UniqueSessionIds.CompareByKeys` | src/mbsf/UniqueMBSSessionId.cc:594-633 | for places of all kinds: where they meet the session keys decide, and where they are apart the keys of the places, those without a service area first |
| `UniqueSessionIds.WeakOrderExactly` | src/mbsf/UniqueMBSSessionId.cc:594-633 | the comparison is a weak order on all sessions at a set of places, service areas and overlapping external areas mixed, iff meeting is transitive there and a place apart from two that meet is on the same side of both |
| `UniqueSessionIds.ChainIsNotSeparated` | src/mbsf/UniqueMBSSessionId.cc:687-746 | for any two TAIs, three well-formed areas that are not separated |
| `UniqueSessionIds.ExternalAreasCollide` | src/mbsf/UniqueMBSSessionId.cc:617-624 | all sessions in external areas compare equal iff their keys are the same or the areas are apart |
| `UniqueSessionIds.ExternalOrderExactly` | src/mbsf/UniqueMBSSessionId.cc:866-873 | sessions in external areas are ordered iff there is one session key, or all areas overlap, or all are empty |
| `SessionIdSet.ContainsExactly` | src/mbsf/Context.cc:427-431 | a search finds an id iff the tree holds one that compares equal |
| `SessionIdSet.InsertKeepsOrder` | src/mbsf/Context.cc:396-403 | insertion keeps the search tree, and adds the id unless an equal one is there |
| `SessionIdSet.EraseKeepsOrder` | src/mbsf/Context.cc:412-418 | erasure keeps the search tree, and takes out just the ids that compare equal |
| `SessionIdSet.RunKeepsRegistered` | src/mbsf/Context.cc:396-418 | after any run the tree is ordered and holds the registered ids |
| `SessionIdSet.LookupIsExact` | src/mbsf/Context.cc:427-431 | after any run over ids with and without sessions, in service areas and external ones, a lookup succeeds iff some registered id has the same session key and a place that it meets, or neither has a session |
| `SessionIdSet.AlikeOrApart` | src/mbsf/UniqueMBSSessionId.cc:594-633 | places that are alike or apart from each other are separated |
| `SessionIdSet.WritingKeepsOrder` | src/mbsf/UserDataIngSession.cc:2225-2229 | writing a TMGI into a registered id with an SSM leaves a search tree |
| `SessionIdSet.WritingKeepsLookups` | src/mbsf/UserDataIngSession.cc:2225-2229 | and every lookup answers as before |
| `SessionIdSet.WrittenMembers` | src/mbsf/UserDataIngSession.cc:2225-2229 | the set holds the id with the new TMGI in the place of the old one, and the others as they were |
| `SessionIdSet.Context.HaveMbsSessionId` | src/mbsf/Context.cc:427-431 | the descent answers whether the tree contains the id |
| `SessionIdSet.Context.AddMbsSessionId` | src/mbsf/Context.cc:396-403 | the set becomes the one with the id inserted |
| `SessionIdSet.Context.DeleteMbsSessionId` | src/mbsf/Context.cc:412-418 | the set becomes the one with the id erased |
| `StateChanges.ContextData.BuildPatch` | src/mbsf/Nmb2Build.cc:254-298 | the state a PATCH asks for, remembered as last requested |
| `StateChanges.ContextData.ChangeState` | src/mbsf/UserDataIngSession.cc:988-1013 | a wake-up stores the wanted state, and sends a PATCH unless it is reported already |
| `StateChanges.ContextData.HandlePatchUpdateResponse` | src/mbsf/UserDataIngSession.cc:1745-1782 | a response ends the update, and wakes the session if its stored state is not the wanted one |
| `StateChanges.ContextData.ProcessReport` | src/mbsf/DistributionSessionInfo.cc:590-618 | a report is remembered; INACTIVE on the way to ESTABLISHED queues the second PATCH |
| `StateChanges.ContextData.SendLocalPatch` | src/mbsf/UserDataIngSession.cc:610-632 | a queued PATCH is sent if an update is under way and the wanted state is not reported |
| `StateChanges.NeverStraightToEstablished` | src/mbsf/Nmb2Build.cc:254-269 | in any run, however the schedule changes: no PATCH asks for ESTABLISHED while ACTIVE is the last report, nor for what is reported already |
| `StateChanges.BuilderAsks` | src/mbsf/Nmb2Build.cc:254-298 | for every context: the builder asks for nothing iff no change is under way or the state is there or none is wanted, keeping the record then; from ACTIVE to ESTABLISHED it asks twice, INACTIVE first; else for the wanted state |
| `StateChanges.FailureEndsDetour` | src/mbsf/DistributionSessionInfo.cc:436-466 | after a failure no run of reports queues the second PATCH, and the response that comes next wakes the session unless INACTIVE is wanted |
| `StateChanges.Progress` | src/mbsf/UserDataIngSession.cc:610-632 | every step but a wake-up brings the end nearer, and until then there is one to take |
| `StateChanges.ConvergesExactly` | src/mbsf/DistributionSessionInfo.cc:590-618 | with responses before reports, any run that comes to rest ends in the wanted state, with at most two PATCHes per wake-up, iff the state was not asked for already or was there |
| `ScheduleChanges.LastWakeConverges` | src/mbsf/UserDataIngSession.cc:988-1013 | from any session, with anything under way: a wake-up for a state not asked for last leads there, if that is not reported, or nothing is to come, or what comes last leads there |
| `ScheduleChanges.AnyScheduleStaysInStep` | src/mbsf/Nmb2Build.cc:254-298 | however the schedule changes, what comes last is what was asked for last |
| `ScheduleChanges.AskedAlready` | src/mbsf/UserDataIngSession.cc:995 | a wake-up for the state asked for last changes nothing and sends nothing |
| `ScheduleChanges.LastWakeExactly` | src/mbsf/UserDataIngSession.cc:988-1013 | for every session in step and every wanted state: all orderly runs after the wake-up that come to rest end there iff a condition on what is asked for, reported, to come, outstanding and queued holds |
| `ScheduleChanges.LastWakeWithoutDetour` | src/mbsf/UserDataIngSession.cc:995-1009 | with no event queued and no INACTIVE to come, every run without a further wake-up ends there iff the session is promising |
| `ScheduleChanges.ReturningRun` | src/mbsf/UserDataIngSession.cc:1005-1008 | a session for which the schedule returns to ACTIVE too early comes to rest at INACTIVE |
| `ScheduleChanges.LeavingActive` | src/mbsf/UserDataIngSession.cc:988-1013 | that session is reached from one at rest |
| `ScheduledSession.RoundArrives` | src/mbsf/UserDataIngSession.cc:988-1013 | a wake-up leads a session at rest from a state asked for and reported to the wanted one, asked for and reported |
| `ScheduledSession.FollowsSchedule` | src/mbsf/UserDataIngSession.cc:988-1013 | over a run of wake-ups with rest in between, the reported state at rest is the state that any schedule gives, until the transition announced at the wake-up |
| `ScheduledSession.WithoutSchedule` | src/mbsf/AlwaysActive.cc:50-60 | a session without a schedule is woken once, and at rest it reports ACTIVE for ever, or the state it was given |
| `ScheduledSession.FollowsWindows` | src/mbsf/ActivePeriods.cc:76-153 | from the clock to the report: at rest the session reports ACTIVE just in the windows of its list, ESTABLISHED just in their leads, INACTIVE else |
| `StateChanges.ConvergesUnlessOvertaken` | src/mbsf/UserDataIngSession.cc:1760-1773 | in any order, a run with one wake-up ends in the wanted state iff no response is handled while the second PATCH is queued |
| `StateChanges.OvertakenRun` | src/mbsf/UserDataIngSession.cc:610-632 | a run in which the session stays INACTIVE |
| `IngestSession.UserDataIngSession.SetMbsSessionFlag` | src/mbsf/UserDataIngSession.cc:2033-2058 | a success, with the checks over all contexts, queues requests or reports problems |
| `IngestSession.UserDataIngSession.SetMbsSessionFailureFlag` | src/mbsf/UserDataIngSession.cc:2089-2106 | a failure that is the last result is reported, and deletes the session |
| `IngestSession.UserDataIngSession.SetMbsSessionDeleted` | src/mbsf/UserDataIngSession.cc:2060-2087 | when all are deleted every waiting client gets its 204 and the session goes |
| `IngestSession.UserDataIngSession.SendMbstfRequests` | src/mbsf/UserDataIngSession.cc:1898-1911 | one request is queued for each context without a response |
| `IngestSession.UserDataIngSession.SendMbstfRequestBuild` | src/mbsf/UserDataIngSession.cc:592-608 | a queued request is sent unless its session is gone |
| `IngestSession.UserDataIngSession.ProcessDistSession` | src/mbsf/UserDataIngSession.cc:1328-1392 | a response is noted, and success is replied when all are in |
| `IngestSession.UserDataIngSession.Delete` | src/mbsf/UserDataIngSession.cc:531-558 | a delete request waits, or is told that there is no session |
| `IngestSession.DeleteBarrier` | src/mbsf/UserDataIngSession.cc:2060-2087 | over every run: no 204 before all are deleted; then each accepted delete request has exactly one, in order, and none waits |
| `IngestSession.StatusIsLastResult` | src/mbsf/UserDataIngSession.cc:2033-2106 | while the session is found each context shows its last result |
| `IngestSession.GoneExactly` | src/mbsf/UserDataIngSession.cc:2060-2106 | over every run a session goes iff all its MBS sessions are deleted or a failure was the last of the results, and never for both |
| `IngestSession.DeletionAnswersExactly` | src/mbsf/UserDataIngSession.cc:1887-1896 | if deletion is the last result of each, all accepted clients have their 204 iff there are none or no failure was the last of the results before |
| `IngestSession.FailureForgetsDeleteRequests` | src/mbsf/UserDataIngSession.cc:2096-2100 | after a failure that is the last of the results, the clients waiting then are never answered, whatever follows |
| `IngestSession.LateRequestsAreRefused` | src/mbsf/UserDataIngSession.cc:540-555 | over every run, exactly the delete requests that come when the session is gone are answered by 404, once each and in order |
| `IngestSession.GoneStaysSilent` | src/mbsf/UserDataIngSession.cc:592-608 | once a session is gone no request and no reply is sent any more, whatever is queued and whatever comes |
| `IngestSession.ForgettingRun` | src/mbsf/UserDataIngSession.cc:2096-2100 | a run in which a waiting client is forgotten |
| `IngestSession.FailureReportedTwice` | src/mbsf/MBSMFMBSSession.cc:244-259 | reporting a failure twice, as the handler does, changes nothing more |
| `IngestSession.CreateBarrier` | src/mbsf/UserDataIngSession.cc:1869-1911 | for every arrival order, with delete requests in between: requests only if the result of each context is a success, then one per context; success once, iff in addition each response has come; the session goes iff all results are in and the last is a failure |
| `IngestSession.ProblemsReported` | src/mbsf/UserDataIngSession.cc:2108-2119 | which problems the client is told: none while a result is missing, that of the last result if it is a failure, and else the contexts whose result is a failure, once each and in order |
| `IngestSession.QueueIsSent` | src/mbsf/UserDataIngSession.cc:592-608 | while the session is found, each event taken off the queue sends the next request in order, and changes nothing else |
| `IngestSession.RequestsNeedAllCreated` | src/mbsf/UserDataIngSession.cc:1869-1885 | in any run at all, a request goes back to a moment when all were created |
| `IngestSession.AskedExactly` | src/mbsf/UserDataIngSession.cc:1898-1911 | over every run a context is asked as often as a success comes while all are created and its response is not in, so at most once iff there is at most one |
| `IngestSession.RepeatedResultAsksAgain` | src/mbsf/MBSMFMBSSession.cc:355-358 | m successes have a context asked m times |
| `MbSmfSession.MbSmfMbsSession.PushChanges` | src/mbsf/MBSMFMBSSession.cc:334-345 | a push is sent, put off while one is in flight, or not needed |
| `MbSmfSession.MbSmfMbsSession.MbsSessionCallback` | src/mbsf/MBSMFMBSSession.cc:347-370 | a result ends the flight, drops the session when its deletion is done, and makes up for a push that was put off |
| `MbSmfSession.MbSmfMbsSession.DeleteSession` | src/mbsf/MBSMFMBSSession.cc:77-86 | a deletion is sent at once, whatever is in flight |
| `MbSmfSession.NoLostUpdate` | src/mbsf/MBSMFMBSSession.cc:334-370 | over every run without deletion: one change in flight, as many sent as results and flights, and the last sent is no older than the last push unless another follows |
| `MbSmfSession.UpToDateAtRest` | src/mbsf/MBSMFMBSSession.cc:334-370 | at rest the last configuration sent was current at the last push or later |
| `MbSmfSession.TwoResultsSettle` | src/mbsf/MBSMFMBSSession.cc:347-370 | whatever was pushed in flight, two results bring rest and cost at most one more push |
| `MbSmfSession.OneAtATimeExactly` | src/mbsf/MBSMFMBSSession.cc:77-86 | with deletions, the flag is right all through a run iff none is asked for while a request is outstanding |
| `MbSmfSession.DueExactly` | src/mbsf/MBSMFMBSSession.cc:334-370 | over every run a result sends another change only if a push came in flight since the last result and deletion |
| `MbSmfSession.DoneSendsNothing` | src/mbsf/MBSMFMBSSession.cc:360-369 | once a deletion is done nothing is set or sent any more, not even a push that was put off |
| `MbSmfSession.DeletionDropsPutOff` | src/mbsf/MBSMFMBSSession.cc:77-86 | a deletion takes back a push that was put off |
| `MbSmfSession.DeletionEndsSession` | src/mbsf/MBSMFMBSSession.cc:77-86 | what is in flight after a deletion at rest is a deletion, and its result ends the session iff it is done |
| `EventReports.DistributionSessionInfo.SortEventReports` | src/mbsf/DistributionSessionInfo.cc:356-387 | the reports whose time is known replace the list, sorted |
| `EventReports.DistributionSessionInfo.ProcessEvents` | src/mbsf/DistributionSessionInfo.cc:389-432 | the loop over the reports, and the check for a detour at its end |
| `EventReports.DistributionSessionInfo.RegisterEvents` | src/mbsf/SubscribedEvents.cc:298-316 | each report writes its time into the slot of its kind |
| `EventReports.DistributionSessionInfo.ProcessStatusNotifyReqData` | src/mbsf/DistributionSessionInfo.cc:317-335 | sorting, processing and registering, as one change of the session |
| `EventReports.SortSorts` | src/mbsf/DistributionSessionInfo.cc:356-387 | the sorted list is in order of time and has the same reports |
| `EventReports.LastOfSorted` | src/mbsf/DistributionSessionInfo.cc:364-379 | the last report of some kinds after sorting is the newest that came, the later of equals |
| `EventReports.NotifiedMeans` | src/mbsf/DistributionSessionInfo.cc:317-434 | the effect of a notification without an order: newest state, newest time per slot, and for the end of a session the newest deactivation or else the newest failure |
| `EventReports.NewestDecidesState` | src/mbsf/DistributionSessionInfo.cc:389-424 | with the kinds named: the reported state is ACTIVE, INACTIVE, ESTABLISHED or DEACTIVATING as the newest stateful report is of an activation, deactivation, establishment or release |
| `EventReports.NewestDecidesSlots` | src/mbsf/SubscribedEvents.cc:298-316 | with the kinds named: which slot each kind of report writes, and with which time |
| `EventReports.NotificationIsOneReport` | src/mbsf/DistributionSessionInfo.cc:389-434 | a notification with any number of reports does to the state what the handlers of `StateChanges` do on a failure, if one is among them, and on one report of the newest state |
| `EventReports.KeptExactly` | src/mbsf/DistributionSessionInfo.cc:356-387 | sorting keeps each report as often as it came, if its time is known, and none else |
| `EventReports.OrderIndependentExactly` | src/mbsf/DistributionSessionInfo.cc:317-434 | every permutation of the reports has the same effect iff the newest reports that bear a state agree, as they do when times differ |
| `EventReports.AnnouncedExactly` | src/mbsf/SubscribedEvents.cc:208-259 | which slots a notification makes newer, and which it sets back |
| `NotificationUrls.UrlEscape` | src/mbsf/Context.cc:1081-1093 | the loop appends the escape of each character |
| `NotificationUrls.RoundTrip` | src/mbsf/Context.cc:1081-1093 | percent-decoding undoes the escape on 7-bit strings |
| `NotificationUrls.EscapedIsSafe` | src/mbsf/Context.cc:1081-1093 | the escape leaves only printable characters that RFC 3986 does not reserve, and percent signs with two lower-case hexadecimal digits; it changes nothing iff all was so |
| `NotificationUrls.UrlsAreDistinct` | src/mbsf/Context.cc:838-862 | two URLs are equal iff server, session and key are |
| `NotificationUrls.UrlIsRead` | src/mbsf/Context.cc:838-862 | split at its slashes and decoded, a URL gives back the server, the fixed path, the session and the key |
| `NotificationUrls.Context.AssignNotificationServer` | src/mbsf/Context.cc:838-862 | the URL made, and the map with it inserted unless it was there |
| `NotificationUrls.Context.FreeNotificationServer` | src/mbsf/Context.cc:864-868 | the map without the URL |
| `NotificationUrls.LookupFindsInUse` | src/mbsf/Context.cc:945-952 | after any run the URL of a session finds that session iff it was assigned and not freed since |
| `NotificationUrls.LookupFindsOnlySessions` | src/mbsf/Context.cc:945-952 | whatever is found is a session that is in use under that URL |
| `MultipartMime.MultipartMime.constructor` | src/mbsf/MultipartMime.cc:67-75 | a body without parts is the closing delimiter |
| `MultipartMime.MultipartMime.AddFile` | src/mbsf/MultipartMime.cc:77-101 | the body stays the parts in order and one closing delimiter, with the new part last |
| `MultipartMime.DocumentIsTail` | src/mbsf/MultipartMime.cc:77-111 | the body grown at its end is the one read from its front |
| `MultipartMime.FindAfter` | src/mbsf/MultipartMime.cc:103-111 | a search for the delimiter stops behind a text iff it does not occur in it |
| `MultipartMime.PartsAreRecovered` | src/mbsf/MultipartMime.cc:77-111 | a splitter after section 5.1.1 of RFC 2046 recovers the parts iff none contains the delimiter, so when none contains two hyphens and the boundary |
| `MultipartMime.ContentsAreRecovered` | src/mbsf/MultipartMime.cc:82-98 | if no header holds a carriage return, the header lines and the contents are read back byte by byte |
| `MultipartMime.FileIsRead` | src/mbsf/MultipartMime.cc:82-98 | a reader finds each header with its field and value, the disposition with the file name, the location with the whole path, and the contents |
| `MultipartMime.FileNameIsLast` | src/mbsf/MultipartMime.cc:88-91 | the file name is what follows the last slash |
| `MultipartMime.HeaderIsRead` | src/mbsf/MultipartMime.cc:83-86 | a header is read as it was written iff its field has no colon with a space after it |

## Left out

- Dates: `parse_date_time` and `to_time_point_iso8601` are partial functions of the environment; a time that does not parse is absent. A list is modelled with the windows that `extract_time_windows` hands over.
- Repetition interval 0, for which the code divides by zero, and negative leads. Overflow of 64-bit tick counts.
- The readings of the clock within one call: all distribution sessions of an ingest session are sampled at one instant.
- A present optional that holds a null pointer, inside the lists of a service area: the code follows such pointers in places. In the model an entry that is present points to an object.
- The order of external service areas (`ext_svc_area_ordering`), which is a stub; the model keeps the stub, so the theorems on order and lookup take external areas that all overlap. Geographic and civic areas are sets of names.
- The hash functions, and the network identifier of an MBS session, which the comparison does not look at.
- `SessionIdSet`: the balancing of `std::set` is not modelled. Any search tree is covered, and erasure takes out the node that is found.
- `StableSort`: `std::list::sort` and `std::multimap` are a stable insertion sort of a sequence.
- Full updates (`needsUpdate`), PUT merging, rollback and refused PATCH requests: `StateChanges` covers updates of the state alone.
- `StateChanges` follows one distribution session. The others of an ingest session add wake-ups, which may come at any time in the model. The activity status that goes to the MB-SMF beside each change, and the notifications to subscribers, are not followed. The discovery of the MBSTF through the NRF is taken to be instant, and a notification counts as one report, as `EventReports.NotificationIsOneReport` allows.
- `IngestSession`: what the requests and replies contain, and the order of replies to different clients. Deletion requests to the MBSTF and the removal of registry entries. The user service announcement channel, whose session is handled apart in the code.
- `CreateBarrier`: MBS sessions whose deletion completes while others are still being created, which `DeleteBarrier` covers in runs of any kind.
- `MbSmfSession`: the MB-SMF client library is not part of this model. It is taken to push a configuration unless it is the one pushed before, and to do nothing for a session that is gone, which `mbsSessionCallback` may hand to it after a deletion.
- `EventReports`: unknown kinds of events, for which `tpForEventType` throws, and notifications without any time that parses, for which the report list is null. The ten slots that no report is written to.
- `NotificationUrls`: characters beyond 7 bits, whose formatting depends on the signedness of `char`; the making of server sockets.
- `MultipartMime`: the random choice of the boundary, of which only the absence of a carriage return is used; the reading of files.
- Subscriptions, the announcement bundle, carousel objects, field-by-field converters, HTTP, YAML and logging.
