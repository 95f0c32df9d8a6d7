/** A schedule given as a list of windows, answered by scanning for the first window that is not over. */
module ActivePeriods {
  import opened Schedule
  import S = StableSort

  /** A window of activity, `end` excluded, and the version of its service schedule description. */
  datatype Window = Window(start: int, end: int, version: int)

  /** A window of the request; a bound is None when it does not parse. */
  datatype TimeWindow = TimeWindow(start: Option<int>, stop: Option<int>)

  // ----- the scan ---------------------------------------------------------------------------------

  /** The first window that ends after `now`. */
  function FirstOpen(ws: seq<Window>, now: int): (i: nat)
    ensures i <= |ws|
    ensures forall k | 0 <= k < i :: ws[k].end <= now
    ensures i < |ws| ==> ws[i].end > now
  {
    if ws == [] || ws[0].end > now then 0 else 1 + FirstOpen(ws[1..], now)
  }

  function StateIn(w: Window, lead: int, now: int): DistState {
    if w.start <= now then Active else if w.start - lead <= now then Established else Inactive
  }

  function NextIn(w: Window, lead: int, now: int): Transition {
    if w.start <= now then Transition(Some(w.end), Inactive)
    else if w.start - lead <= now then Transition(Some(w.start), Active)
    else Transition(Some(w.start - lead), Established)
  }

  function StateAt(ws: seq<Window>, lead: int, now: int): DistState {
    var i := FirstOpen(ws, now);
    if i == |ws| then Inactive else StateIn(ws[i], lead, now)
  }

  function NextAt(ws: seq<Window>, lead: int, now: int): Transition {
    var i := FirstOpen(ws, now);
    if i == |ws| then Transition(None, Inactive) else NextIn(ws[i], lead, now)
  }

  lemma FirstOpenIs(ws: seq<Window>, now: int, i: nat)
    requires i <= |ws| && (forall k | 0 <= k < i :: ws[k].end <= now) && (i < |ws| ==> ws[i].end > now)
    ensures FirstOpen(ws, now) == i
  {
    var j := FirstOpen(ws, now);
  }

  // ----- what the answers mean --------------------------------------------------------------------

  ghost predicate Sorted(ws: seq<Window>) {
    forall i, j | 0 <= i < j < |ws| :: ws[i].start <= ws[j].start
  }

  ghost predicate Covers(w: Window, now: int) {
    w.start <= now < w.end
  }

  /** `w` starts within the lead, and is not over before it starts. */
  ghost predicate Precedes(w: Window, lead: int, now: int) {
    now < w.start <= now + lead && now < w.end
  }

  /** On a sorted list, overlapping windows included, the first match decides the union: some window covers
      `now`, or none does and some window starts within the lead, or neither. */
  lemma FirstMatchDecidesUnion(ws: seq<Window>, lead: int, now: int)
    requires Sorted(ws)
    ensures StateAt(ws, lead, now) ==
            if exists w :: w in ws && Covers(w, now) then Active
            else if exists w :: w in ws && Precedes(w, lead, now) then Established
            else Inactive
  {
    var i := FirstOpen(ws, now);
    forall k | 0 <= k < |ws| ensures Covers(ws[k], now) || Precedes(ws[k], lead, now) ==> i <= k {}
    if i < |ws| {
      assert ws[i] in ws;
      forall k | i <= k < |ws| ensures ws[i].start <= ws[k].start {}
    }
  }

  /** The answers stay what they are at `now` until the instant announced at `now`, or for ever when
      none is announced. */
  ghost predicate Holds(ws: seq<Window>, lead: int, now: int) {
    var t := NextAt(ws, lead, now).at;
    && (t.Some? ==> now < t.value)
    && forall u | now <= u && (t.Some? ==> u < t.value) ::
         StateAt(ws, lead, u) == StateAt(ws, lead, now) && NextAt(ws, lead, u) == NextAt(ws, lead, now)
  }

  /** No earlier window lasts as long: there is an instant at which the scan stops at window i. */
  ghost predicate Visible(ws: seq<Window>, i: nat)
    requires i < |ws|
  {
    forall k | 0 <= k < i :: ws[k].end < ws[i].end
  }

  /** A visible window ends no earlier than it starts, or just when its lead begins, or else gives way to one
      that starts when it would have. */
  ghost predicate Timely(ws: seq<Window>, lead: int, i: nat)
    requires i < |ws|
  {
    var j := FirstOpen(ws, ws[i].end);
    ws[i].start <= ws[i].end || ws[i].end == ws[i].start - lead || (j < |ws| && ws[j].start == ws[i].start)
  }

  /** Sampling at transitions loses nothing exactly when every visible window is timely, as it is when every
      window ends no earlier than it starts; the order of the windows does not matter. */
  lemma HoldsExactly(ws: seq<Window>, lead: int)
    requires lead >= 0
    ensures (forall now :: Holds(ws, lead, now)) <==> forall i | 0 <= i < |ws| && Visible(ws, i) :: Timely(ws, lead, i)
  {
    if i :| 0 <= i < |ws| && Visible(ws, i) && !Timely(ws, lead, i) {
      var now, u := ws[i].end - 1, ws[i].end;
      FirstOpenIs(ws, now, i);
      assert NextAt(ws, lead, u) != NextAt(ws, lead, now);
      assert !Holds(ws, lead, now);
    } else {
      forall now ensures Holds(ws, lead, now) {
        var t := NextAt(ws, lead, now).at;
        forall u | now <= u && (t.Some? ==> u < t.value)
          ensures StateAt(ws, lead, u) == StateAt(ws, lead, now) && NextAt(ws, lead, u) == NextAt(ws, lead, now)
        {
          var i := FirstOpen(ws, now);
          if i == |ws| { FirstOpenIs(ws, u, i); } else { SameStart(ws, lead, now, u); }
        }
      }
    }
  }

  /** Before an announced instant the scan stops only at windows that start together. */
  lemma {:induction false} SameStart(ws: seq<Window>, lead: int, now: int, u: int)
    requires lead >= 0 && forall i | 0 <= i < |ws| && Visible(ws, i) :: Timely(ws, lead, i)
    requires NextAt(ws, lead, now).at.Some? && now <= u < NextAt(ws, lead, now).at.value
    ensures var i, j := FirstOpen(ws, now), FirstOpen(ws, u);
            j < |ws| && ws[j].start == ws[i].start && (ws[i].start <= now ==> j == i)
    decreases |ws| - FirstOpen(ws, now)
  {
    var i := FirstOpen(ws, now);
    if u < ws[i].end {
      FirstOpenIs(ws, u, i);
    } else {
      assert Visible(ws, i) && Timely(ws, lead, i);
      SameStart(ws, lead, ws[i].end, u);
    }
  }

  /** On a sorted list no activation is missed, whatever windows it holds: before the announced instant, or at
      any later one when none is announced, the state is ACTIVE only if it was. */
  lemma NoActivationIsMissed(ws: seq<Window>, lead: int, now: int, u: int)
    requires Sorted(ws) && lead >= 0
    requires var t := NextAt(ws, lead, now).at; now <= u && (t.Some? ==> u < t.value)
    ensures StateAt(ws, lead, u) == Active ==> StateAt(ws, lead, now) == Active
  {
    var i, j := FirstOpen(ws, now), FirstOpen(ws, u);
    if j < |ws| {
      assert i <= j;
      assert ws[i].start <= ws[j].start;
    }
  }

  /** What a window that is over before it starts can hide is the end of a lead: the list says ESTABLISHED until
      20, although it says INACTIVE from 10 on. */
  lemma ReversedWindowIsMissed()
    ensures var ws := [Window(20, 10, 1), Window(40, 50, 2)];
            && Sorted(ws)
            && StateAt(ws, 15, 7) == Established && NextAt(ws, 15, 7).at == Some(20)
            && StateAt(ws, 15, 12) == Inactive
  {
    var ws := [Window(20, 10, 1), Window(40, 50, 2)];
    FirstOpenIs(ws, 7, 0);
    FirstOpenIs(ws, 12, 1);
  }

  // ----- announced states -------------------------------------------------------------------------

  ghost predicate Predicts(ws: seq<Window>, lead: int, now: int) {
    var next := NextAt(ws, lead, now);
    next.at.Some? ==> StateAt(ws, lead, next.at.value) == next.state
  }

  /** The end of a window that the scan can stop at lies in no window and in no lead before one. */
  ghost predicate Spaced(ws: seq<Window>, lead: int) {
    forall i, j | 0 <= i < |ws| && 0 <= j < |ws| && Visible(ws, i) :: !(ws[j].start - lead <= ws[i].end < ws[j].end)
  }

  ghost predicate Lasting(ws: seq<Window>) {
    forall w | w in ws :: w.start < w.end
  }

  /** The announced states are right at every instant exactly when there is a lead and every visible window
      is followed by a gap longer than it. */
  lemma PredictsExactly(ws: seq<Window>, lead: int)
    requires Sorted(ws) && Lasting(ws) && lead >= 0
    ensures (forall now :: Predicts(ws, lead, now)) <==> ws == [] || (lead > 0 && Spaced(ws, lead))
  {
    if ws == [] {
    } else if lead == 0 {
      WrongWithoutLead(ws);
    } else if !Spaced(ws, lead) {
      var i, j :| 0 <= i < |ws| && 0 <= j < |ws| && Visible(ws, i) && ws[j].start - lead <= ws[i].end < ws[j].end;
      WrongAtEnd(ws, lead, i, j);
    } else {
      forall now ensures Predicts(ws, lead, now) { PredictsWhenSpaced(ws, lead, now); }
    }
  }

  lemma WrongWithoutLead(ws: seq<Window>)
    requires Sorted(ws) && Lasting(ws) && ws != []
    ensures !Predicts(ws, 0, ws[0].start - 1)
  {
    FirstOpenIs(ws, ws[0].start - 1, 0);
    FirstOpenIs(ws, ws[0].start, 0);
  }

  lemma WrongAtEnd(ws: seq<Window>, lead: int, i: nat, j: nat)
    requires Sorted(ws) && Lasting(ws) && lead > 0
    requires i < |ws| && j < |ws| && Visible(ws, i) && ws[j].start - lead <= ws[i].end < ws[j].end
    ensures !Predicts(ws, lead, ws[i].end - 1)
  {
    FirstOpenIs(ws, ws[i].end - 1, i);
    FirstMatchDecidesUnion(ws, lead, ws[i].end);
    assert ws[j] in ws && (Covers(ws[j], ws[i].end) || Precedes(ws[j], lead, ws[i].end));
  }

  lemma PredictsWhenSpaced(ws: seq<Window>, lead: int, now: int)
    requires Sorted(ws) && Lasting(ws) && lead > 0 && Spaced(ws, lead)
    ensures Predicts(ws, lead, now)
  {
    var i := FirstOpen(ws, now);
    if i < |ws| {
      var t := NextAt(ws, lead, now).at.value;
      if ws[i].start <= now {
        FirstMatchDecidesUnion(ws, lead, t);
        assert Visible(ws, i);
      } else {
        FirstOpenIs(ws, t, i);
      }
    }
  }

  // ----- the number of wake-ups -------------------------------------------------------------------

  /** Each window has three transitions before it; this counts the ones left. */
  function Remaining(ws: seq<Window>, lead: int, now: int): nat {
    var i := FirstOpen(ws, now);
    if i == |ws| then 0
    else 3 * (|ws| - i) - (if ws[i].start <= now then 2 else if ws[i].start - lead <= now then 1 else 0)
  }

  /** At or after the announced instant fewer transitions are left. */
  lemma RemainingDrops(ws: seq<Window>, lead: int, now: int, u: int)
    requires Follows(ws, lead, now, u)
    ensures Remaining(ws, lead, u) < Remaining(ws, lead, now)
  {
    var i, j := FirstOpen(ws, now), FirstOpen(ws, u);
  }

  /** Every wake-up follows one at which a transition was announced, and comes no earlier than announced. */
  ghost predicate Punctual(ws: seq<Window>, lead: int, wakes: seq<int>) {
    forall i | 0 < i < |wakes| :: Follows(ws, lead, wakes[i - 1], wakes[i])
  }

  ghost predicate Follows(ws: seq<Window>, lead: int, now: int, u: int) {
    NextAt(ws, lead, now).at.Some? && u >= NextAt(ws, lead, now).at.value && u >= now
  }

  /** n windows wake the timer at most 3n times. */
  lemma {:induction false} BoundedWakeups(ws: seq<Window>, lead: int, wakes: seq<int>)
    requires wakes != [] && Punctual(ws, lead, wakes)
    ensures |wakes| - 1 + Remaining(ws, lead, wakes[|wakes| - 1]) <= 3 * |ws|
  {
    var last := |wakes| - 1;
    if last > 0 {
      BoundedWakeups(ws, lead, wakes[..last]);
      RemainingDrops(ws, lead, wakes[last - 1], wakes[last]);
    }
  }

  // ----- building the list ------------------------------------------------------------------------

  predicate StartsBefore(v: Window, w: Window) {
    v.start < w.start
  }

  /** The sort by start, which keeps the order of windows that start together. */
  function SortByStart(ws: seq<Window>): seq<Window> {
    S.Sort(StartsBefore, ws)
  }

  /** It is one: by start, and with the windows it was given. */
  lemma SortSorts(ws: seq<Window>)
    ensures Sorted(SortByStart(ws)) && multiset(SortByStart(ws)) == multiset(ws)
  {
    assert forall x, y, z :: S.WeakAt(StartsBefore, x, y, z);
    S.SortAscends(StartsBefore, ws);
    S.SortKeeps(StartsBefore, ws);
  }

  datatype Bounds = Bounds(start: int, end: int)

  /** The bounds of a window of the request; absent entries and ones that do not parse are passed over. */
  function Parsed(tw: Option<TimeWindow>): Option<Bounds> {
    if tw.None? || tw.value.start.None? || tw.value.stop.None? then None
    else Some(Bounds(tw.value.start.value, tw.value.stop.value))
  }

  /** The version of the first old window with the same bounds. */
  function OldVersion(prior: seq<Window>, start: int, end: int): (v: Option<int>)
    ensures v.None? ==> forall w | w in prior :: w.start != start || w.end != end
    ensures v.Some? ==> Window(start, end, v.value) in prior
  {
    if prior == [] then None
    else if prior[0].start == start && prior[0].end == end then Some(prior[0].version)
    else OldVersion(prior[1..], start, end)
  }

  /** The window with its old version or else the next new one, and the version that is new after it. */
  function Stamp(b: Bounds, prior: seq<Window>, next: int): (Window, int) {
    match OldVersion(prior, b.start, b.end)
    case Some(v) => (Window(b.start, b.end, v), next)
    case None => (Window(b.start, b.end, next), next + 1)
  }

  /** The windows that parse, stamped in request order, and the version that is new after them. */
  function Versioned(list: seq<Option<TimeWindow>>, prior: seq<Window>, next: int): (seq<Window>, int) {
    if list == [] then ([], next)
    else
      var (ws, n) := Versioned(list[..|list| - 1], prior, next);
      var b := Parsed(list[|list| - 1]);
      if b.None? then (ws, n)
      else
        var (w, n') := Stamp(b.value, prior, n);
        (ws + [w], n')
  }

  /** The parts of `UserDataIngSession` that number service schedule descriptions. */
  class VersionCounter {
    var next: int

    constructor ()
      ensures next == 1
    {
      next := 1;
    }

    method ServiceScheduleDescVersion() returns (v: int)
      modifies this
      ensures v == old(next) && next == v + 1
    {
      v := next;
      next := next + 1;
    }
  }

  class ActivePeriods {
    var actPeriods: seq<Window>

    /** Builds the list. `prior` is empty when the previous schedule was not a list of windows. */
    constructor (list: seq<Option<TimeWindow>>, prior: seq<Window>, versions: VersionCounter)
      modifies versions
      ensures (actPeriods, versions.next) ==
              (SortByStart(Versioned(list, prior, old(versions.next)).0), Versioned(list, prior, old(versions.next)).1)
    {
      actPeriods := [];
      new;
      ConvertActPeriods(list, prior, versions);
    }

    method ConvertActPeriods(list: seq<Option<TimeWindow>>, prior: seq<Window>, versions: VersionCounter)
      modifies this, versions
      ensures (actPeriods, versions.next) ==
              (SortByStart(Versioned(list, prior, old(versions.next)).0), Versioned(list, prior, old(versions.next)).1)
    {
      actPeriods := [];
      for i := 0 to |list|
        invariant (actPeriods, versions.next) == Versioned(list[..i], prior, old(versions.next))
      {
        assert list[..i + 1][..i] == list[..i];
        if list[i].None? { continue; }
        var tw := list[i].value;
        if tw.start.None? || tw.stop.None? { continue; }
        var version: int;
        var found := OldVersion(prior, tw.start.value, tw.stop.value);
        if found.Some? {
          version := found.value;
        } else {
          version := versions.ServiceScheduleDescVersion();
        }
        actPeriods := actPeriods + [Window(tw.start.value, tw.stop.value, version)];
      }
      assert list[..|list|] == list;
      actPeriods := SortByStart(actPeriods);
    }

    method CurrentState(lead: int, now: int) returns (s: DistState)
      ensures s == StateAt(actPeriods, lead, now)
    {
      for i := 0 to |actPeriods|
        invariant forall k | 0 <= k < i :: actPeriods[k].end <= now
      {
        var w := actPeriods[i];
        if w.end <= now { continue; }
        FirstOpenIs(actPeriods, now, i);
        if w.start <= now { return Active; }
        var preEstablishTime := w.start - lead;
        return if preEstablishTime <= now then Established else Inactive;
      }
      FirstOpenIs(actPeriods, now, |actPeriods|);
      return Inactive;
    }

    method NextTransition(lead: int, now: int) returns (t: Transition)
      ensures t == NextAt(actPeriods, lead, now)
    {
      for i := 0 to |actPeriods|
        invariant forall k | 0 <= k < i :: actPeriods[k].end <= now
      {
        var w := actPeriods[i];
        if w.end <= now { continue; }
        FirstOpenIs(actPeriods, now, i);
        if w.start <= now { return Transition(Some(w.end), Inactive); }
        var preEstablishTime := w.start - lead;
        if preEstablishTime <= now { return Transition(Some(w.start), Active); }
        return Transition(Some(preEstablishTime), Established);
      }
      FirstOpenIs(actPeriods, now, |actPeriods|);
      return Transition(None, Inactive);
    }
  }

  // ----- what conversion keeps --------------------------------------------------------------------

  /** The bounds of the windows that parse. */
  function Requested(list: seq<Option<TimeWindow>>): multiset<Bounds> {
    if list == [] then multiset{}
    else
      var b := Parsed(list[|list| - 1]);
      Requested(list[..|list| - 1]) + if b.Some? then multiset{b.value} else multiset{}
  }

  function AllBounds(ws: seq<Window>): multiset<Bounds> {
    if ws == [] then multiset{}
    else AllBounds(ws[..|ws| - 1]) + multiset{Bounds(ws[|ws| - 1].start, ws[|ws| - 1].end)}
  }

  /** The list after an update. */
  function Converted(list: seq<Option<TimeWindow>>, prior: seq<Window>, next: int): seq<Window> {
    SortByStart(Versioned(list, prior, next).0)
  }

  lemma {:induction false} BoundsAreOrderless(xs: seq<Window>, ys: seq<Window>)
    requires multiset(xs) == multiset(ys)
    ensures AllBounds(xs) == AllBounds(ys)
    decreases |xs|
  {
    assert |xs| == |multiset(xs)| == |multiset(ys)| == |ys|;
    if xs != [] {
      var x := xs[|xs| - 1];
      assert x in multiset(ys);
      var i :| 0 <= i < |ys| && ys[i] == x;
      var init, rest := xs[..|xs| - 1], ys[..i] + ys[i + 1..];
      assert xs == init + [x];
      assert multiset(init) == multiset(xs) - multiset{x};
      Extracted(ys, i);
      assert multiset(rest) == multiset(ys) - multiset{x};
      BoundsAreOrderless(init, rest);
    }
  }

  /** Taking one window out takes its bounds out. */
  lemma Extracted(ys: seq<Window>, i: nat)
    requires i < |ys|
    ensures var rest := ys[..i] + ys[i + 1..];
            && multiset(ys) == multiset(rest) + multiset{ys[i]}
            && AllBounds(ys) == AllBounds(rest) + multiset{Bounds(ys[i].start, ys[i].end)}
  {
    assert ys == ys[..i] + [ys[i]] + ys[i + 1..];
    AllBoundsOfConcat(ys[..i], [ys[i]]);
    AllBoundsOfConcat(ys[..i] + [ys[i]], ys[i + 1..]);
    AllBoundsOfConcat(ys[..i], ys[i + 1..]);
  }

  lemma {:induction false} AllBoundsOfConcat(xs: seq<Window>, ys: seq<Window>)
    ensures AllBounds(xs + ys) == AllBounds(xs) + AllBounds(ys)
  {
    if ys == [] {
      assert xs + ys == xs;
    } else {
      var last := |ys| - 1;
      assert (xs + ys)[..|xs + ys| - 1] == xs + ys[..last];
      AllBoundsOfConcat(xs, ys[..last]);
    }
  }

  lemma {:induction false} VersionedBounds(list: seq<Option<TimeWindow>>, prior: seq<Window>, next: int)
    ensures AllBounds(Versioned(list, prior, next).0) == Requested(list)
  {
    if list != [] {
      var init := list[..|list| - 1];
      VersionedBounds(init, prior, next);
      var (ws, n) := Versioned(init, prior, next);
      var b := Parsed(list[|list| - 1]);
      if b.Some? {
        var w := Stamp(b.value, prior, n).0;
        assert (ws + [w])[..|ws|] == ws;
      }
    }
  }

  /** Conversion yields exactly the windows that parse, by start. */
  lemma ConversionKeepsWindows(list: seq<Option<TimeWindow>>, prior: seq<Window>, next: int)
    ensures Sorted(Converted(list, prior, next)) && AllBounds(Converted(list, prior, next)) == Requested(list)
  {
    VersionedBounds(list, prior, next);
    SortSorts(Versioned(list, prior, next).0);
    BoundsAreOrderless(Converted(list, prior, next), Versioned(list, prior, next).0);
  }

  /** Every sorted list of windows, numbered from `next` on, is the conversion of the request that lists them. */
  lemma {:induction false} EverySortedListArises(ws: seq<Window>, next: int)
    requires Sorted(ws) && forall i | 0 <= i < |ws| :: ws[i].version == next + i
    ensures Converted(RequestOf(ws), [], next) == ws
  {
    RequestVersioned(ws, next);
    S.SortedIsKept(StartsBefore, ws);
  }

  /** The request that lists just these windows. */
  function RequestOf(ws: seq<Window>): seq<Option<TimeWindow>> {
    seq(|ws|, i requires 0 <= i < |ws| => Some(TimeWindow(Some(ws[i].start), Some(ws[i].end))))
  }

  lemma {:induction false} RequestVersioned(ws: seq<Window>, next: int)
    requires forall i | 0 <= i < |ws| :: ws[i].version == next + i
    ensures Versioned(RequestOf(ws), [], next) == (ws, next + |ws|)
  {
    if ws != [] {
      var init, w := ws[..|ws| - 1], ws[|ws| - 1];
      RequestVersioned(init, next);
      OneMoreVersioned(RequestOf(init), TimeWindow(Some(w.start), Some(w.end)), next);
      assert RequestOf(ws) == RequestOf(init) + [Some(TimeWindow(Some(w.start), Some(w.end)))];
      assert ws == init + [w];
    }
  }

  lemma OneMoreVersioned(list: seq<Option<TimeWindow>>, tw: TimeWindow, next: int)
    requires tw.start.Some? && tw.stop.Some?
    ensures var (ws, n) := Versioned(list, [], next);
            Versioned(list + [Some(tw)], [], next) == (ws + [Window(tw.start.value, tw.stop.value, n)], n + 1)
  {
    var all := list + [Some(tw)];
    assert all[..|all| - 1] == list && all[|all| - 1] == Some(tw);
  }

  /** The window occurs in the list, always with version `v`. */
  ghost predicate Carries(ws: seq<Window>, b: Bounds, v: int) {
    && Window(b.start, b.end, v) in ws
    && forall w | w in ws && w.start == b.start && w.end == b.end :: w.version == v
  }

  lemma {:induction false} CarriesOver(list: seq<Option<TimeWindow>>, prior: seq<Window>, next: int, b: Bounds, v: int)
    requires Carries(prior, b, v)
    ensures forall w | w in Versioned(list, prior, next).0 && w.start == b.start && w.end == b.end :: w.version == v
    ensures b in Requested(list) ==> Window(b.start, b.end, v) in Versioned(list, prior, next).0
  {
    if list != [] {
      CarriesOver(list[..|list| - 1], prior, next, b, v);
    }
  }

  /** The lists a session holds after each of a chain of list-to-list updates. */
  function Updates(lists: seq<seq<Option<TimeWindow>>>, prior: seq<Window>, next: int): (r: (seq<Window>, int)) {
    if lists == [] then (prior, next)
    else
      var (ws, n) := Updates(lists[..|lists| - 1], prior, next);
      (Converted(lists[|lists| - 1], ws, n), Versioned(lists[|lists| - 1], ws, n).1)
  }

  /** A window requested in every update keeps the version it had before them. */
  lemma {:induction false} VersionsPersist(
    lists: seq<seq<Option<TimeWindow>>>, prior: seq<Window>, next: int, b: Bounds, v: int)
    requires Carries(prior, b, v) && forall list | list in lists :: b in Requested(list)
    ensures Carries(Updates(lists, prior, next).0, b, v)
  {
    if lists != [] {
      var init, list := lists[..|lists| - 1], lists[|lists| - 1];
      VersionsPersist(init, prior, next, b, v);
      var (ws, n) := Updates(init, prior, next);
      CarriesOver(list, ws, n, b, v);
      SortSorts(Versioned(list, ws, n).0);
      S.SameMembers(Versioned(list, ws, n).0, Converted(list, ws, n));
    }
  }

  /** A window that a list holds once has one version to keep. */
  lemma {:induction false} OnceCarries(ws: seq<Window>, b: Bounds)
    requires AllBounds(ws)[b] == 1
    ensures exists v :: Carries(ws, b, v)
  {
    var init, w := ws[..|ws| - 1], ws[|ws| - 1];
    assert ws == init + [w];
    if Bounds(w.start, w.end) == b {
      NoneLeft(init, b);
      assert Carries(ws, b, w.version);
    } else {
      OnceCarries(init, b);
      var v :| Carries(init, b, v);
      assert Carries(ws, b, v);
    }
  }

  lemma {:induction false} NoneLeft(ws: seq<Window>, b: Bounds)
    requires b !in AllBounds(ws)
    ensures forall w | w in ws :: Bounds(w.start, w.end) != b
  {
    if ws != [] {
      NoneLeft(ws[..|ws| - 1], b);
      assert ws == ws[..|ws| - 1] + [ws[|ws| - 1]];
    }
  }

  // ----- versions tell windows apart ----------------------------------------------------------------

  /** Every version is below the counter, and belongs to one pair of bounds. */
  ghost predicate WellNumbered(ws: seq<Window>, next: int) {
    && (forall w | w in ws :: w.version < next)
    && (forall v, w | v in ws && w in ws && v.version == w.version :: v.start == w.start && v.end == w.end)
  }

  /** Each window has the number of an old one with its bounds, or a new number that no other has. */
  ghost predicate FreshOrOld(ws: seq<Window>, prior: seq<Window>, next: int, later: int) {
    && next <= later
    && (forall w | w in ws :: w in prior || next <= w.version < later)
    && (forall v, w | v in ws && w in ws && v.version == w.version && v.version >= next :: v in prior || w in prior || v == w)
  }

  lemma {:induction false} VersionedFreshOrOld(list: seq<Option<TimeWindow>>, prior: seq<Window>, next: int)
    ensures FreshOrOld(Versioned(list, prior, next).0, prior, next, Versioned(list, prior, next).1)
  {
    if list != [] {
      VersionedFreshOrOld(list[..|list| - 1], prior, next);
    }
  }

  lemma ConversionKeepsNumbers(list: seq<Option<TimeWindow>>, prior: seq<Window>, next: int)
    requires WellNumbered(prior, next)
    ensures WellNumbered(Converted(list, prior, next), Versioned(list, prior, next).1)
  {
    VersionedFreshOrOld(list, prior, next);
    SortSorts(Versioned(list, prior, next).0);
    S.SameMembers(Versioned(list, prior, next).0, Converted(list, prior, next));
  }

  /** Over any chain of updates that starts without a list, windows with different bounds never have the same
      version, and the counter is above all versions in use. */
  lemma {:induction false} VersionsTellApart(lists: seq<seq<Option<TimeWindow>>>, next: int)
    ensures WellNumbered(Updates(lists, [], next).0, Updates(lists, [], next).1)
  {
    if lists != [] {
      var (ws, n) := Updates(lists[..|lists| - 1], [], next);
      VersionsTellApart(lists[..|lists| - 1], next);
      ConversionKeepsNumbers(lists[|lists| - 1], ws, n);
    }
  }
}
