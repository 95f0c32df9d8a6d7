/** A repeating pattern measured in clock ticks: a window of `window` ticks at the start of every `period`
    ticks from `start` on, each preceded by `early` ticks in which the session is established. */
module Pattern {
  import opened Schedule

  lemma Multiples(j: int, k: int, p: int)
    requires j <= k && p >= 0
    ensures j * p <= k * p
  {}

  datatype Pattern = Pattern(start: int, window: int, period: int, early: int) {

    /** A positive period and no negative lead. */
    ghost predicate Valid() {
      period > 0 && early >= 0
    }

    /** The first tick of the k-th window. */
    function StartOf(k: int): int {
      start + k * period
    }

    function State(now: int): DistState
      requires period != 0
    {
      if now < start - early then Inactive
      else if now < start then Established
      else
        var offset := (now - start) % period;
        if offset < window then Active else if offset < period - early then Inactive else Established
    }

    function Next(now: int): Transition
      requires period != 0
    {
      if now < start - early then Transition(Some(start - early), Established)
      else if now < start then Transition(Some(start), Active)
      else
        var offset := (now - start) % period;
        var activeStart := start + period * ((now - start) / period);
        if offset < window then Transition(Some(activeStart + window), Inactive)
        else if offset < period - early then Transition(Some(activeStart + period - early), Established)
        else Transition(Some(activeStart + period), Active)
    }

    /** Window starts grow by one period at a time. */
    lemma StartsGrow(j: int, k: int)
      requires period > 0 && j <= k
      ensures j < k ==> StartOf(j) + period <= StartOf(k)
      ensures j + 1 == k ==> StartOf(j) + period == StartOf(k)
    {
      if j < k {
        Multiples(j + 1, k, period);
        assert (j + 1) * period == j * period + period;
      }
    }

    /** Every instant from the start on has its place in one window. */
    lemma Position(now: int) returns (k: nat, r: nat)
      requires period > 0 && now >= start
      ensures r < period && now == StartOf(k) + r
      ensures k == (now - start) / period && r == (now - start) % period
    {
      k, r := (now - start) / period, (now - start) % period;
      assert now - start == k * period + r;
    }

    /** The two answers at a given offset into a given window. */
    lemma At(k: nat, r: nat)
      requires Valid() && r < period
      ensures State(StartOf(k) + r) == if r < window then Active else if r < period - early then Inactive else Established
      ensures Next(StartOf(k) + r) ==
              if r < window then Transition(Some(StartOf(k) + window), Inactive)
              else if r < period - early then Transition(Some(StartOf(k) + period - early), Established)
              else Transition(Some(StartOf(k) + period), Active)
    {
      var now := StartOf(k) + r;
      StartsGrow(0, k);
      assert StartOf(0) == start;
      var k', r' := Position(now);
      if k < k' { StartsGrow(k, k'); } else if k' < k { StartsGrow(k', k); }
      assert period * k == k * period;
    }

    /** `now` lies in the k-th window. */
    ghost predicate InWindow(k: nat, now: int) {
      StartOf(k) <= now < StartOf(k) + window
    }

    /** `now` lies in the lead before the k-th window. */
    ghost predicate InLead(k: nat, now: int) {
      StartOf(k) - early <= now < StartOf(k)
    }

    lemma ClosedForm(now: int)
      requires Valid()
      ensures State(now) in {Active, Established, Inactive}
      ensures State(now) == Active <==> exists k: nat :: InWindow(k, now)
      ensures State(now) == Established <==>
              !(exists k: nat :: InWindow(k, now)) && exists k: nat :: InLead(k, now)
    {
      assert StartOf(0) == start;
      if now < start {
        forall k: nat ensures !InWindow(k, now) && (InLead(k, now) ==> InLead(0, now)) { StartsGrow(0, k); }
        assert InLead(0, now) <==> State(now) == Established;
      } else {
        var q, r := Position(now);
        At(q, r);
        StartsGrow(q, q + 1);
        forall k: nat ensures (InWindow(k, now) ==> InWindow(q, now)) && (InLead(k, now) ==> InLead(q + 1, now)) {
          if k <= q { StartsGrow(k, q); } else { StartsGrow(q + 1, k); StartsGrow(q, k); }
        }
        assert InWindow(q, now) <==> r < window;
        assert InLead(q + 1, now) <==> r >= period - early;
      }
    }

    /** Until the announced instant neither answer changes. */
    ghost predicate Holds(now: int)
      requires Valid()
    {
      forall u :: now <= u < Next(now).at.value ==> State(u) == State(now) && Next(u) == Next(now)
    }

    /** Every step goes forward. */
    lemma Forward(now: int)
      requires Valid()
      ensures Next(now).at.value > now
    {
      if now >= start {
        var q, r := Position(now);
        At(q, r);
      }
    }

    lemma HoldsWhenItFits(now: int)
      requires Valid() && window <= period
      ensures Holds(now)
    {
      if now >= start {
        var q, r := Position(now);
        At(q, r);
        forall u | now <= u < Next(now).at.value ensures State(u) == State(now) && Next(u) == Next(now) {
          At(q, u - StartOf(q));
        }
      }
    }

    lemma HoldsExactly()
      requires Valid()
      ensures (forall now :: Holds(now)) <==> window <= period
    {
      if window <= period {
        forall now ensures Holds(now) { HoldsWhenItFits(now); }
      } else {
        assert StartOf(0) == start && StartOf(1) == start + period;
        At(0, 0);
        At(1, 0);
        assert Next(start + period) != Next(start);
        assert !Holds(start);
      }
    }

    /** The state announced for the next transition is the state found there. */
    ghost predicate Predicts(now: int)
      requires Valid()
    {
      State(Next(now).at.value) == Next(now).state
    }

    lemma PredictsWhenSpaced(now: int)
      requires Valid() && early > 0 && 0 < window < period - early
      ensures Predicts(now)
    {
      assert StartOf(0) == start;
      At(0, 0);
      if now >= start {
        var q, r := Position(now);
        At(q, r);
        At(q, window);
        At(q, period - early);
        At(q + 1, 0);
        StartsGrow(q, q + 1);
      }
    }

    lemma PredictsExactly()
      requires Valid() && window >= 0
      ensures (forall now :: Predicts(now)) <==> early > 0 && 0 < window < period - early
    {
      assert StartOf(0) == start;
      At(0, 0);
      if early > 0 && 0 < window < period - early {
        forall now ensures Predicts(now) { PredictsWhenSpaced(now); }
      } else if early == 0 || window == 0 {
        assert !Predicts(start - 1);
      } else {
        var q, r := Position(start + window);
        At(q, r);
        if q == 0 { assert r == window; } else { StartsGrow(0, q); }
        assert State(start + window) != Inactive;
        assert !Predicts(start);
      }
    }

    /** The n-th instant a timer is armed for when it always fires on time. */
    function Chain(now: int, n: nat): int
      requires Valid()
    {
      if n == 0 then Next(now).at.value else Next(Chain(now, n - 1)).at.value
    }

    /** Where an armed instant falls when the window is shorter than the period. */
    lemma ArmedInstant(now: int) returns (k: nat, r: nat)
      requires Valid() && 0 <= window < period
      ensures var t := Next(now).at.value;
              || (t == start - early && early > 0)
              || (t == StartOf(k) + r && (r == 0 || r == window || (window <= r == period - early < period)))
    {
      k, r := 0, 0;
      if now >= start {
        var q, r' := Position(now);
        At(q, r');
        StartsGrow(q, q + 1);
        var t := Next(now).at.value;
        if t == StartOf(q + 1) { k := q + 1; } else { k, r := q, t - StartOf(q); }
      }
    }

    lemma ThreeSteps(k: nat, r: nat)
      requires Valid() && 0 <= window < period
      requires r == 0 || r == window || (window <= r == period - early < period)
      ensures var t0 := StartOf(k) + r;
              Chain(t0, 2) >= t0 + period
    {
      var t0 := StartOf(k) + r;
      var t1 := Next(t0).at.value;
      var t2 := Next(t1).at.value;
      assert Chain(t0, 2) == Next(t2).at.value by {
        assert Chain(t0, 2) == Next(Chain(t0, 1)).at.value && Chain(t0, 1) == Next(Chain(t0, 0)).at.value;
      }
      StepsFacts(k, t0);
      StepsFacts(k, t1);
      StepsFacts(k, t2);
      Spans(StartOf(k), r, t0, t1, t2, Next(t2).at.value);
    }

    lemma StepsFacts(k: nat, t: int)
      requires Valid() && 0 <= window < period
      ensures Step(StartOf(k), t, Next(t).at.value) && Step(StartOf(k) + period, t, Next(t).at.value)
    {
      StartsGrow(k, k + 1);
      StepFacts(k, t);
      StepFacts(k + 1, t);
    }

    /** The step from each kind of armed instant of the window starting at `s`. */
    ghost predicate Step(s: int, t: int, next: int) {
      && next > t
      && (t == s && window > 0 ==> next == s + window)
      && (t == s + window ==> next == if window < period - early then s + period - early else s + period)
      && (t == s + period - early && window <= period - early < period ==> next == s + period)
    }

    lemma StepFacts(k: nat, t: int)
      requires Valid() && 0 <= window < period
      ensures Step(StartOf(k), t, Next(t).at.value)
    {
      Forward(t);
      At(k, 0);
      At(k, window);
      if 0 <= period - early < period { At(k, period - early); }
    }

    lemma Spans(s: int, r: int, t0: int, t1: int, t2: int, t3: int)
      requires Valid() && 0 <= window < period
      requires r == 0 || r == window || (window <= r == period - early < period)
      requires t0 == s + r
      requires Step(s, t0, t1) && Step(s, t1, t2) && Step(s, t2, t3)
      requires Step(s + period, t0, t1) && Step(s + period, t1, t2) && Step(s + period, t2, t3)
      ensures t3 >= t0 + period
    {}

    /** A window of a period or more is renewed at every step, so each step covers a period. */
    lemma LongSteps(now: int)
      requires Valid() && window >= period
      ensures var t0 := Next(now).at.value;
              t0 >= start ==> Next(t0).at.value >= t0 + period
    {
      assert StartOf(0) == start;
      At(0, 0);
      if now >= start {
        var q, r := Position(now);
        At(q, r);
        var t0 := StartOf(q) + window;
        var q', r' := Position(t0);
        At(q', r');
        if q' <= q { StartsGrow(q', q); } else { StartsGrow(q, q'); }
      }
    }

    lemma FourSpanAPeriod(now: int, n: nat)
      requires Valid() && window >= 0
      ensures Chain(now, n + 3) >= Chain(now, n) + period
    {
      var before := if n == 0 then now else Chain(now, n - 1);
      var t0, t1, t2 := Chain(now, n), Chain(now, n + 1), Chain(now, n + 2);
      assert Chain(now, n + 3) == Next(t2).at.value && t2 == Next(t1).at.value && t1 == Next(t0).at.value;
      if window >= period { FourLong(before); } else { FourShort(before); }
    }

    lemma FourLong(now: int)
      requires Valid() && window >= period
      ensures var t0 := Next(now).at.value;
              var t1 := Next(t0).at.value;
              var t2 := Next(t1).at.value;
              Next(t2).at.value >= t0 + period
    {
      var t0 := Next(now).at.value;
      if t0 >= start {
        var t1 := Next(t0).at.value;
        assert t1 >= t0 + period by { LongSteps(now); }
        Forward(t1);
        Forward(Next(t1).at.value);
      } else {
        LeadIsFirst(now);
        AfterLead();
      }
    }

    /** The only instant armed for before the first window is the beginning of its lead. */
    lemma LeadIsFirst(now: int)
      requires Valid() && window >= 0 && Next(now).at.value < start
      ensures Next(now).at.value == start - early && early > 0
    {
      Forward(now);
    }

    lemma FourShort(now: int)
      requires Valid() && 0 <= window < period
      ensures var t0 := Next(now).at.value;
              var t1 := Next(t0).at.value;
              var t2 := Next(t1).at.value;
              Next(t2).at.value >= t0 + period
    {
      var k, r := ArmedInstant(now);
      var t0 := Next(now).at.value;
      if t0 == StartOf(k) + r && (r == 0 || r == window || (window <= r == period - early < period)) {
        ThreeSteps(k, r);
        assert Chain(t0, 2) == Next(Chain(t0, 1)).at.value && Chain(t0, 1) == Next(Chain(t0, 0)).at.value;
      } else {
        AfterLead();
      }
    }

    /** The steps from the beginning of the first lead. */
    lemma AfterLead()
      requires Valid() && window >= 0
      ensures var t1 := Next(start - early).at.value;
              var t2 := Next(t1).at.value;
              early > 0 ==> Next(t2).at.value >= start - early + period
    {
      assert StartOf(0) == start;
      At(0, 0);
      if window < period { At(0, window); }
      Forward(Next(start).at.value);
    }
  }
}
