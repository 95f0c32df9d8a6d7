/** Unique MBS session ids, and when their comparison orders them. */
module UniqueSessionIds {
  import opened Schedule
  import opened Identifiers
  import opened ServiceAreas

  datatype ExternalArea = ExternalArea(geographic: set<string>, civic: set<string>)

  datatype UniqueId = UniqueId(
    tmgiRequested: bool, session: Option<MbsSessionId>, area: Option<ServiceArea>, external: Option<ExternalArea>)

  predicate ExternalOverlap(a: ExternalArea, b: ExternalArea) {
    a.geographic * b.geographic != {} || a.civic * b.civic != {}
  }

  /** `operator<=>`: sessions are compared where the areas overlap, and areas where they do not. The order of
      external areas is not filled in: it holds all of them equal. */
  ghost function Compare(a: UniqueId, b: UniqueId): Ordering {
    if a.session.None? && b.session.None? then Equal
    else if a.session.None? then Less
    else if b.session.None? then Greater
    else if (a.area.None? && a.external.None?) || (b.area.None? && b.external.None?)
            || (a.area.Some? && b.area.Some? && Overlaps(a.area.value, b.area.value))
            || (a.external.Some? && b.external.Some? && ExternalOverlap(a.external.value, b.external.value))
    then SessionOrdering(a.tmgiRequested, a.session.value, b.tmgiRequested, b.session.value)
    else if a.area.Some? && b.area.Some? then AreaOrdering(a.area.value, b.area.value)
    else if a.external.Some? && b.external.Some? then Equal
    else if a.area.Some? then Greater
    else Less
  }

  method CompareIds(a: UniqueId, b: UniqueId) returns (r: Ordering)
    ensures r == Compare(a, b)
  {
    if a.session.None? && b.session.None? { return Equal; }
    if a.session.None? { return Less; }
    if b.session.None? { return Greater; }
    var together := (a.area.None? && a.external.None?) || (b.area.None? && b.external.None?);
    if !together && a.area.Some? && b.area.Some? {
      together := SvcAreaOverlap(a.area.value, b.area.value);
    }
    if !together && a.external.Some? && b.external.Some? {
      together := ExternalOverlap(a.external.value, b.external.value);
    }
    if together {
      return SessionOrdering(a.tmgiRequested, a.session.value, b.tmgiRequested, b.session.value);
    }
    if a.area.Some? && b.area.Some? {
      r := SvcAreaOrdering(a.area.value, b.area.value);
      return;
    }
    if a.external.Some? && b.external.Some? { return Equal; }
    if a.area.Some? { return Greater; }
    return Less;
  }

  // ----- when the comparison is an order ------------------------------------------------------------

  /** A total preorder: its strict part is the strict weak order that a search tree needs. */
  ghost predicate WeakOrder(ids: set<UniqueId>) {
    forall x, y, z | x in ids && y in ids && z in ids ::
      && Compare(x, x) == Equal
      && Compare(y, x) == Compare(x, y).Flip()
      && (Compare(x, y) != Greater && Compare(y, z) != Greater ==> Compare(x, z) != Greater)
  }

  /** Where a session is on offer: in a service area, in an external area, in both, or everywhere. */
  datatype Place = Place(area: Option<ServiceArea>, external: Option<ExternalArea>) {
    predicate Everywhere() {
      area.None? && external.None?
    }
  }

  ghost predicate Meets(p: Place, q: Place) {
    || p.Everywhere() || q.Everywhere()
    || (p.area.Some? && q.area.Some? && Overlaps(p.area.value, q.area.value))
    || (p.external.Some? && q.external.Some? && ExternalOverlap(p.external.value, q.external.value))
  }

  ghost predicate WellFormedPlace(p: Place) {
    p.area.Some? ==> WellFormed(p.area.value)
  }

  ghost predicate WellFormedPair(p: Place, q: Place) {
    && (p.area.Some? && q.area.Some? ==> CoherentAreas(p.area.value, q.area.value))
    && (p.external.Some? && q.external.Some? ==> ExternalOverlap(p.external.value, q.external.value))
  }

  /** Well-formed service areas, and external areas that all overlap, since the order of those is not filled in. */
  ghost predicate WellFormedPlaces(places: set<Place>) {
    && (forall p | p in places :: WellFormedPlace(p))
    && (forall p, q | p in places && q in places :: WellFormedPair(p, q))
  }

  /** What places apart from each other are ordered by: a service area by its key, and after all places that have
      none. */
  datatype PlaceKey = NoArea | InArea(key: AreaKey)

  function KeyOfPlace(p: Place): PlaceKey
    requires WellFormedPlace(p)
  {
    if p.area.Some? then InArea(KeyOfArea(p.area.value)) else NoArea
  }

  function ComparePlaceKeys(a: PlaceKey, b: PlaceKey): Ordering {
    if a.InArea? && b.InArea? then CompareKeys(a.key, b.key)
    else if a.InArea? then Greater
    else if b.InArea? then Less
    else Equal
  }

  function PlaceOrdering(p: Place, q: Place): Ordering
    requires WellFormedPlace(p) && WellFormedPlace(q)
  {
    ComparePlaceKeys(KeyOfPlace(p), KeyOfPlace(q))
  }

  /** Places fall into groups: those of a group all meet one another, and no other place has its key between
      their keys. */
  ghost predicate Separated(places: set<Place>)
    requires WellFormedPlaces(places)
  {
    forall p, q, r | p in places && q in places && r in places :: Grouped(p, q, r)
  }

  ghost predicate Grouped(p: Place, q: Place, r: Place)
    requires WellFormedPlace(p) && WellFormedPlace(q) && WellFormedPlace(r)
  {
    Meets(p, q) ==>
      && (Meets(q, r) ==> Meets(p, r))
      && (!Meets(p, r) && !Meets(q, r) ==> PlaceOrdering(p, r) == PlaceOrdering(q, r))
  }

  /** An id as callers make it. */
  function IdOf(s: MbsSessionId, p: Place): UniqueId {
    UniqueId(s.ssm.Some?, Some(s), p.area, p.external)
  }

  function PlaceOf(x: UniqueId): Place {
    Place(x.area, x.external)
  }

  /** Ids without a session count as one, and come before all others. */
  lemma NoSessionComesFirst(x: UniqueId, y: UniqueId)
    ensures x.session.None? && y.session.None? ==> Compare(x, y) == Equal
    ensures x.session.None? && y.session.Some? ==> Compare(x, y) == Less && Compare(y, x) == Greater
  {
  }

  /** An id in a service area alone and one in an external area alone never compare equal: the external one comes
      first. */
  lemma ExternalComesFirst(s: MbsSessionId, a: ServiceArea, t: MbsSessionId, x: ExternalArea)
    ensures Compare(IdOf(s, Place(Some(a), None)), IdOf(t, Place(None, Some(x)))) == Greater
    ensures Compare(IdOf(t, Place(None, Some(x))), IdOf(s, Place(Some(a), None))) == Less
  {
  }

  /** The comparison is lexicographic on keys: by the keys of the places where these are apart, and else by the
      keys of the sessions, which it holds equal just when they are the same. */
  lemma CompareByKeys(places: set<Place>, s: MbsSessionId, p: Place, t: MbsSessionId, q: Place)
    requires WellFormedPlaces(places) && p in places && q in places
    ensures Meets(p, q) ==> (Compare(IdOf(s, p), IdOf(t, q)) == Equal <==> KeyOf(s) == KeyOf(t))
    ensures Meets(p, q) ==> Compare(IdOf(s, p), IdOf(t, q)) == CompareSessions(s, t)
    ensures !Meets(p, q) ==> Compare(IdOf(s, p), IdOf(t, q)) == PlaceOrdering(p, q) != Equal
  {
    assert WellFormedPair(p, q);
    SessionsOrdered(s, t, t);
    if !Meets(p, q) && p.area.Some? && q.area.Some? {
      DisjointOrderedByKey(p.area.value, q.area.value);
    }
  }

  lemma PlaceKeysOrdered(a: PlaceKey, b: PlaceKey, c: PlaceKey)
    ensures TotalOrder(ComparePlaceKeys, a, b, c)
  {
    var none := ByTai(Tai(PlmnId("", ""), "", None));
    KeysOrdered(if a.InArea? then a.key else none, if b.InArea? then b.key else none, if c.InArea? then c.key else none);
  }

  lemma MeetingIsMutual(places: set<Place>, p: Place, q: Place)
    requires WellFormedPlaces(places) && p in places && q in places
    ensures Meets(p, p) && (Meets(p, q) <==> Meets(q, p))
  {
    assert WellFormedPair(p, p) && WellFormedPair(p, q) && WellFormedPair(q, p);
    if p.area.Some? {
      OverlapOfWellFormed(p.area.value, p.area.value);
      if q.area.Some? { OverlapOfWellFormed(p.area.value, q.area.value); }
    }
  }

  /** Places apart from each other are ordered by their keys, which differ. */
  lemma PlacesOrdered(places: set<Place>, p: Place, q: Place, r: Place)
    requires WellFormedPlaces(places) && p in places && q in places && r in places
    ensures Meets(p, p) && (Meets(p, q) <==> Meets(q, p))
    ensures !Meets(p, q) ==> PlaceOrdering(p, q) != Equal && PlaceOrdering(q, p) == PlaceOrdering(p, q).Flip()
    ensures PlaceOrdering(p, q) == Less == PlaceOrdering(q, r) ==> PlaceOrdering(p, r) == Less
  {
    MeetingIsMutual(places, p, q);
    var s := MbsSessionId(None, None);
    CompareByKeys(places, s, p, s, q);
    PlaceKeysOrdered(KeyOfPlace(p), KeyOfPlace(q), KeyOfPlace(r));
  }

  /** Every session of `sessions` on offer at every place of `places`. */
  ghost function Offers(sessions: set<MbsSessionId>, places: set<Place>): set<UniqueId> {
    set s, p | s in sessions && p in places :: IdOf(s, p)
  }

  /** How the comparisons of three ids combine: `m` where their places meet, `s` of their sessions and `a` of
      their areas. */
  lemma Combined(m12: bool, m23: bool, m13: bool, s12: Ordering, s23: Ordering, s13: Ordering,
                 a12: Ordering, a23: Ordering, a13: Ordering)
    requires s12 != Greater && s23 != Greater ==> s13 != Greater
    requires (m12 && m23 ==> m13) && (m12 && m13 ==> m23) && (m23 && m13 ==> m12)
    requires m12 && !m13 ==> a13 == a23
    requires m23 && !m13 ==> a12 == a13
    requires m13 && !m12 ==> a12 == a23.Flip()
    requires (!m12 ==> a12 != Equal) && (!m23 ==> a23 != Equal)
    requires !m12 && !m23 && !m13 && a12 == Less == a23 ==> a13 == Less
    ensures (if m12 then s12 else a12) != Greater && (if m23 then s23 else a23) != Greater ==>
              (if m13 then s13 else a13) != Greater
  {}

  ghost function AreasOf(p: Place, q: Place): Ordering
    requires WellFormedPlace(p) && WellFormedPlace(q)
  {
    if Meets(p, q) then Equal else PlaceOrdering(p, q)
  }

  /** Places that meet lie on the same side of any other. */
  lemma SameSide(places: set<Place>, p: Place, q: Place, r: Place)
    requires WellFormedPlaces(places) && Separated(places) && p in places && q in places && r in places
    ensures Meets(p, q) && Meets(q, r) ==> Meets(p, r)
    ensures Meets(p, q) && !Meets(p, r) && !Meets(q, r) ==> AreasOf(p, r) == AreasOf(q, r)
  {
    assert Grouped(p, q, r);
  }

  lemma PlacesCombine(places: set<Place>, p: Place, q: Place, r: Place)
    requires WellFormedPlaces(places) && Separated(places) && p in places && q in places && r in places
    ensures var m12, m23, m13 := Meets(p, q), Meets(q, r), Meets(p, r);
            var a12, a23, a13 := AreasOf(p, q), AreasOf(q, r), AreasOf(p, r);
            && (m12 && m23 ==> m13) && (m12 && m13 ==> m23) && (m23 && m13 ==> m12)
            && (m12 && !m13 ==> a13 == a23)
            && (m23 && !m13 ==> a12 == a13)
            && (m13 && !m12 ==> a12 == a23.Flip())
  {
    BothWays(places, p, q);
    BothWays(places, q, r);
    BothWays(places, p, r);
    SameSide(places, p, q, r);
    SameSide(places, q, p, r);
    SameSide(places, q, r, p);
    SameSide(places, r, q, p);
    SameSide(places, p, r, q);
  }

  lemma BothWays(places: set<Place>, p: Place, q: Place)
    requires WellFormedPlaces(places) && p in places && q in places
    ensures Meets(p, q) <==> Meets(q, p)
    ensures AreasOf(q, p) == AreasOf(p, q).Flip()
  {
    PlacesOrdered(places, p, q, q);
  }

  lemma SeparatedIsOrdered(
    places: set<Place>, s: MbsSessionId, p: Place, t: MbsSessionId, q: Place, u: MbsSessionId, r: Place)
    requires WellFormedPlaces(places) && Separated(places) && p in places && q in places && r in places
    ensures var x, y, z := IdOf(s, p), IdOf(t, q), IdOf(u, r);
            && Compare(x, x) == Equal
            && Compare(y, x) == Compare(x, y).Flip()
            && (Compare(x, y) != Greater && Compare(y, z) != Greater ==> Compare(x, z) != Greater)
  {
    SessionsOrdered(s, t, u);
    SessionsOrdered(s, s, s);
    PlacesOrdered(places, p, q, r);
    PlacesOrdered(places, q, r, p);
    PlacesCombine(places, p, q, r);
    Combined(Meets(p, q), Meets(q, r), Meets(p, r),
             CompareSessions(s, t), CompareSessions(t, u), CompareSessions(s, u),
             AreasOf(p, q), AreasOf(q, r), AreasOf(p, r));
    CompareByKeys(places, s, p, s, p);
    CompareByKeys(places, s, p, t, q);
    CompareByKeys(places, t, q, s, p);
    CompareByKeys(places, t, q, u, r);
    CompareByKeys(places, s, p, u, r);
  }

  lemma OrderedIsSeparated(sessions: set<MbsSessionId>, places: set<Place>, s: MbsSessionId, p: Place, q: Place, r: Place)
    requires WellFormedPlaces(places) && s in sessions && WeakOrder(Offers(sessions, places))
    requires p in places && q in places && r in places
    ensures Grouped(p, q, r)
  {
    var x, y, z := IdOf(s, p), IdOf(s, q), IdOf(s, r);
    assert x in Offers(sessions, places) && y in Offers(sessions, places) && z in Offers(sessions, places);
    CompareByKeys(places, s, p, s, q);
    CompareByKeys(places, s, q, s, r);
    CompareByKeys(places, s, p, s, r);
    if Meets(p, q) {
      assert Compare(x, y) == Equal == Compare(y, x);
      assert Compare(x, z) != Greater ==> Compare(y, z) != Greater;
      assert Compare(y, z) != Greater ==> Compare(x, z) != Greater;
      assert Compare(z, x) == Compare(x, z).Flip() && Compare(z, y) == Compare(y, z).Flip();
      assert Compare(z, x) != Greater <==> Compare(z, y) != Greater;
    }
  }

  /** The comparison orders the ids of all sessions at all places exactly when the places are separated. */
  lemma WeakOrderExactly(sessions: set<MbsSessionId>, places: set<Place>)
    requires WellFormedPlaces(places) && sessions != {}
    ensures WeakOrder(Offers(sessions, places)) <==> Separated(places)
  {
    var ids := Offers(sessions, places);
    if Separated(places) {
      forall x, y, z | x in ids && y in ids && z in ids
        ensures Compare(x, x) == Equal
        ensures Compare(y, x) == Compare(x, y).Flip()
        ensures Compare(x, y) != Greater && Compare(y, z) != Greater ==> Compare(x, z) != Greater
      {
        SeparatedIsOrdered(places, x.session.value, PlaceOf(x), y.session.value, PlaceOf(y), z.session.value, PlaceOf(z));
      }
    }
    if WeakOrder(ids) {
      var s :| s in sessions;
      forall p, q, r | p in places && q in places && r in places ensures Grouped(p, q, r) {
        OrderedIsSeparated(sessions, places, s, p, q, r);
      }
    }
  }

  /** The service area of some TAIs. */
  function AreaOf(tais: Items<Tai>): Place {
    Place(Some(ServiceArea(None, Some(tais))), None)
  }

  lemma OneListed(p: Ptr<Tai>, t: Tai)
    ensures Lists([Some(p)], t) <==> t == p.obj
  {
    assert [Some(p)][0] == Some(p);
  }

  lemma TwoListed(p: Ptr<Tai>, q: Ptr<Tai>, t: Tai)
    ensures Lists([Some(p), Some(q)], t) <==> t == p.obj || t == q.obj
  {
    assert [Some(p), Some(q)][0] == Some(p) && [Some(p), Some(q)][1] == Some(q);
  }

  lemma MeetInTai(a: Items<Tai>, b: Items<Tai>)
    ensures Meets(AreaOf(a), AreaOf(b)) <==> exists t :: Lists(a, t) && Lists(b, t)
  {
    assert forall t :: HasTai(AreaOf(a).area.value, t) <==> Lists(a, t);
    assert forall t :: HasTai(AreaOf(b).area.value, t) <==> Lists(b, t);
  }

  lemma ChainMeets(one: Tai, two: Tai)
    requires one != two
    ensures var p, q, r := AreaOf([Some(Ptr(1, one))]), AreaOf([Some(Ptr(1, one)), Some(Ptr(2, two))]),
                           AreaOf([Some(Ptr(2, two))]);
            Meets(p, q) && Meets(q, r) && !Meets(p, r)
  {
    var a, b, c := [Some(Ptr(1, one))], [Some(Ptr(1, one)), Some(Ptr(2, two))], [Some(Ptr(2, two))];
    forall t
      ensures Lists(a, t) <==> t == one
      ensures Lists(b, t) <==> t == one || t == two
      ensures Lists(c, t) <==> t == two
    {
      OneListed(Ptr(1, one), t);
      TwoListed(Ptr(1, one), Ptr(2, two), t);
      OneListed(Ptr(2, two), t);
    }
    MeetInTai(a, b);
    MeetInTai(b, c);
    MeetInTai(a, c);
    assert Lists(a, one) && Lists(b, one) && Lists(b, two) && Lists(c, two);
  }

  /** Places that are not separated: of three areas each meets the next, but the first not the last. */
  lemma ChainIsNotSeparated(one: Tai, two: Tai)
    requires one != two
    ensures var p, q, r := AreaOf([Some(Ptr(1, one))]), AreaOf([Some(Ptr(1, one)), Some(Ptr(2, two))]),
                           AreaOf([Some(Ptr(2, two))]);
            WellFormedPlaces({p, q, r}) && !Separated({p, q, r})
  {
    var p, q, r := AreaOf([Some(Ptr(1, one))]), AreaOf([Some(Ptr(1, one)), Some(Ptr(2, two))]),
                   AreaOf([Some(Ptr(2, two))]);
    ChainMeets(one, two);
    assert WellFormedPlaces({p, q, r});
    assert !Grouped(p, q, r);
  }

  // ----- external areas -----------------------------------------------------------------------------

  /** An id in an external area alone. */
  function ExternalId(s: MbsSessionId, x: ExternalArea): UniqueId {
    IdOf(s, Place(None, Some(x)))
  }

  /** Sessions in external areas count as one exactly when they have the same key, or their areas are apart. */
  lemma ExternalAreasCollide(s: MbsSessionId, x: ExternalArea, t: MbsSessionId, y: ExternalArea)
    ensures Compare(ExternalId(s, x), ExternalId(t, y)) == Equal <==> !ExternalOverlap(x, y) || KeyOf(s) == KeyOf(t)
    ensures ExternalOverlap(x, y) ==> Compare(ExternalId(s, x), ExternalId(t, y)) == CompareSessions(s, t)
  {
    SessionsOrdered(s, t, t);
  }

  ghost function ExternalOffers(sessions: set<MbsSessionId>, areas: set<ExternalArea>): set<UniqueId> {
    set s, x | s in sessions && x in areas :: ExternalId(s, x)
  }

  ghost predicate OneKey(sessions: set<MbsSessionId>) {
    forall s, t | s in sessions && t in sessions :: KeyOf(s) == KeyOf(t)
  }

  ghost predicate AllOverlap(areas: set<ExternalArea>) {
    forall x, y | x in areas && y in areas :: ExternalOverlap(x, y)
  }

  predicate Empty(x: ExternalArea) {
    x == ExternalArea({}, {})
  }

  lemma ExternalOverlaps(x: ExternalArea, y: ExternalArea)
    ensures ExternalOverlap(x, y) == ExternalOverlap(y, x)
    ensures Empty(x) ==> !ExternalOverlap(x, y)
    ensures ExternalOverlap(x, x) == !Empty(x)
  {
    assert x.geographic * y.geographic == y.geographic * x.geographic && x.civic * y.civic == y.civic * x.civic;
    assert x.geographic * x.geographic == x.geographic && x.civic * x.civic == x.civic;
  }

  /** An area that is not empty, and one apart from it. */
  lemma ApartFromNonempty(areas: set<ExternalArea>) returns (x: ExternalArea, y: ExternalArea)
    requires !AllOverlap(areas) && exists z :: z in areas && !Empty(z)
    ensures x in areas && y in areas && !Empty(x) && !ExternalOverlap(x, y) && !ExternalOverlap(y, x)
  {
    x, y :| x in areas && y in areas && !ExternalOverlap(x, y);
    ExternalOverlaps(x, y);
    if Empty(x) {
      x, y := y, x;
      if Empty(x) {
        x :| x in areas && !Empty(x);
        ExternalOverlaps(y, x);
        ExternalOverlaps(x, y);
      }
    }
  }

  /** The comparison orders the ids of all sessions in all external areas only in three cases: the sessions are
      one, the areas all overlap, or they are all empty. */
  lemma ExternalOrderExactly(sessions: set<MbsSessionId>, areas: set<ExternalArea>)
    ensures WeakOrder(ExternalOffers(sessions, areas)) <==>
            OneKey(sessions) || AllOverlap(areas) || forall x | x in areas :: Empty(x)
  {
    if OneKey(sessions) || AllOverlap(areas) || forall x | x in areas :: Empty(x) {
      ExternalIsOrdered(sessions, areas);
    } else {
      var s, t :| s in sessions && t in sessions && KeyOf(s) != KeyOf(t);
      var x, y := ApartFromNonempty(areas);
      var a, b, c := ExternalId(s, x), ExternalId(s, y), ExternalId(t, x);
      assert a in ExternalOffers(sessions, areas) && b in ExternalOffers(sessions, areas) && c in ExternalOffers(sessions, areas);
      ExternalOverlaps(x, x);
      ExternalAreasCollide(s, x, s, y);
      ExternalAreasCollide(s, y, t, x);
      ExternalAreasCollide(t, x, s, y);
      ExternalAreasCollide(s, y, s, x);
      ExternalAreasCollide(s, x, t, x);
      ExternalAreasCollide(t, x, s, x);
      SessionsOrdered(s, t, t);
      assert Compare(a, c) == Greater || Compare(c, a) == Greater;
    }
  }

  lemma ExternalIsOrdered(sessions: set<MbsSessionId>, areas: set<ExternalArea>)
    requires OneKey(sessions) || AllOverlap(areas) || forall x | x in areas :: Empty(x)
    ensures WeakOrder(ExternalOffers(sessions, areas))
  {
    var ids := ExternalOffers(sessions, areas);
    forall a, b, c | a in ids && b in ids && c in ids
      ensures Compare(a, a) == Equal
      ensures Compare(b, a) == Compare(a, b).Flip()
      ensures Compare(a, b) != Greater && Compare(b, c) != Greater ==> Compare(a, c) != Greater
    {
      var s, x :| s in sessions && x in areas && a == ExternalId(s, x);
      var t, y :| t in sessions && y in areas && b == ExternalId(t, y);
      var u, z :| u in sessions && z in areas && c == ExternalId(u, z);
      ExternalAlike(sessions, areas, s, x, s, x);
      ExternalAlike(sessions, areas, s, x, t, y);
      ExternalAlike(sessions, areas, t, y, s, x);
      ExternalAlike(sessions, areas, t, y, u, z);
      ExternalAlike(sessions, areas, s, x, u, z);
      SessionsOrdered(s, t, u);
      SessionsOrdered(s, s, s);
    }
  }

  lemma ExternalAlike(
    sessions: set<MbsSessionId>, areas: set<ExternalArea>, s: MbsSessionId, x: ExternalArea, t: MbsSessionId, y: ExternalArea)
    requires s in sessions && t in sessions && x in areas && y in areas
    ensures OneKey(sessions) ==> Compare(ExternalId(s, x), ExternalId(t, y)) == Equal
    ensures AllOverlap(areas) ==> Compare(ExternalId(s, x), ExternalId(t, y)) == CompareSessions(s, t)
    ensures (forall z | z in areas :: Empty(z)) ==> Compare(ExternalId(s, x), ExternalId(t, y)) == Equal
  {
    ExternalAreasCollide(s, x, t, y);
    ExternalOverlaps(x, y);
  }
}
