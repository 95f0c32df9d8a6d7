/** Service areas: when two of them overlap, and how they are ordered when they do not. */
module ServiceAreas {
  import opened Schedule
  import opened Identifiers
  import S = StableSort

  /** A shared pointer: the object and the address it is kept at. */
  datatype Ptr<+T> = Ptr(addr: int, obj: T)

  /** The lists of the model hold optional shared pointers; an engaged one points to an object. */
  type Items<+T> = seq<Option<Ptr<T>>>

  /** Cells of one tracking area. */
  datatype NcgiTai = NcgiTai(tai: Tai, cellList: Items<Ncgi>)

  datatype ServiceArea = ServiceArea(ncgiList: Option<Items<NcgiTai>>, taiList: Option<Items<Tai>>)

  // ----- overlap ----------------------------------------------------------------------------------

  ghost predicate Lists<T(!new)>(items: Items<T>, x: T) {
    exists i :: 0 <= i < |items| && items[i].Some? && items[i].value.obj == x
  }

  ghost predicate HasTai(a: ServiceArea, t: Tai) {
    a.taiList.Some? && Lists(a.taiList.value, t)
  }

  ghost predicate HasNcgiTai(a: ServiceArea, n: NcgiTai) {
    a.ncgiList.Some? && Lists(a.ncgiList.value, n)
  }

  ghost predicate ShareCell(a: NcgiTai, b: NcgiTai) {
    a.tai == b.tai && exists c :: Lists(a.cellList, c) && Lists(b.cellList, c)
  }

  /** What the search of `svc_area_overlap` looks for. */
  ghost predicate Overlaps(a: ServiceArea, b: ServiceArea) {
    || (exists n, m :: HasNcgiTai(a, n) && HasNcgiTai(b, m) && ShareCell(n, m))
    || (exists n :: HasNcgiTai(a, n) && HasTai(b, n.tai))
    || (exists t :: HasTai(a, t) && HasTai(b, t))
    || (exists m :: HasNcgiTai(b, m) && HasTai(a, m.tai))
  }

  method ListsItem<T(==,!new)>(items: Items<T>, x: T) returns (found: bool)
    ensures found <==> Lists(items, x)
  {
    for i := 0 to |items|
      invariant forall k | 0 <= k < i :: items[k].None? || items[k].value.obj != x
    {
      if items[i].Some? && items[i].value.obj == x { return true; }
    }
    return false;
  }

  method NcgiTaiOverlap(a: NcgiTai, b: NcgiTai) returns (found: bool)
    ensures found <==> ShareCell(a, b)
  {
    if a.tai != b.tai { return false; }
    for i := 0 to |a.cellList|
      invariant forall k | 0 <= k < i && a.cellList[k].Some? :: !Lists(b.cellList, a.cellList[k].value.obj)
    {
      if a.cellList[i].Some? {
        found := ListsItem(b.cellList, a.cellList[i].value.obj);
        if found { return; }
      }
    }
    return false;
  }

  /** An NcgiTai of the list that shares a cell with `n`. */
  ghost predicate MeetsNcgi(items: Items<NcgiTai>, n: NcgiTai) {
    exists i :: 0 <= i < |items| && items[i].Some? && ShareCell(n, items[i].value.obj)
  }

  /** An NcgiTai of the list in the tracking area `t`. */
  ghost predicate MeetsTai(items: Items<NcgiTai>, t: Tai) {
    exists i :: 0 <= i < |items| && items[i].Some? && items[i].value.obj.tai == t
  }

  method FindMeetsNcgi(items: Items<NcgiTai>, n: NcgiTai) returns (found: bool)
    ensures found <==> MeetsNcgi(items, n)
  {
    for i := 0 to |items|
      invariant forall k | 0 <= k < i && items[k].Some? :: !ShareCell(n, items[k].value.obj)
    {
      if items[i].Some? {
        found := NcgiTaiOverlap(n, items[i].value.obj);
        if found { return; }
      }
    }
    return false;
  }

  method FindMeetsTai(items: Items<NcgiTai>, t: Tai) returns (found: bool)
    ensures found <==> MeetsTai(items, t)
  {
    for i := 0 to |items|
      invariant forall k | 0 <= k < i && items[k].Some? :: items[k].value.obj.tai != t
    {
      if items[i].Some? && items[i].value.obj.tai == t { return true; }
    }
    return false;
  }

  /** An NcgiTai of `a` meets the area `b`. */
  ghost predicate NcgiHit(n: NcgiTai, b: ServiceArea) {
    || (b.ncgiList.Some? && MeetsNcgi(b.ncgiList.value, n))
    || (b.taiList.Some? && Lists(b.taiList.value, n.tai))
  }

  /** A TAI of `a` meets the area `b`. */
  ghost predicate TaiHit(t: Tai, b: ServiceArea) {
    || (b.taiList.Some? && Lists(b.taiList.value, t))
    || (b.ncgiList.Some? && MeetsTai(b.ncgiList.value, t))
  }

  method SvcAreaOverlap(a: ServiceArea, b: ServiceArea) returns (found: bool)
    ensures found <==> Overlaps(a, b)
  {
    HitsAreOverlap(a, b);
    if a.ncgiList.Some? && (b.ncgiList.Some? || b.taiList.Some?) {
      var items := a.ncgiList.value;
      for i := 0 to |items|
        invariant forall k | 0 <= k < i && items[k].Some? :: !NcgiHit(items[k].value.obj, b)
      {
        if items[i].Some? {
          var n := items[i].value.obj;
          if b.ncgiList.Some? {
            found := FindMeetsNcgi(b.ncgiList.value, n);
            if found { return; }
          }
          if b.taiList.Some? {
            found := ListsItem(b.taiList.value, n.tai);
            if found { return; }
          }
        }
      }
    }
    if a.taiList.Some? && (b.ncgiList.Some? || b.taiList.Some?) {
      var items := a.taiList.value;
      for i := 0 to |items|
        invariant forall k | 0 <= k < i && items[k].Some? :: !TaiHit(items[k].value.obj, b)
      {
        if items[i].Some? {
          var t := items[i].value.obj;
          if b.taiList.Some? {
            found := ListsItem(b.taiList.value, t);
            if found { return; }
          }
          if b.ncgiList.Some? {
            found := FindMeetsTai(b.ncgiList.value, t);
            if found { return; }
          }
        }
      }
    }
    return false;
  }

  lemma HitsAreOverlap(a: ServiceArea, b: ServiceArea)
    ensures Overlaps(a, b) <==>
            || (a.ncgiList.Some? && exists i :: 0 <= i < |a.ncgiList.value| && a.ncgiList.value[i].Some? &&
                                                NcgiHit(a.ncgiList.value[i].value.obj, b))
            || (a.taiList.Some? && exists i :: 0 <= i < |a.taiList.value| && a.taiList.value[i].Some? &&
                                               TaiHit(a.taiList.value[i].value.obj, b))
  {
    forall n ensures NcgiHit(n, b) <==> (exists m :: HasNcgiTai(b, m) && ShareCell(n, m)) || HasTai(b, n.tai) {
      if b.ncgiList.Some? && MeetsNcgi(b.ncgiList.value, n) {
        var i :| 0 <= i < |b.ncgiList.value| && b.ncgiList.value[i].Some? && ShareCell(n, b.ncgiList.value[i].value.obj);
        assert HasNcgiTai(b, b.ncgiList.value[i].value.obj);
      }
    }
    forall t ensures TaiHit(t, b) <==> HasTai(b, t) || exists m :: HasNcgiTai(b, m) && m.tai == t {
      if b.ncgiList.Some? && MeetsTai(b.ncgiList.value, t) {
        var i :| 0 <= i < |b.ncgiList.value| && b.ncgiList.value[i].Some? && b.ncgiList.value[i].value.obj.tai == t;
        assert HasNcgiTai(b, b.ncgiList.value[i].value.obj);
      }
    }
    forall i | a.ncgiList.Some? && 0 <= i < |a.ncgiList.value| && a.ncgiList.value[i].Some?
      ensures HasNcgiTai(a, a.ncgiList.value[i].value.obj) {}
    forall i | a.taiList.Some? && 0 <= i < |a.taiList.value| && a.taiList.value[i].Some?
      ensures HasTai(a, a.taiList.value[i].value.obj) {}
  }

  // ----- what overlap means -------------------------------------------------------------------------

  /** The area covers the cell `c` of the tracking area `t`: all cells of a listed TAI, and the listed ones
      of an NcgiTai. */
  ghost predicate Covers(a: ServiceArea, t: Tai, c: Ncgi) {
    HasTai(a, t) || exists n :: HasNcgiTai(a, n) && n.tai == t && Lists(n.cellList, c)
  }

  ghost predicate Intersect(a: ServiceArea, b: ServiceArea) {
    exists t, c :: Covers(a, t, c) && Covers(b, t, c)
  }

  /** An NcgiTai of `a` without any cell lies in a TAI of `b`. */
  ghost predicate HollowMatch(a: ServiceArea, b: ServiceArea) {
    exists n :: HasNcgiTai(a, n) && HasTai(b, n.tai) && forall c :: !Lists(n.cellList, c)
  }

  /** The search is sound and complete for the covered cells, but for NcgiTais without any cell. */
  lemma OverlapIsIntersection(a: ServiceArea, b: ServiceArea)
    ensures Overlaps(a, b) <==> Intersect(a, b) || HollowMatch(a, b) || HollowMatch(b, a)
  {
    if Overlaps(a, b) {
      if n, m :| HasNcgiTai(a, n) && HasNcgiTai(b, m) && ShareCell(n, m) {
        var c :| Lists(n.cellList, c) && Lists(m.cellList, c);
        assert Covers(a, n.tai, c) && Covers(b, n.tai, c);
      } else if n :| HasNcgiTai(a, n) && HasTai(b, n.tai) {
        if c :| Lists(n.cellList, c) { assert Covers(a, n.tai, c) && Covers(b, n.tai, c); }
      } else if t :| HasTai(a, t) && HasTai(b, t) {
        var c := Ncgi(t.plmnId, "", None);
        assert Covers(a, t, c) && Covers(b, t, c);
      } else {
        var m :| HasNcgiTai(b, m) && HasTai(a, m.tai);
        if c :| Lists(m.cellList, c) { assert Covers(a, m.tai, c) && Covers(b, m.tai, c); }
      }
    }
    if Intersect(a, b) {
      var t, c :| Covers(a, t, c) && Covers(b, t, c);
      if !HasTai(a, t) && !HasTai(b, t) {
        var n :| HasNcgiTai(a, n) && n.tai == t && Lists(n.cellList, c);
        var m :| HasNcgiTai(b, m) && m.tai == t && Lists(m.cellList, c);
        assert ShareCell(n, m);
      }
    }
  }

  ghost predicate Full<T>(items: Items<T>) {
    items != [] && forall i | 0 <= i < |items| :: items[i].Some?
  }

  /** At least one list, each list with entries and no gaps, and cells in each NcgiTai. */
  ghost predicate WellFormed(a: ServiceArea) {
    && (a.ncgiList.Some? || a.taiList.Some?)
    && (a.taiList.Some? ==> Full(a.taiList.value))
    && (a.ncgiList.Some? ==>
          && Full(a.ncgiList.value)
          && forall i | 0 <= i < |a.ncgiList.value| :: Full(a.ncgiList.value[i].value.obj.cellList))
  }

  /** On well-formed areas overlap is intersection, hence symmetric, and reflexive. */
  lemma OverlapOfWellFormed(a: ServiceArea, b: ServiceArea)
    requires WellFormed(a) && WellFormed(b)
    ensures Overlaps(a, b) <==> Intersect(a, b)
    ensures Overlaps(a, b) <==> Overlaps(b, a)
    ensures Overlaps(a, a)
  {
    NothingHollow(a, b);
    NothingHollow(b, a);
    OverlapIsIntersection(a, b);
    OverlapIsIntersection(b, a);
    if a.taiList.Some? {
      assert HasTai(a, a.taiList.value[0].value.obj);
    } else {
      var n := a.ncgiList.value[0].value.obj;
      assert HasNcgiTai(a, n) && Lists(n.cellList, n.cellList[0].value.obj) && ShareCell(n, n);
    }
  }

  lemma NothingHollow(a: ServiceArea, b: ServiceArea)
    requires WellFormed(a)
    ensures !HollowMatch(a, b)
  {
    forall n | HasNcgiTai(a, n) ensures exists c :: Lists(n.cellList, c) {
      var i :| 0 <= i < |a.ncgiList.value| && a.ncgiList.value[i].Some? && a.ncgiList.value[i].value.obj == n;
      assert Lists(n.cellList, n.cellList[0].value.obj);
    }
  }

  // ----- sorting ------------------------------------------------------------------------------------

  /** Entries compare like optionals of pointers: an empty one first, then by what is pointed to. */
  predicate ItemLess<T>(less: (T, T) -> bool, a: Option<Ptr<T>>, b: Option<Ptr<T>>) {
    if a.None? && b.Some? then true else if a.None? || b.None? then false else less(a.value.obj, b.value.obj)
  }

  function ByItem<T>(less: (T, T) -> bool): (Option<Ptr<T>>, Option<Ptr<T>>) -> bool {
    (a, b) => ItemLess(less, a, b)
  }

  function SortItems<T>(less: (T, T) -> bool, items: Items<T>): Items<T> {
    S.Sort(ByItem(less), items)
  }

  lemma SortedItem<T>(less: (T, T) -> bool, items: Items<T>, i: nat) returns (j: nat)
    requires i < |SortItems(less, items)|
    ensures j < |items| && items[j] == SortItems(less, items)[i]
  {
    var x := SortItems(less, items)[i];
    S.SortKeeps(ByItem(less), items);
    assert x in multiset(SortItems(less, items));
    assert x in multiset(items);
    j :| 0 <= j < |items| && items[j] == x;
  }

  lemma SortKeepsFull<T>(less: (T, T) -> bool, items: Items<T>)
    requires Full(items)
    ensures Full(SortItems(less, items))
  {
    var s := SortItems(less, items);
    S.SortKeeps(ByItem(less), items);
    assert |s| == |multiset(s)| == |multiset(items)| == |items|;
    forall i | 0 <= i < |s| ensures s[i].Some? { var j := SortedItem(less, items, i); }
  }

  // ----- order --------------------------------------------------------------------------------------

  /** The walk over two sorted lists. Entries are told apart by address, and the walk stops as soon as one
      list does: neither length counts. */
  function Walk<T>(less: (T, T) -> bool, a: Items<T>, b: Items<T>, i: nat): Ordering
    requires i <= |a| && i <= |b|
    decreases |a| - i
  {
    if i == |a| || i == |b| then Equal
    else if !SameItem(a[i], b[i]) then if ItemLess(less, a[i], b[i]) then Less else Greater
    else Walk(less, a, b, i + 1)
  }

  predicate SameItem<T>(a: Option<Ptr<T>>, b: Option<Ptr<T>>) {
    (a.None? && b.None?) || (a.Some? && b.Some? && a.value.addr == b.value.addr)
  }

  predicate NcgiTaiLess(a: NcgiTai, b: NcgiTai) {
    if a.tai != b.tai then TaiLess(a.tai, b.tai)
    else Walk(NcgiLess, SortItems(NcgiLess, a.cellList), SortItems(NcgiLess, b.cellList), 0) == Less
  }

  function ListOrdering<T>(less: (T, T) -> bool, a: Option<Items<T>>, b: Option<Items<T>>): Ordering {
    if a.None? && b.Some? then Less
    else if a.Some? && b.None? then Greater
    else if a.Some? then Walk(less, SortItems(less, a.value), SortItems(less, b.value), 0)
    else Equal
  }

  function AreaOrdering(a: ServiceArea, b: ServiceArea): Ordering {
    var ncgi := ListOrdering(NcgiTaiLess, a.ncgiList, b.ncgiList);
    if ncgi != Equal then ncgi else ListOrdering(TaiLess, a.taiList, b.taiList)
  }

  /** Steps through two sorted lists together. */
  method StepThrough<T>(less: (T, T) -> bool, a: Items<T>, b: Items<T>) returns (r: Ordering)
    ensures r == Walk(less, a, b, 0)
  {
    var i := 0;
    while i < |a| && i < |b|
      invariant i <= |a| && i <= |b|
      invariant Walk(less, a, b, 0) == Walk(less, a, b, i)
    {
      if !SameItem(a[i], b[i]) {
        return if ItemLess(less, a[i], b[i]) then Less else Greater;
      }
      i := i + 1;
    }
    return Equal;
  }

  method SvcAreaOrdering(a: ServiceArea, b: ServiceArea) returns (r: Ordering)
    ensures r == AreaOrdering(a, b)
  {
    if a.ncgiList.None? && b.ncgiList.Some? { return Less; }
    if a.ncgiList.Some? && b.ncgiList.None? { return Greater; }
    if a.ncgiList.Some? {
      r := StepThrough(NcgiTaiLess, SortItems(NcgiTaiLess, a.ncgiList.value), SortItems(NcgiTaiLess, b.ncgiList.value));
      if r != Equal { return; }
    }
    if a.taiList.None? && b.taiList.Some? { return Less; }
    if a.taiList.Some? && b.taiList.None? { return Greater; }
    if a.taiList.Some? {
      r := StepThrough(TaiLess, SortItems(TaiLess, a.taiList.value), SortItems(TaiLess, b.taiList.value));
      if r != Equal { return; }
    }
    return Equal;
  }

  // ----- the order of disjoint areas ----------------------------------------------------------------

  /** What disjoint areas are ordered by: an area with NcgiTais by the first of them and its first cell, and
      after all areas without. */
  datatype AreaKey = ByTai(tai: Tai) | ByCell(tai: Tai, cell: Ncgi)

  function First<T>(less: (T, T) -> bool, items: Items<T>): T
    requires Full(items)
  {
    SortKeepsFull(less, items);
    SortItems(less, items)[0].value.obj
  }

  lemma FirstIsListed<T(!new)>(less: (T, T) -> bool, items: Items<T>)
    requires Full(items)
    ensures Lists(items, First(less, items))
  {
    SortKeepsFull(less, items);
    var j := SortedItem(less, items, 0);
  }

  function KeyOfNcgiTai(n: NcgiTai): AreaKey
    requires Full(n.cellList)
  {
    ByCell(n.tai, First(NcgiLess, n.cellList))
  }

  function KeyOfArea(a: ServiceArea): AreaKey
    requires WellFormed(a)
  {
    if a.ncgiList.Some? then
      FirstNcgiIsFull(a);
      KeyOfNcgiTai(First(NcgiTaiLess, a.ncgiList.value))
    else ByTai(First(TaiLess, a.taiList.value))
  }

  lemma FirstNcgiIsFull(a: ServiceArea)
    requires WellFormed(a) && a.ncgiList.Some?
    ensures Full(First(NcgiTaiLess, a.ncgiList.value).cellList)
  {
    FirstIsListed(NcgiTaiLess, a.ncgiList.value);
  }

  function CompareKeys(a: AreaKey, b: AreaKey): Ordering {
    if a == b then Equal
    else if a.ByTai? != b.ByTai? then if a.ByTai? then Less else Greater
    else if a.tai != b.tai then if TaiLess(a.tai, b.tai) then Less else Greater
    else if NcgiLess(a.cell, b.cell) then Less else Greater
  }

  lemma KeysOrdered(a: AreaKey, b: AreaKey, c: AreaKey)
    ensures TotalOrder(CompareKeys, a, b, c)
  {
    TaisOrdered(a.tai, b.tai, c.tai);
    if a.ByCell? && b.ByCell? { NcgisOrdered(a.cell, b.cell, if c.ByCell? then c.cell else a.cell); }
  }

  /** Where there is one object there is one value. */
  ghost predicate Coherent<T(!new)>(a: Items<T>, b: Items<T>) {
    forall i, j | 0 <= i < |a| && 0 <= j < |b| && a[i].Some? && b[j].Some? && a[i].value.addr == b[j].value.addr ::
      a[i].value.obj == b[j].value.obj
  }

  ghost predicate CoherentAreas(a: ServiceArea, b: ServiceArea) {
    && (a.ncgiList.Some? && b.ncgiList.Some? ==>
          && Coherent(a.ncgiList.value, b.ncgiList.value)
          && forall n, m | HasNcgiTai(a, n) && HasNcgiTai(b, m) :: Coherent(n.cellList, m.cellList))
    && (a.taiList.Some? && b.taiList.Some? ==> Coherent(a.taiList.value, b.taiList.value))
  }

  /** Lists with different first entries are ordered by them. */
  lemma WalkDecidedByFirst<T(!new)>(less: (T, T) -> bool, a: Items<T>, b: Items<T>)
    requires Full(a) && Full(b) && Coherent(a, b) && First(less, a) != First(less, b)
    ensures Walk(less, SortItems(less, a), SortItems(less, b), 0) ==
            if less(First(less, a), First(less, b)) then Less else Greater
  {
    SortKeepsFull(less, a);
    SortKeepsFull(less, b);
    var i := SortedItem(less, a, 0);
    var j := SortedItem(less, b, 0);
  }

  /** NcgiTais that share no cell have different keys, and these order them. */
  lemma DisjointNcgiTais(n: NcgiTai, m: NcgiTai)
    requires Full(n.cellList) && Full(m.cellList) && Coherent(n.cellList, m.cellList) && !ShareCell(n, m)
    ensures CompareKeys(KeyOfNcgiTai(n), KeyOfNcgiTai(m)) == if NcgiTaiLess(n, m) then Less else Greater
  {
    FirstIsListed(NcgiLess, n.cellList);
    FirstIsListed(NcgiLess, m.cellList);
    if n.tai == m.tai { WalkDecidedByFirst(NcgiLess, n.cellList, m.cellList); }
  }

  lemma FirstsShareNoCell(a: ServiceArea, b: ServiceArea)
    requires WellFormed(a) && WellFormed(b) && CoherentAreas(a, b) && !Overlaps(a, b)
    requires a.ncgiList.Some? && b.ncgiList.Some?
    ensures var n, m := First(NcgiTaiLess, a.ncgiList.value), First(NcgiTaiLess, b.ncgiList.value);
            Full(n.cellList) && Full(m.cellList) && Coherent(n.cellList, m.cellList) && !ShareCell(n, m)
  {
    var n, m := First(NcgiTaiLess, a.ncgiList.value), First(NcgiTaiLess, b.ncgiList.value);
    FirstIsListed(NcgiTaiLess, a.ncgiList.value);
    FirstIsListed(NcgiTaiLess, b.ncgiList.value);
    assert HasNcgiTai(a, n) && HasNcgiTai(b, m);
    FirstNcgiIsFull(a);
    FirstNcgiIsFull(b);
  }

  lemma KeyWithCells(a: ServiceArea)
    requires WellFormed(a) && a.ncgiList.Some?
    ensures Full(First(NcgiTaiLess, a.ncgiList.value).cellList)
    ensures KeyOfArea(a) == KeyOfNcgiTai(First(NcgiTaiLess, a.ncgiList.value))
  {
    FirstNcgiIsFull(a);
  }

  /** Lists whose first NcgiTais share no cell are ordered by the keys of these. */
  lemma NcgiListsByKey(a: Items<NcgiTai>, b: Items<NcgiTai>)
    requires Full(a) && Full(b) && Coherent(a, b)
    requires var n, m := First(NcgiTaiLess, a), First(NcgiTaiLess, b);
             Full(n.cellList) && Full(m.cellList) && Coherent(n.cellList, m.cellList) && !ShareCell(n, m)
    ensures Walk(NcgiTaiLess, SortItems(NcgiTaiLess, a), SortItems(NcgiTaiLess, b), 0) ==
            CompareKeys(KeyOfNcgiTai(First(NcgiTaiLess, a)), KeyOfNcgiTai(First(NcgiTaiLess, b))) != Equal
  {
    var n, m := First(NcgiTaiLess, a), First(NcgiTaiLess, b);
    DisjointNcgiTais(n, m);
    assert n != m;
    WalkDecidedByFirst(NcgiTaiLess, a, b);
  }

  lemma DisjointNcgisOrderedByKey(a: ServiceArea, b: ServiceArea)
    requires WellFormed(a) && WellFormed(b) && CoherentAreas(a, b) && !Overlaps(a, b)
    requires a.ncgiList.Some? && b.ncgiList.Some?
    ensures ListOrdering(NcgiTaiLess, a.ncgiList, b.ncgiList) == CompareKeys(KeyOfArea(a), KeyOfArea(b)) != Equal
  {
    FirstsShareNoCell(a, b);
    KeyWithCells(a);
    KeyWithCells(b);
    NcgiAreasByKey(a.ncgiList.value, b.ncgiList.value, KeyOfArea(a), KeyOfArea(b));
  }

  lemma NcgiAreasByKey(a: Items<NcgiTai>, b: Items<NcgiTai>, k: AreaKey, l: AreaKey)
    requires Full(a) && Full(b) && Coherent(a, b)
    requires var n, m := First(NcgiTaiLess, a), First(NcgiTaiLess, b);
             && Full(n.cellList) && Full(m.cellList) && Coherent(n.cellList, m.cellList) && !ShareCell(n, m)
             && k == KeyOfNcgiTai(n) && l == KeyOfNcgiTai(m)
    ensures ListOrdering(NcgiTaiLess, Some(a), Some(b)) == CompareKeys(k, l) != Equal
  {
    ListOrderingIsWalk(NcgiTaiLess, a, b);
    NcgiListsByKey(a, b);
  }

  lemma ListOrderingIsWalk<T>(less: (T, T) -> bool, a: Items<T>, b: Items<T>)
    ensures ListOrdering(less, Some(a), Some(b)) == Walk(less, SortItems(less, a), SortItems(less, b), 0)
  {
  }

  /** Lists with different first TAIs are ordered by these. */
  lemma TaiListsByKey(a: Items<Tai>, b: Items<Tai>)
    requires Full(a) && Full(b) && Coherent(a, b) && First(TaiLess, a) != First(TaiLess, b)
    ensures Walk(TaiLess, SortItems(TaiLess, a), SortItems(TaiLess, b), 0) ==
            CompareKeys(ByTai(First(TaiLess, a)), ByTai(First(TaiLess, b))) != Equal
  {
    WalkDecidedByFirst(TaiLess, a, b);
  }

  lemma FirstTaisDiffer(a: ServiceArea, b: ServiceArea)
    requires WellFormed(a) && WellFormed(b) && !Overlaps(a, b) && a.ncgiList.None? && b.ncgiList.None?
    ensures First(TaiLess, a.taiList.value) != First(TaiLess, b.taiList.value)
  {
    FirstIsListed(TaiLess, a.taiList.value);
    FirstIsListed(TaiLess, b.taiList.value);
    assert HasTai(a, First(TaiLess, a.taiList.value)) && HasTai(b, First(TaiLess, b.taiList.value));
  }

  lemma DisjointTaisOrderedByKey(a: ServiceArea, b: ServiceArea)
    requires WellFormed(a) && WellFormed(b) && CoherentAreas(a, b) && !Overlaps(a, b)
    requires a.ncgiList.None? && b.ncgiList.None?
    ensures ListOrdering(TaiLess, a.taiList, b.taiList) == CompareKeys(KeyOfArea(a), KeyOfArea(b)) != Equal
  {
    FirstTaisDiffer(a, b);
    TaiListsByKey(a.taiList.value, b.taiList.value);
  }

  /** Disjoint areas have different keys, and these order them. */
  lemma DisjointOrderedByKey(a: ServiceArea, b: ServiceArea)
    requires WellFormed(a) && WellFormed(b) && CoherentAreas(a, b) && !Overlaps(a, b)
    ensures AreaOrdering(a, b) == CompareKeys(KeyOfArea(a), KeyOfArea(b)) != Equal
  {
    if a.ncgiList.Some? && b.ncgiList.Some? {
      DisjointNcgisOrderedByKey(a, b);
    } else if a.ncgiList.None? && b.ncgiList.None? {
      DisjointTaisOrderedByKey(a, b);
    }
  }

  // ----- lists of any kind --------------------------------------------------------------------------

  /** From `i` on the lists hold the same objects up to `k`, and there they do not. */
  ghost predicate FirstDifference<T>(a: Items<T>, b: Items<T>, i: nat, k: nat)
    requires k < |a| && k < |b|
  {
    i <= k && !SameItem(a[k], b[k]) && forall j | i <= j < k :: SameItem(a[j], b[j])
  }

  /** The walk is decided at the first place where the lists hold different objects, by what these are. What is
      behind the end of one list does not count. */
  lemma {:induction false} WalkMeans<T>(less: (T, T) -> bool, a: Items<T>, b: Items<T>, i: nat)
    requires i <= |a| && i <= |b|
    ensures Walk(less, a, b, i) == Equal <==> forall j | i <= j < |a| && j < |b| :: SameItem(a[j], b[j])
    ensures forall k: nat | k < |a| && k < |b| && FirstDifference(a, b, i, k) ::
              Walk(less, a, b, i) == if ItemLess(less, a[k], b[k]) then Less else Greater
    decreases |a| - i
  {
    if i < |a| && i < |b| && SameItem(a[i], b[i]) {
      WalkMeans(less, a, b, i + 1);
      forall k: nat | k < |a| && k < |b| && FirstDifference(a, b, i, k) ensures FirstDifference(a, b, i + 1, k) {
      }
    }
  }

  // ----- areas listed differently -------------------------------------------------------------------

  ghost predicate TotalOn<T(!new)>(less: (T, T) -> bool, items: Items<T>) {
    forall x, y, z | Lists(items, x) && Lists(items, y) && Lists(items, z) :: StrictTotal(less, x, y, z)
  }

  lemma TotalIsWeak<T(!new)>(less: (T, T) -> bool, items: Items<T>)
    requires TotalOn(less, items)
    ensures S.WeakOn(ByItem(less), items)
  {
    forall x, y, z | x in items && y in items && z in items ensures S.WeakAt(ByItem(less), x, y, z) {
      if x.Some? && y.Some? && z.Some? {
        assert Lists(items, x.value.obj) && Lists(items, y.value.obj) && Lists(items, z.value.obj);
        assert StrictTotal(less, x.value.obj, y.value.obj, z.value.obj);
        assert StrictTotal(less, y.value.obj, z.value.obj, x.value.obj);
        assert StrictTotal(less, z.value.obj, x.value.obj, y.value.obj);
        assert StrictTotal(less, x.value.obj, z.value.obj, y.value.obj);
      } else {
        if x.Some? && y.Some? { TwoOfThem(less, items, x, y); }
        if x.Some? && z.Some? { TwoOfThem(less, items, x, z); }
        if y.Some? && z.Some? { TwoOfThem(less, items, y, z); }
      }
    }
  }

  lemma TwoOfThem<T(!new)>(less: (T, T) -> bool, items: Items<T>, x: Option<Ptr<T>>, y: Option<Ptr<T>>)
    requires TotalOn(less, items) && x in items && y in items && x.Some? && y.Some?
    ensures ItemLess(less, x, y) ==> !ItemLess(less, y, x)
  {
    assert Lists(items, x.value.obj) && Lists(items, y.value.obj);
    assert StrictTotal(less, x.value.obj, y.value.obj, x.value.obj);
  }

  /** Sorting moves the gaps of a list to its front, and a list with a gap comes before one without. */
  lemma GapsComeFirst<T(!new)>(less: (T, T) -> bool, a: Items<T>, b: Items<T>)
    requires TotalOn(less, a)
    ensures var s := SortItems(less, a); forall i, j | 0 <= i < j < |s| && s[j].None? :: s[i].None?
    ensures None in a && Full(b) ==>
              && ListOrdering(less, Some(a), Some(b)) == Less
              && ListOrdering(less, Some(b), Some(a)) == Greater
  {
    var s := SortItems(less, a);
    TotalIsWeak(less, a);
    S.SortAscends(ByItem(less), a);
    forall i, j | 0 <= i < j < |s| && s[j].None? ensures s[i].None? {
      assert !ByItem(less)(s[j], s[i]);
    }
    if None in a && Full(b) {
      SortKeepsFull(less, b);
      var k :| 0 <= k < |a| && a[k].None?;
      var j := PlaceInSorted(less, a, k);
      assert s[0].None?;
    }
  }

  lemma PlaceInSorted<T>(less: (T, T) -> bool, items: Items<T>, i: nat) returns (j: nat)
    requires i < |items|
    ensures j < |SortItems(less, items)| && SortItems(less, items)[j] == items[i]
  {
    S.SortKeeps(ByItem(less), items);
    S.SameMembers(SortItems(less, items), items);
    assert items[i] in items;
    j :| 0 <= j < |SortItems(less, items)| && SortItems(less, items)[j] == items[i];
  }

  lemma NotBeforeFirst<T>(less: (T, T) -> bool, s: Items<T>, j: nat)
    requires S.Ascending(ByItem(less), s) && 0 < j < |s| && s[0].Some? && s[j].Some?
    ensures !less(s[j].value.obj, s[0].value.obj)
  {
    assert !ByItem(less)(s[j], s[0]);
  }

  /** The first entry after sorting is the least one, so it does not depend on how the list was written. */
  lemma FirstIsLeast<T(!new)>(less: (T, T) -> bool, items: Items<T>, x: T)
    requires Full(items) && TotalOn(less, items) && Lists(items, x)
    ensures !less(x, First(less, items))
  {
    TotalIsWeak(less, items);
    S.SortAscends(ByItem(less), items);
    SortKeepsFull(less, items);
    var i :| 0 <= i < |items| && items[i].Some? && items[i].value.obj == x;
    var j := PlaceInSorted(less, items, i);
    if j > 0 {
      NotBeforeFirst(less, SortItems(less, items), j);
    } else {
      assert StrictTotal(less, x, x, x);
    }
  }

  lemma SameFirst<T(!new)>(less: (T, T) -> bool, a: Items<T>, b: Items<T>)
    requires Full(a) && Full(b) && TotalOn(less, a) && forall x :: Lists(a, x) <==> Lists(b, x)
    ensures First(less, a) == First(less, b)
  {
    FirstIsListed(less, a);
    FirstIsListed(less, b);
    FirstIsLeast(less, a, First(less, b));
    FirstIsLeast(less, b, First(less, a));
    assert StrictTotal(less, First(less, a), First(less, b), First(less, b));
  }

  /** No two NcgiTais of the area lie in the same tracking area. */
  ghost predicate OncePerTai(a: ServiceArea) {
    forall n, m | HasNcgiTai(a, n) && HasNcgiTai(a, m) && n.tai == m.tai :: n == m
  }

  ghost predicate SameCells(n: NcgiTai, m: NcgiTai) {
    n.tai == m.tai && forall c :: Lists(n.cellList, c) <==> Lists(m.cellList, c)
  }

  ghost predicate Matches(a: ServiceArea, n: NcgiTai) {
    exists m :: HasNcgiTai(a, m) && SameCells(m, n)
  }

  /** The areas list the same TAIs and the same cells, in any order and as often as they like. */
  ghost predicate SameListing(a: ServiceArea, b: ServiceArea) {
    && (a.ncgiList.Some? <==> b.ncgiList.Some?)
    && (a.taiList.Some? <==> b.taiList.Some?)
    && (forall t :: HasTai(a, t) <==> HasTai(b, t))
    && (forall n | HasNcgiTai(a, n) :: Matches(b, n))
    && (forall n | HasNcgiTai(b, n) :: Matches(a, n))
  }

  lemma NotLessThanItself(n: NcgiTai)
    ensures !NcgiTaiLess(n, n)
  {
    WalkOverItself(NcgiLess, SortItems(NcgiLess, n.cellList), 0);
  }

  lemma {:induction false} WalkOverItself<T>(less: (T, T) -> bool, items: Items<T>, i: nat)
    requires i <= |items|
    ensures Walk(less, items, items, i) == Equal
    decreases |items| - i
  {
    if i < |items| { WalkOverItself(less, items, i + 1); }
  }

  lemma NcgiTaisOrdered(a: ServiceArea)
    requires OncePerTai(a) && a.ncgiList.Some?
    ensures TotalOn(NcgiTaiLess, a.ncgiList.value)
  {
    forall x, y, z | Lists(a.ncgiList.value, x) && Lists(a.ncgiList.value, y) && Lists(a.ncgiList.value, z)
      ensures StrictTotal(NcgiTaiLess, x, y, z)
    {
      assert HasNcgiTai(a, x) && HasNcgiTai(a, y) && HasNcgiTai(a, z);
      TaisOrdered(x.tai, y.tai, z.tai);
      if x == y { NotLessThanItself(x); }
      if x == z { NotLessThanItself(x); }
    }
  }

  lemma LeastNcgiTai(a: ServiceArea, n: NcgiTai)
    requires WellFormed(a) && OncePerTai(a) && HasNcgiTai(a, n)
    ensures var f := First(NcgiTaiLess, a.ncgiList.value); HasNcgiTai(a, f) && (f == n || TaiLess(f.tai, n.tai))
  {
    NcgiTaisOrdered(a);
    FirstIsLeast(NcgiTaiLess, a.ncgiList.value, n);
    FirstIsListed(NcgiTaiLess, a.ncgiList.value);
    var f := First(NcgiTaiLess, a.ncgiList.value);
    TaisOrdered(f.tai, n.tai, n.tai);
  }

  lemma FirstNcgiTaiNotAfter(a: ServiceArea, g: NcgiTai)
    requires WellFormed(a) && OncePerTai(a) && a.ncgiList.Some?
    requires Matches(a, g)
    ensures var f := First(NcgiTaiLess, a.ncgiList.value); TaiLess(f.tai, g.tai) || SameCells(f, g)
  {
    var n :| HasNcgiTai(a, n) && SameCells(n, g);
    LeastNcgiTai(a, n);
  }

  /** Sorting brings the same NcgiTai to the front, but for the way its cells are written. */
  lemma SameFirstNcgiTai(a: ServiceArea, b: ServiceArea)
    requires WellFormed(a) && WellFormed(b) && OncePerTai(a) && OncePerTai(b) && a.ncgiList.Some? && b.ncgiList.Some?
    requires Matches(a, First(NcgiTaiLess, b.ncgiList.value)) && Matches(b, First(NcgiTaiLess, a.ncgiList.value))
    ensures SameCells(First(NcgiTaiLess, a.ncgiList.value), First(NcgiTaiLess, b.ncgiList.value))
  {
    var f, g := First(NcgiTaiLess, a.ncgiList.value), First(NcgiTaiLess, b.ncgiList.value);
    FirstNcgiTaiNotAfter(a, g);
    FirstNcgiTaiNotAfter(b, f);
    TaisOrdered(f.tai, g.tai, f.tai);
  }

  /** Areas with the same listing have the same key. */
  lemma SameListingSameKey(a: ServiceArea, b: ServiceArea)
    requires WellFormed(a) && WellFormed(b) && OncePerTai(a) && OncePerTai(b) && SameListing(a, b)
    ensures KeyOfArea(a) == KeyOfArea(b)
  {
    if a.ncgiList.Some? {
      FirstIsListed(NcgiTaiLess, a.ncgiList.value);
      FirstIsListed(NcgiTaiLess, b.ncgiList.value);
      assert HasNcgiTai(a, First(NcgiTaiLess, a.ncgiList.value)) && HasNcgiTai(b, First(NcgiTaiLess, b.ncgiList.value));
      SameFirstNcgiTai(a, b);
      FirstNcgiIsFull(a);
      FirstNcgiIsFull(b);
      forall x, y, z ensures StrictTotal(NcgiLess, x, y, z) { NcgisOrdered(x, y, z); }
      SameFirst(NcgiLess, First(NcgiTaiLess, a.ncgiList.value).cellList, First(NcgiTaiLess, b.ncgiList.value).cellList);
    } else {
      forall x, y, z ensures StrictTotal(TaiLess, x, y, z) { TaisOrdered(x, y, z); }
      assert forall t :: Lists(a.taiList.value, t) <==> HasTai(a, t);
      assert forall t :: Lists(b.taiList.value, t) <==> HasTai(b, t);
      SameFirst(TaiLess, a.taiList.value, b.taiList.value);
    }
  }

  // ----- which of two disjoint areas comes first ----------------------------------------------------

  /** What an area is made of: its TAIs if it has no NcgiTais, and otherwise each cell that one of those lists. */
  ghost predicate Marks(a: ServiceArea, k: AreaKey) {
    match k
    case ByTai(t) => a.ncgiList.None? && HasTai(a, t)
    case ByCell(t, c) => exists n :: HasNcgiTai(a, n) && n.tai == t && Lists(n.cellList, c)
  }

  /** TAIs come before cells; TAIs are compared as such, and cells only within one tracking area. */
  ghost predicate MarkPrecedes(k: AreaKey, l: AreaKey) {
    match k
    case ByTai(t) => l.ByCell? || TaiLess(t, l.tai)
    case ByCell(t, c) => l.ByCell? && (TaiLess(t, l.tai) || (t == l.tai && NcgiLess(c, l.cell)))
  }

  lemma KeyLessMeans(k: AreaKey, l: AreaKey)
    ensures CompareKeys(k, l) == Less <==> MarkPrecedes(k, l)
  {
    TaisOrdered(k.tai, l.tai, k.tai);
    if k.ByCell? && l.ByCell? { NcgisOrdered(k.cell, l.cell, k.cell); }
  }

  lemma KeyMarks(a: ServiceArea)
    requires WellFormed(a)
    ensures Marks(a, KeyOfArea(a))
  {
    if a.ncgiList.Some? {
      KeyWithCells(a);
      var f := First(NcgiTaiLess, a.ncgiList.value);
      FirstIsListed(NcgiTaiLess, a.ncgiList.value);
      FirstIsListed(NcgiLess, f.cellList);
      assert HasNcgiTai(a, f);
    } else {
      FirstIsListed(TaiLess, a.taiList.value);
    }
  }

  lemma KeyIsLeast(a: ServiceArea, k: AreaKey)
    requires WellFormed(a) && OncePerTai(a) && Marks(a, k)
    ensures k == KeyOfArea(a) || MarkPrecedes(KeyOfArea(a), k)
  {
    if a.ncgiList.Some? {
      KeyWithCells(a);
      var n :| HasNcgiTai(a, n) && n.tai == k.tai && Lists(n.cellList, k.cell);
      LeastNcgiTai(a, n);
      if n == First(NcgiTaiLess, a.ncgiList.value) { CellIsNotBeforeFirst(n, k.cell); }
    } else {
      TaiIsNotBeforeFirst(a.taiList.value, k.tai);
    }
  }

  lemma CellIsNotBeforeFirst(n: NcgiTai, c: Ncgi)
    requires Full(n.cellList) && Lists(n.cellList, c)
    ensures c == First(NcgiLess, n.cellList) || NcgiLess(First(NcgiLess, n.cellList), c)
  {
    forall x, y, z ensures StrictTotal(NcgiLess, x, y, z) { NcgisOrdered(x, y, z); }
    FirstIsLeast(NcgiLess, n.cellList, c);
    NcgisOrdered(c, First(NcgiLess, n.cellList), c);
  }

  lemma TaiIsNotBeforeFirst(items: Items<Tai>, t: Tai)
    requires Full(items) && Lists(items, t)
    ensures t == First(TaiLess, items) || TaiLess(First(TaiLess, items), t)
  {
    forall x, y, z ensures StrictTotal(TaiLess, x, y, z) { TaisOrdered(x, y, z); }
    FirstIsLeast(TaiLess, items, t);
    TaisOrdered(t, First(TaiLess, items), t);
  }

  /** Of two disjoint areas that one comes first which has a TAI or cell before all those of the other. */
  lemma DisjointAreasInOrder(a: ServiceArea, b: ServiceArea)
    requires WellFormed(a) && WellFormed(b) && OncePerTai(a) && OncePerTai(b)
    requires CoherentAreas(a, b) && !Overlaps(a, b)
    ensures AreaOrdering(a, b) == Less <==> exists k :: Marks(a, k) && forall l | Marks(b, l) :: MarkPrecedes(k, l)
  {
    var f, g := KeyOfArea(a), KeyOfArea(b);
    DisjointOrderedByKey(a, b);
    KeyMarks(a);
    KeyMarks(b);
    KeyLessMeans(f, g);
    if MarkPrecedes(f, g) {
      forall l | Marks(b, l) ensures MarkPrecedes(f, l) {
        KeyIsLeast(b, l);
        PrecedesOn(f, g, l);
      }
    }
    if k :| Marks(a, k) && forall l | Marks(b, l) :: MarkPrecedes(k, l) {
      KeyIsLeast(a, k);
      PrecedesOn(f, k, g);
    }
  }

  lemma PrecedesOn(f: AreaKey, g: AreaKey, l: AreaKey)
    requires (f == g || MarkPrecedes(f, g)) && (g == l || MarkPrecedes(g, l))
    ensures f == l || MarkPrecedes(f, l)
    ensures MarkPrecedes(f, g) || MarkPrecedes(g, l) ==> MarkPrecedes(f, l)
  {
    KeyLessMeans(f, g);
    KeyLessMeans(g, l);
    KeyLessMeans(f, l);
    KeysOrdered(f, g, l);
  }
}
