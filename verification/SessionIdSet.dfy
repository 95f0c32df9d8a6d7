/** The context's set of unique MBS session ids: a search tree ordered by their comparison. */
module SessionIdSet {
  import opened Schedule
  import opened Identifiers
  import opened ServiceAreas
  import opened UniqueSessionIds

  datatype Tree = Leaf | Node(left: Tree, id: UniqueId, right: Tree)

  ghost function Elements(t: Tree): set<UniqueId> {
    match t
    case Leaf => {}
    case Node(l, id, r) => Elements(l) + {id} + Elements(r)
  }

  /** A search tree: every id lies between the ids to its left and the ids to its right. */
  ghost predicate Ordered(t: Tree) {
    match t
    case Leaf => true
    case Node(l, id, r) =>
      && Ordered(l) && Ordered(r)
      && (forall k | k in Elements(l) :: Compare(k, id) == Less)
      && (forall k | k in Elements(r) :: Compare(id, k) == Less)
  }

  ghost predicate Contains(t: Tree, x: UniqueId) {
    match t
    case Leaf => false
    case Node(l, id, r) =>
      match Compare(x, id)
      case Less => Contains(l, x)
      case Equal => true
      case Greater => Contains(r, x)
  }

  ghost function Insert(t: Tree, x: UniqueId): Tree {
    match t
    case Leaf => Node(Leaf, x, Leaf)
    case Node(l, id, r) =>
      match Compare(x, id)
      case Less => Node(Insert(l, x), id, r)
      case Equal => t
      case Greater => Node(l, id, Insert(r, x))
  }

  function Join(l: Tree, r: Tree): Tree {
    match l
    case Leaf => r
    case Node(ll, id, lr) => Node(ll, id, Join(lr, r))
  }

  ghost function Erase(t: Tree, x: UniqueId): Tree {
    match t
    case Leaf => Leaf
    case Node(l, id, r) =>
      match Compare(x, id)
      case Less => Node(Erase(l, x), id, r)
      case Equal => Join(l, r)
      case Greater => Node(l, id, Erase(r, x))
  }

  // ----- the tree operations on comparable ids ------------------------------------------------------

  /** A comparison with a node tells which side of the tree can hold an equal. */
  ghost predicate Placed(t: Tree, x: UniqueId) {
    match t
    case Leaf => true
    case Node(l, id, r) =>
      && Compare(id, x) == Compare(x, id).Flip()
      && (if Compare(x, id) == Less then Placed(l, x) else forall k | k in Elements(l) :: Compare(k, x) == Less)
      && (if Compare(x, id) == Greater then Placed(r, x) else forall k | k in Elements(r) :: Compare(k, x) == Greater)
  }

  lemma Chained(ids: set<UniqueId>, x: UniqueId, y: UniqueId, z: UniqueId)
    requires WeakOrder(ids) && x in ids && y in ids && z in ids
    requires Compare(x, y) != Greater && Compare(y, z) != Greater
    requires Compare(x, y) == Less || Compare(y, z) == Less
    ensures Compare(x, z) == Less
  {
    assert Compare(x, z) != Greater && Compare(z, x) == Compare(x, z).Flip();
    assert Compare(y, x) == Compare(x, y).Flip() && Compare(z, y) == Compare(y, z).Flip();
    if Compare(x, z) == Equal {
      assert Compare(y, z) != Greater && Compare(z, x) != Greater ==> Compare(y, x) != Greater;
      assert Compare(z, x) != Greater && Compare(x, y) != Greater ==> Compare(z, y) != Greater;
    }
  }

  /** Among comparable ids every id has its place in a search tree. */
  lemma {:induction false} EveryIdIsPlaced(t: Tree, ids: set<UniqueId>, x: UniqueId)
    requires WeakOrder(ids) && Ordered(t) && Elements(t) <= ids && x in ids
    ensures Placed(t, x)
  {
    if t.Node? {
      assert t.id in Elements(t);
      EveryIdIsPlaced(t.left, ids, x);
      EveryIdIsPlaced(t.right, ids, x);
      forall k | k in Elements(t.right) && Compare(x, t.id) != Greater ensures Compare(k, x) == Greater {
        Chained(ids, x, t.id, k);
      }
      forall k | k in Elements(t.left) && Compare(x, t.id) != Less ensures Compare(k, x) == Less {
        Chained(ids, k, t.id, x);
      }
    }
  }

  /** Some id of the tree compares equal. */
  ghost predicate HasEqual(t: Tree, x: UniqueId) {
    exists k :: k in Elements(t) && Compare(k, x) == Equal
  }

  lemma {:induction false} ContainsExactly(t: Tree, x: UniqueId)
    requires Placed(t, x)
    ensures Contains(t, x) <==> HasEqual(t, x)
  {
    match t
    case Leaf =>
    case Node(l, id, r) =>
      match Compare(x, id)
      case Less => ContainsExactly(l, x);
      case Equal => assert id in Elements(t);
      case Greater => ContainsExactly(r, x);
  }

  lemma {:induction false} InsertKeepsOrder(t: Tree, x: UniqueId)
    requires Ordered(t) && Placed(t, x)
    ensures Ordered(Insert(t, x))
    ensures Elements(Insert(t, x)) == if HasEqual(t, x) then Elements(t) else Elements(t) + {x}
  {
    match t
    case Leaf =>
    case Node(l, id, r) =>
      EqualAtNode(t, x);
      match Compare(x, id)
      case Less => InsertKeepsOrder(l, x);
      case Equal =>
      case Greater => InsertKeepsOrder(r, x);
  }

  lemma EqualAtNode(t: Tree, x: UniqueId)
    requires t.Node? && Placed(t, x)
    ensures HasEqual(t, x) <==>
            match Compare(x, t.id)
            case Less => HasEqual(t.left, x)
            case Equal => true
            case Greater => HasEqual(t.right, x)
  {
    assert t.id in Elements(t);
  }

  lemma {:induction false} JoinKeepsOrder(l: Tree, r: Tree)
    requires Ordered(l) && Ordered(r)
    requires forall a, b | a in Elements(l) && b in Elements(r) :: Compare(a, b) == Less
    ensures Ordered(Join(l, r)) && Elements(Join(l, r)) == Elements(l) + Elements(r)
  {
    if l.Node? { JoinKeepsOrder(l.right, r); }
  }

  lemma JoinSides(t: Tree, ids: set<UniqueId>)
    requires WeakOrder(ids) && t.Node? && Ordered(t) && Elements(t) <= ids
    ensures Ordered(Join(t.left, t.right))
    ensures Elements(Join(t.left, t.right)) == Elements(t.left) + Elements(t.right)
  {
    assert t.id in Elements(t);
    forall a, b | a in Elements(t.left) && b in Elements(t.right) ensures Compare(a, b) == Less {
      Chained(ids, a, t.id, b);
    }
    JoinKeepsOrder(t.left, t.right);
  }

  /** The ids that do not compare equal to a given one. */
  ghost function Unlike(ids: set<UniqueId>, x: UniqueId): set<UniqueId> {
    set k | k in ids && Compare(k, x) != Equal
  }

  lemma {:induction false} EraseKeepsOrder(t: Tree, ids: set<UniqueId>, x: UniqueId)
    requires WeakOrder(ids) && Ordered(t) && Elements(t) <= ids && Placed(t, x)
    ensures Ordered(Erase(t, x))
    ensures Elements(Erase(t, x)) == Unlike(Elements(t), x)
  {
    if t.Node? {
      if Compare(x, t.id) == Less {
        EraseKeepsOrder(t.left, ids, x);
      } else if Compare(x, t.id) == Greater {
        EraseKeepsOrder(t.right, ids, x);
      } else {
        JoinSides(t, ids);
      }
      EraseAtNode(t, x);
    }
  }

  lemma UnlikeAtNode(t: Tree, x: UniqueId)
    requires t.Node? && Placed(t, x)
    ensures Unlike(Elements(t), x) ==
            match Compare(x, t.id)
            case Less => Unlike(Elements(t.left), x) + {t.id} + Elements(t.right)
            case Equal => Elements(t.left) + Elements(t.right)
            case Greater => Elements(t.left) + {t.id} + Unlike(Elements(t.right), x)
  {
  }

  lemma EraseAtNode(t: Tree, x: UniqueId)
    requires t.Node? && Ordered(t) && Placed(t, x)
    requires Compare(x, t.id) == Less ==> Ordered(Erase(t.left, x)) && Elements(Erase(t.left, x)) == Unlike(Elements(t.left), x)
    requires Compare(x, t.id) == Greater ==> Ordered(Erase(t.right, x)) && Elements(Erase(t.right, x)) == Unlike(Elements(t.right), x)
    requires Compare(x, t.id) == Equal ==>
               Ordered(Join(t.left, t.right)) && Elements(Join(t.left, t.right)) == Elements(t.left) + Elements(t.right)
    ensures Ordered(Erase(t, x)) && Elements(Erase(t, x)) == Unlike(Elements(t), x)
  {
    UnlikeAtNode(t, x);
    assert Unlike(Elements(t.left), x) <= Elements(t.left) && Unlike(Elements(t.right), x) <= Elements(t.right);
  }

  // ----- the context --------------------------------------------------------------------------------

  method InsertInto(t: Tree, x: UniqueId) returns (r: Tree)
    ensures r == Insert(t, x)
  {
    match t
    case Leaf => r := Node(Leaf, x, Leaf);
    case Node(left, id, right) =>
      var c := CompareIds(x, id);
      if c == Less {
        var l := InsertInto(left, x);
        r := Node(l, id, right);
      } else if c == Greater {
        var rr := InsertInto(right, x);
        r := Node(left, id, rr);
      } else {
        r := t;
      }
  }

  method EraseFrom(t: Tree, x: UniqueId) returns (r: Tree)
    ensures r == Erase(t, x)
  {
    match t
    case Leaf => r := Leaf;
    case Node(left, id, right) =>
      var c := CompareIds(x, id);
      if c == Less {
        var l := EraseFrom(left, x);
        r := Node(l, id, right);
      } else if c == Greater {
        var rr := EraseFrom(right, x);
        r := Node(left, id, rr);
      } else {
        r := Join(left, right);
      }
  }

  class Context {
    var mbsSessionIds: Tree

    constructor ()
      ensures mbsSessionIds == Leaf
    {
      mbsSessionIds := Leaf;
    }

    method AddMbsSessionId(id: UniqueId)
      modifies this
      ensures mbsSessionIds == Insert(old(mbsSessionIds), id)
    {
      mbsSessionIds := InsertInto(mbsSessionIds, id);
    }

    method DeleteMbsSessionId(id: UniqueId)
      modifies this
      ensures mbsSessionIds == Erase(old(mbsSessionIds), id)
    {
      mbsSessionIds := EraseFrom(mbsSessionIds, id);
    }

    method HaveMbsSessionId(id: UniqueId) returns (found: bool)
      ensures found <==> Contains(mbsSessionIds, id)
    {
      var t := mbsSessionIds;
      while t.Node?
        invariant Contains(mbsSessionIds, id) <==> Contains(t, id)
        decreases t
      {
        var c := CompareIds(id, t.id);
        if c == Equal { return true; }
        t := if c == Less then t.left else t.right;
      }
      return false;
    }
  }

  // ----- runs ---------------------------------------------------------------------------------------

  datatype Op = Add(id: UniqueId) | Delete(id: UniqueId)

  ghost function Run(ops: seq<Op>): Tree {
    if ops == [] then Leaf
    else
      var t := Run(ops[..|ops| - 1]);
      match ops[|ops| - 1]
      case Add(id) => Insert(t, id)
      case Delete(id) => Erase(t, id)
  }

  /** Two ids that cannot both be in use: the same session, at places that meet, or no session at all. */
  ghost predicate Clash(x: UniqueId, y: UniqueId) {
    if x.session.None? || y.session.None? then x.session.None? && y.session.None?
    else KeyOf(x.session.value) == KeyOf(y.session.value) && Meets(PlaceOf(x), PlaceOf(y))
  }

  /** The ids in use after a run, kept in no order: an id is added unless it clashes, and taken out with those
      it clashes with. */
  ghost function Registered(ops: seq<Op>): set<UniqueId> {
    if ops == [] then {}
    else
      var ids := Registered(ops[..|ops| - 1]);
      match ops[|ops| - 1]
      case Add(id) => if exists k :: k in ids && Clash(k, id) then ids else ids + {id}
      case Delete(id) => set k | k in ids && !Clash(k, id)
  }

  ghost function PlacesOf(ids: set<UniqueId>): set<Place> {
    set x | x in ids && x.session.Some? :: PlaceOf(x)
  }

  /** Ids as callers make them, in service areas, external areas, both or neither, at separated places. An id may
      also lack a session. */
  ghost predicate Comparable(ids: set<UniqueId>) {
    && (forall x | x in ids && x.session.Some? :: x == IdOf(x.session.value, PlaceOf(x)))
    && WellFormedPlaces(PlacesOf(ids)) && Separated(PlacesOf(ids))
  }

  lemma ComparableIsOrdered(ids: set<UniqueId>)
    requires Comparable(ids)
    ensures WeakOrder(ids)
    ensures forall x, y | x in ids && y in ids :: Compare(x, y) == Equal <==> Clash(x, y)
  {
    var places := PlacesOf(ids);
    forall x | x in ids && x.session.Some? ensures PlaceOf(x) in places {}
    forall x, y, z | x in ids && y in ids && z in ids
      ensures Compare(x, x) == Equal
      ensures Compare(y, x) == Compare(x, y).Flip()
      ensures Compare(x, y) != Greater && Compare(y, z) != Greater ==> Compare(x, z) != Greater
    {
      NoSessionComesFirst(x, y);
      NoSessionComesFirst(y, x);
      NoSessionComesFirst(x, z);
      NoSessionComesFirst(z, x);
      NoSessionComesFirst(y, z);
      NoSessionComesFirst(x, x);
      ThreeOrdered(ids, x, y, z);
    }
    forall x, y | x in ids && y in ids ensures Compare(x, y) == Equal <==> Clash(x, y) {
      NoSessionComesFirst(x, y);
      NoSessionComesFirst(y, x);
      if x.session.Some? && y.session.Some? {
        CompareByKeys(places, x.session.value, PlaceOf(x), y.session.value, PlaceOf(y));
      }
    }
  }

  lemma ThreeOrdered(ids: set<UniqueId>, x: UniqueId, y: UniqueId, z: UniqueId)
    requires Comparable(ids) && x in ids && y in ids && z in ids
    ensures x.session.Some? ==> Compare(x, x) == Equal
    ensures x.session.Some? && y.session.Some? ==> Compare(y, x) == Compare(x, y).Flip()
    ensures x.session.Some? && y.session.Some? && z.session.Some? ==>
              (Compare(x, y) != Greater && Compare(y, z) != Greater ==> Compare(x, z) != Greater)
  {
    if x.session.Some? {
      var t := if y.session.Some? then y else x;
      var u := if z.session.Some? then z else x;
      assert PlaceOf(x) in PlacesOf(ids) && PlaceOf(t) in PlacesOf(ids) && PlaceOf(u) in PlacesOf(ids);
      SeparatedIsOrdered(PlacesOf(ids), x.session.value, PlaceOf(x), t.session.value, PlaceOf(t), u.session.value, PlaceOf(u));
    }
  }

  lemma {:induction false} RunKeepsRegistered(ops: seq<Op>, ids: set<UniqueId>)
    requires Comparable(ids) && forall op | op in ops :: op.id in ids
    ensures Ordered(Run(ops)) && Elements(Run(ops)) == Registered(ops) <= ids
  {
    if ops != [] {
      var init, op := ops[..|ops| - 1], ops[|ops| - 1];
      RunKeepsRegistered(init, ids);
      ComparableIsOrdered(ids);
      assert op.id in ids;
      EveryIdIsPlaced(Run(init), ids, op.id);
      match op
      case Add(id) => InsertKeepsOrder(Run(init), id);
      case Delete(id) => EraseKeepsOrder(Run(init), ids, id);
    }
  }

  /** After any run of additions and deletions the tree answers exactly whether an id in use clashes. */
  lemma LookupIsExact(ops: seq<Op>, ids: set<UniqueId>, x: UniqueId)
    requires Comparable(ids) && x in ids && forall op | op in ops :: op.id in ids
    ensures Contains(Run(ops), x) <==> exists k :: k in Registered(ops) && Clash(k, x)
  {
    RunKeepsRegistered(ops, ids);
    ComparableIsOrdered(ids);
    EveryIdIsPlaced(Run(ops), ids, x);
    ContainsExactly(Run(ops), x);
  }

  /** Two places that are the same, as far as lists can be written differently. */
  ghost predicate Alike(p: Place, q: Place) {
    && (p.Everywhere() <==> q.Everywhere())
    && (p.area.Some? <==> q.area.Some?)
    && (p.area.Some? ==> SameListing(p.area.value, q.area.value))
  }

  /** Places that are either apart or alike are separated. External areas may be in use beside service areas. */
  lemma AlikeOrApart(places: set<Place>)
    requires WellFormedPlaces(places)
    requires forall p | p in places && p.area.Some? :: OncePerTai(p.area.value)
    requires forall p, q | p in places && q in places && Meets(p, q) :: Alike(p, q)
    ensures Separated(places)
  {
    forall p, q, r | p in places && q in places && r in places ensures Grouped(p, q, r) {
      if Meets(p, q) {
        AlikeSameKey(p, q);
        if Meets(q, r) {
          AlikeSameKey(q, r);
          var s := MbsSessionId(None, None);
          CompareByKeys(places, s, p, s, r);
          PlaceKeysOrdered(KeyOfPlace(p), KeyOfPlace(q), KeyOfPlace(r));
        }
      }
    }
  }

  lemma AlikeSameKey(p: Place, q: Place)
    requires WellFormedPlace(p) && WellFormedPlace(q) && Alike(p, q)
    requires p.area.Some? ==> OncePerTai(p.area.value) && OncePerTai(q.area.value)
    ensures KeyOfPlace(p) == KeyOfPlace(q)
  {
    if p.area.Some? {
      SameListingSameKey(p.area.value, q.area.value);
    }
  }

  // ----- a TMGI is written into a registered id -----------------------------------------------------

  /** The id with a TMGI written into it, if it is the one that was allocated the TMGI. */
  function Allocated(x: UniqueId, id: UniqueId, tmgi: Tmgi): UniqueId
    requires id.session.Some?
  {
    if x == id then id.(session := Some(id.session.value.(tmgi := Some(tmgi)))) else x
  }

  /** The set after its member was written to in place. */
  function Written(t: Tree, id: UniqueId, tmgi: Tmgi): Tree
    requires id.session.Some?
  {
    match t
    case Leaf => Leaf
    case Node(l, x, r) => Node(Written(l, id, tmgi), Allocated(x, id, tmgi), Written(r, id, tmgi))
  }

  lemma ComparisonUnchanged(x: UniqueId, y: UniqueId, id: UniqueId, tmgi: Tmgi)
    requires id.session.Some? && id.tmgiRequested
    ensures Compare(Allocated(x, id, tmgi), Allocated(y, id, tmgi)) == Compare(x, y)
  {
  }

  lemma {:induction false} WrittenElements(t: Tree, id: UniqueId, tmgi: Tmgi)
    requires id.session.Some?
    ensures Elements(Written(t, id, tmgi)) == set k | k in Elements(t) :: Allocated(k, id, tmgi)
  {
    if t.Node? {
      WrittenElements(t.left, id, tmgi);
      WrittenElements(t.right, id, tmgi);
    }
  }

  /** The write replaces the TMGI of the id, and nothing else. */
  lemma WrittenMembers(t: Tree, ssm: Option<Ssm>, before: Option<Tmgi>, requested: bool, p: Place, tmgi: Tmgi)
    ensures var id := UniqueId(requested, Some(MbsSessionId(ssm, before)), p.area, p.external);
            var written := UniqueId(requested, Some(MbsSessionId(ssm, Some(tmgi))), p.area, p.external);
            Elements(Written(t, id, tmgi)) == if id in Elements(t) then Elements(t) - {id} + {written} else Elements(t)
  {
    var id := UniqueId(requested, Some(MbsSessionId(ssm, before)), p.area, p.external);
    WrittenElements(t, id, tmgi);
    assert forall k | k in Elements(t) && k != id :: Allocated(k, id, tmgi) == k;
  }

  /** The set is not disturbed when the id was made for a session that has an SSM: it stays a search tree, and
      finds what it found before. */
  lemma {:induction false} WritingKeepsOrder(t: Tree, id: UniqueId, tmgi: Tmgi)
    requires id.session.Some? && id.tmgiRequested && Ordered(t)
    ensures Ordered(Written(t, id, tmgi))
  {
    if t.Node? {
      WritingKeepsOrder(t.left, id, tmgi);
      WritingKeepsOrder(t.right, id, tmgi);
      var y := Allocated(t.id, id, tmgi);
      forall k | k in Elements(Written(t.left, id, tmgi)) ensures Compare(k, y) == Less {
        WrittenElements(t.left, id, tmgi);
        var x :| x in Elements(t.left) && k == Allocated(x, id, tmgi);
        ComparisonUnchanged(x, t.id, id, tmgi);
      }
      forall k | k in Elements(Written(t.right, id, tmgi)) ensures Compare(y, k) == Less {
        WrittenElements(t.right, id, tmgi);
        var x :| x in Elements(t.right) && k == Allocated(x, id, tmgi);
        ComparisonUnchanged(t.id, x, id, tmgi);
      }
    }
  }

  lemma {:induction false} WritingKeepsLookups(t: Tree, id: UniqueId, tmgi: Tmgi, x: UniqueId)
    requires id.session.Some? && id.tmgiRequested
    ensures Contains(Written(t, id, tmgi), Allocated(x, id, tmgi)) <==> Contains(t, x)
  {
    match t
    case Leaf =>
    case Node(l, y, r) =>
      WritingKeepsLookups(l, id, tmgi, x);
      WritingKeepsLookups(r, id, tmgi, x);
      ComparisonUnchanged(x, y, id, tmgi);
  }
}
