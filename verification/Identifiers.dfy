/** The identifiers that MBS sessions and service areas are made of, and their comparators. */
module Identifiers {
  import opened Schedule

  datatype Ordering = Less | Equal | Greater {
    function Flip(): Ordering {
      if Less? then Greater else if Greater? then Less else Equal
    }
  }

  datatype PlmnId = PlmnId(mcc: string, mnc: string)
  datatype Tai = Tai(plmnId: PlmnId, tac: string, nid: Option<string>)
  datatype Ncgi = Ncgi(plmnId: PlmnId, nrCellId: string, nid: Option<string>)
  datatype Tmgi = Tmgi(mbsServiceId: string, plmnId: PlmnId)
  datatype IpAddr = IpAddr(ipv4: Option<string>, ipv6: Option<string>, ipv6Prefix: Option<string>)
  datatype Ssm = Ssm(source: IpAddr, dest: IpAddr)

  /** What the comparison of MBS sessions looks at. */
  datatype MbsSessionId = MbsSessionId(ssm: Option<Ssm>, tmgi: Option<Tmgi>)

  // ----- comparators ------------------------------------------------------------------------------

  /** `std::string`'s order, character by character. */
  predicate StringLess(a: string, b: string) {
    if b == [] then false
    else if a == [] then true
    else if a[0] != b[0] then a[0] < b[0]
    else StringLess(a[1..], b[1..])
  }

  function CompareStrings(a: string, b: string): Ordering {
    if a == b then Equal else if StringLess(a, b) then Less else Greater
  }

  /** `std::optional`'s order: no value comes before any value. */
  predicate OptionLess(a: Option<string>, b: Option<string>) {
    if b.None? then false else a.None? || StringLess(a.value, b.value)
  }

  function CompareOptions(a: Option<string>, b: Option<string>): Ordering {
    if a.None? && b.Some? then Less
    else if a.Some? && b.None? then Greater
    else if a.Some? then CompareStrings(a.value, b.value)
    else Equal
  }

  predicate PlmnIdLess(a: PlmnId, b: PlmnId) {
    if a.mcc != b.mcc then StringLess(a.mcc, b.mcc) else StringLess(a.mnc, b.mnc)
  }

  predicate TaiLess(a: Tai, b: Tai) {
    if a.plmnId != b.plmnId then PlmnIdLess(a.plmnId, b.plmnId)
    else if a.tac != b.tac then StringLess(a.tac, b.tac)
    else OptionLess(a.nid, b.nid)
  }

  predicate NcgiLess(a: Ncgi, b: Ncgi) {
    if a.plmnId != b.plmnId then PlmnIdLess(a.plmnId, b.plmnId)
    else if a.nrCellId != b.nrCellId then StringLess(a.nrCellId, b.nrCellId)
    else OptionLess(a.nid, b.nid)
  }

  function IpAddrOrdering(a: IpAddr, b: IpAddr): Ordering {
    var v4 := CompareOptions(a.ipv4, b.ipv4);
    var v6 := CompareOptions(a.ipv6, b.ipv6);
    if v4 != Equal then v4 else if v6 != Equal then v6 else CompareOptions(a.ipv6Prefix, b.ipv6Prefix)
  }

  function SsmOrdering(a: Option<Ssm>, b: Option<Ssm>): Ordering {
    if a.None? && b.None? then Equal
    else if a.None? then Less
    else if b.None? then Greater
    else
      var result := IpAddrOrdering(a.value.dest, b.value.dest);
      if result == Equal then IpAddrOrdering(a.value.source, b.value.source) else result
  }

  function TmgiOrdering(a: Tmgi, b: Tmgi): Ordering {
    var result := CompareStrings(a.mbsServiceId, b.mbsServiceId);
    if result != Equal then result
    else if a.plmnId != b.plmnId then if PlmnIdLess(a.plmnId, b.plmnId) then Less else Greater
    else Equal
  }

  /** `mbs_session_ordering`: the flags say whether a TMGI was to be requested for the session. */
  function SessionOrdering(aRequests: bool, a: MbsSessionId, bRequests: bool, b: MbsSessionId): Ordering {
    if !aRequests && !bRequests && a.tmgi.Some? && b.tmgi.None? then Greater
    else if !aRequests && !bRequests && a.tmgi.None? && b.tmgi.Some? then Less
    else if !aRequests && !bRequests && a.tmgi.Some? && a.tmgi.value != b.tmgi.value
    then TmgiOrdering(a.tmgi.value, b.tmgi.value)
    else SsmOrdering(a.ssm, b.ssm)
  }

  // ----- they are total orders --------------------------------------------------------------------

  /** A strict total order, as seen from three values. */
  ghost predicate StrictTotal<T(!new)>(less: (T, T) -> bool, a: T, b: T, c: T) {
    && (less(a, b) ==> !less(b, a))
    && (a != b ==> less(a, b) || less(b, a))
    && (less(a, b) && less(b, c) ==> less(a, c))
  }

  /** The same of a three-way comparison. */
  ghost predicate TotalOrder<T(!new)>(compare: (T, T) -> Ordering, a: T, b: T, c: T) {
    && (compare(a, b) == Equal <==> a == b)
    && compare(b, a) == compare(a, b).Flip()
    && (compare(a, b) == Less && compare(b, c) == Less ==> compare(a, c) == Less)
  }

  lemma {:induction false} StringsOrdered(a: string, b: string, c: string)
    ensures StrictTotal(StringLess, a, b, c)
    ensures TotalOrder(CompareStrings, a, b, c)
  {
    if a != [] && b != [] {
      assert a == [a[0]] + a[1..] && b == [b[0]] + b[1..];
      StringsOrdered(a[1..], b[1..], if c == [] then c else c[1..]);
    }
  }

  lemma OptionsOrdered(a: Option<string>, b: Option<string>, c: Option<string>)
    ensures StrictTotal(OptionLess, a, b, c)
    ensures TotalOrder(CompareOptions, a, b, c)
  {
    StringsOrdered(ValueOf(a), ValueOf(b), ValueOf(c));
  }

  function ValueOf(a: Option<string>): string {
    if a.Some? then a.value else ""
  }

  lemma PlmnIdsOrdered(a: PlmnId, b: PlmnId, c: PlmnId)
    ensures StrictTotal(PlmnIdLess, a, b, c)
  {
    StringsOrdered(a.mcc, b.mcc, c.mcc);
    StringsOrdered(a.mnc, b.mnc, c.mnc);
  }

  lemma TaisOrdered(a: Tai, b: Tai, c: Tai)
    ensures StrictTotal(TaiLess, a, b, c)
  {
    PlmnIdsOrdered(a.plmnId, b.plmnId, c.plmnId);
    StringsOrdered(a.tac, b.tac, c.tac);
    OptionsOrdered(a.nid, b.nid, c.nid);
  }

  lemma NcgisOrdered(a: Ncgi, b: Ncgi, c: Ncgi)
    ensures StrictTotal(NcgiLess, a, b, c)
  {
    PlmnIdsOrdered(a.plmnId, b.plmnId, c.plmnId);
    StringsOrdered(a.nrCellId, b.nrCellId, c.nrCellId);
    OptionsOrdered(a.nid, b.nid, c.nid);
  }

  lemma IpAddrsOrdered(a: IpAddr, b: IpAddr, c: IpAddr)
    ensures TotalOrder(IpAddrOrdering, a, b, c)
  {
    OptionsOrdered(a.ipv4, b.ipv4, c.ipv4);
    OptionsOrdered(a.ipv6, b.ipv6, c.ipv6);
    OptionsOrdered(a.ipv6Prefix, b.ipv6Prefix, c.ipv6Prefix);
  }

  lemma SsmsOrdered(a: Option<Ssm>, b: Option<Ssm>, c: Option<Ssm>)
    ensures TotalOrder(SsmOrdering, a, b, c)
  {
    var none := IpAddr(None, None, None);
    var x, y, z := a.GetOr(Ssm(none, none)), b.GetOr(Ssm(none, none)), c.GetOr(Ssm(none, none));
    IpAddrsOrdered(x.dest, y.dest, z.dest);
    IpAddrsOrdered(x.source, y.source, z.source);
  }

  lemma TmgisOrdered(a: Tmgi, b: Tmgi, c: Tmgi)
    ensures TotalOrder(TmgiOrdering, a, b, c)
  {
    StringsOrdered(a.mbsServiceId, b.mbsServiceId, c.mbsServiceId);
    PlmnIdsOrdered(a.plmnId, b.plmnId, c.plmnId);
  }

  // ----- which field decides ------------------------------------------------------------------------

  /** The strings are the same up to some place, and there the first one ends or has the smaller character. */
  ghost predicate Precedes(a: string, b: string) {
    exists k | 0 <= k <= |a| && k < |b| :: PartAt(a, b, k)
  }

  ghost predicate PartAt(a: string, b: string, k: int)
    requires 0 <= k <= |a| && k < |b|
  {
    a[..k] == b[..k] && (k == |a| || a[k] < b[k])
  }

  /** A value comes after no value. */
  ghost predicate FieldPrecedes(a: Option<string>, b: Option<string>) {
    b.Some? && (a.None? || Precedes(a.value, b.value))
  }

  /** The first field in which they differ decides. */
  ghost predicate FieldsPrecede(a: seq<Option<string>>, b: seq<Option<string>>) {
    exists k | 0 <= k < |a| && k < |b| :: FieldDecides(a, b, k)
  }

  ghost predicate FieldDecides(a: seq<Option<string>>, b: seq<Option<string>>, k: int)
    requires 0 <= k < |a| && k < |b|
  {
    a[..k] == b[..k] && FieldPrecedes(a[k], b[k])
  }

  lemma FrontMatches<T>(x: T, a: seq<T>, y: T, b: seq<T>, k: nat)
    requires k <= |a| && k <= |b|
    ensures ([x] + a)[..k + 1] == ([y] + b)[..k + 1] <==> x == y && a[..k] == b[..k]
  {
    assert ([x] + a)[..k + 1] == [x] + a[..k] && ([y] + b)[..k + 1] == [y] + b[..k];
    assert ([x] + a[..k])[1..] == a[..k] && ([y] + b[..k])[1..] == b[..k];
  }

  lemma {:induction false} StringLessMeans(a: string, b: string)
    ensures StringLess(a, b) <==> Precedes(a, b)
  {
    if a != [] && b != [] {
      StringLessMeans(a[1..], b[1..]);
      FirstCharDecides(a[0], a[1..], b[0], b[1..]);
      assert a == [a[0]] + a[1..] && b == [b[0]] + b[1..];
    } else if b != [] {
      assert PartAt(a, b, 0);
    }
  }

  lemma FirstCharDecides(x: char, a: string, y: char, b: string)
    ensures Precedes([x] + a, [y] + b) <==> x < y || (x == y && Precedes(a, b))
  {
    var s, t := [x] + a, [y] + b;
    assert PartAt(s, t, 0) <==> x < y;
    forall k | 0 <= k <= |a| && k < |b| ensures PartAt(s, t, k + 1) <==> x == y && PartAt(a, b, k) {
      FrontMatches(x, a, y, b, k);
    }
    if k :| 0 <= k <= |s| && k < |t| && PartAt(s, t, k) {
      assert k > 0 ==> PartAt(a, b, k - 1);
    }
  }

  lemma FieldLessMeans(a: Option<string>, b: Option<string>)
    ensures OptionLess(a, b) <==> FieldPrecedes(a, b)
    ensures CompareOptions(a, b) == Less <==> FieldPrecedes(a, b)
    ensures CompareOptions(a, b) == Equal <==> a == b
  {
    StringLessMeans(ValueOf(a), ValueOf(b));
    StringsOrdered(ValueOf(a), ValueOf(b), ValueOf(a));
  }

  lemma FirstFieldDecides(x: Option<string>, a: seq<Option<string>>, y: Option<string>, b: seq<Option<string>>)
    ensures FieldsPrecede([x] + a, [y] + b) <==> FieldPrecedes(x, y) || (x == y && FieldsPrecede(a, b))
  {
    var s, t := [x] + a, [y] + b;
    assert FieldDecides(s, t, 0) <==> FieldPrecedes(x, y);
    forall k | 0 <= k < |a| && k < |b| ensures FieldDecides(s, t, k + 1) <==> x == y && FieldDecides(a, b, k) {
      FrontMatches(x, a, y, b, k);
    }
    if k :| 0 <= k < |s| && k < |t| && FieldDecides(s, t, k) {
      assert k > 0 ==> FieldDecides(a, b, k - 1);
    }
  }

  function PlmnFields(p: PlmnId): seq<Option<string>> {
    [Some(p.mcc), Some(p.mnc)]
  }

  function AddrFields(a: IpAddr): seq<Option<string>> {
    [a.ipv4, a.ipv6, a.ipv6Prefix]
  }

  lemma PlmnIdLessMeans(a: PlmnId, b: PlmnId, rest: seq<Option<string>>, others: seq<Option<string>>)
    ensures FieldsPrecede(PlmnFields(a) + rest, PlmnFields(b) + others) <==>
            PlmnIdLess(a, b) || (a == b && FieldsPrecede(rest, others))
  {
    FieldLessMeans(Some(a.mcc), Some(b.mcc));
    FieldLessMeans(Some(a.mnc), Some(b.mnc));
    FirstFieldDecides(Some(a.mcc), [Some(a.mnc)] + rest, Some(b.mcc), [Some(b.mnc)] + others);
    FirstFieldDecides(Some(a.mnc), rest, Some(b.mnc), others);
    assert PlmnFields(a) + rest == [Some(a.mcc)] + ([Some(a.mnc)] + rest);
    assert PlmnFields(b) + others == [Some(b.mcc)] + ([Some(b.mnc)] + others);
  }

  lemma IdThenNidMeans(id: string, nid: Option<string>, other: string, otherNid: Option<string>)
    ensures FieldsPrecede([Some(id), nid], [Some(other), otherNid]) <==>
            if id != other then StringLess(id, other) else OptionLess(nid, otherNid)
  {
    FieldLessMeans(Some(id), Some(other));
    FieldLessMeans(nid, otherNid);
    StringsOrdered(id, other, id);
    FirstFieldDecides(Some(id), [nid], Some(other), [otherNid]);
    FirstFieldDecides(nid, [], otherNid, []);
    assert [Some(id), nid] == [Some(id)] + [nid] && [Some(other), otherNid] == [Some(other)] + [otherNid];
    assert [nid] == [nid] + [] && [otherNid] == [otherNid] + [];
  }

  /** TAIs are ordered by country, network, tracking area and network identifier, in this order. */
  lemma TaiLessMeans(a: Tai, b: Tai)
    ensures TaiLess(a, b) <==> FieldsPrecede(
              [Some(a.plmnId.mcc), Some(a.plmnId.mnc), Some(a.tac), a.nid],
              [Some(b.plmnId.mcc), Some(b.plmnId.mnc), Some(b.tac), b.nid])
  {
    PlmnIdLessMeans(a.plmnId, b.plmnId, [Some(a.tac), a.nid], [Some(b.tac), b.nid]);
    IdThenNidMeans(a.tac, a.nid, b.tac, b.nid);
    PlmnIdsOrdered(a.plmnId, b.plmnId, a.plmnId);
    assert PlmnFields(a.plmnId) + [Some(a.tac), a.nid] ==
           [Some(a.plmnId.mcc), Some(a.plmnId.mnc), Some(a.tac), a.nid];
    assert PlmnFields(b.plmnId) + [Some(b.tac), b.nid] ==
           [Some(b.plmnId.mcc), Some(b.plmnId.mnc), Some(b.tac), b.nid];
  }

  /** Cells by country, network, cell and network identifier. */
  lemma NcgiLessMeans(a: Ncgi, b: Ncgi)
    ensures NcgiLess(a, b) <==> FieldsPrecede(
              [Some(a.plmnId.mcc), Some(a.plmnId.mnc), Some(a.nrCellId), a.nid],
              [Some(b.plmnId.mcc), Some(b.plmnId.mnc), Some(b.nrCellId), b.nid])
  {
    PlmnIdLessMeans(a.plmnId, b.plmnId, [Some(a.nrCellId), a.nid], [Some(b.nrCellId), b.nid]);
    IdThenNidMeans(a.nrCellId, a.nid, b.nrCellId, b.nid);
    PlmnIdsOrdered(a.plmnId, b.plmnId, a.plmnId);
    assert PlmnFields(a.plmnId) + [Some(a.nrCellId), a.nid] ==
           [Some(a.plmnId.mcc), Some(a.plmnId.mnc), Some(a.nrCellId), a.nid];
    assert PlmnFields(b.plmnId) + [Some(b.nrCellId), b.nid] ==
           [Some(b.plmnId.mcc), Some(b.plmnId.mnc), Some(b.nrCellId), b.nid];
  }

  lemma AddrThenMeans(a: IpAddr, b: IpAddr, rest: seq<Option<string>>, others: seq<Option<string>>)
    ensures FieldsPrecede(AddrFields(a) + rest, AddrFields(b) + others) <==>
            IpAddrOrdering(a, b) == Less || (a == b && FieldsPrecede(rest, others))
  {
    FieldLessMeans(a.ipv4, b.ipv4);
    FieldLessMeans(a.ipv6, b.ipv6);
    FieldLessMeans(a.ipv6Prefix, b.ipv6Prefix);
    FirstFieldDecides(a.ipv4, [a.ipv6, a.ipv6Prefix] + rest, b.ipv4, [b.ipv6, b.ipv6Prefix] + others);
    FirstFieldDecides(a.ipv6, [a.ipv6Prefix] + rest, b.ipv6, [b.ipv6Prefix] + others);
    FirstFieldDecides(a.ipv6Prefix, rest, b.ipv6Prefix, others);
    assert [a.ipv6, a.ipv6Prefix] + rest == [a.ipv6] + ([a.ipv6Prefix] + rest);
    assert [b.ipv6, b.ipv6Prefix] + others == [b.ipv6] + ([b.ipv6Prefix] + others);
    assert AddrFields(a) + rest == [a.ipv4] + ([a.ipv6, a.ipv6Prefix] + rest);
    assert AddrFields(b) + others == [b.ipv4] + ([b.ipv6, b.ipv6Prefix] + others);
  }

  /** Addresses by their IPv4 address, then the IPv6 address, then the prefix. */
  lemma IpAddrLessMeans(a: IpAddr, b: IpAddr)
    ensures IpAddrOrdering(a, b) == Less <==>
            FieldsPrecede([a.ipv4, a.ipv6, a.ipv6Prefix], [b.ipv4, b.ipv6, b.ipv6Prefix])
  {
    AddrThenMeans(a, b, [], []);
    assert AddrFields(a) + [] == AddrFields(a) && AddrFields(b) + [] == AddrFields(b);
  }

  lemma SsmFields(x: Ssm)
    ensures AddrFields(x.dest) + AddrFields(x.source) ==
            [x.dest.ipv4, x.dest.ipv6, x.dest.ipv6Prefix, x.source.ipv4, x.source.ipv6, x.source.ipv6Prefix]
  {
  }

  /** No SSM comes first, and SSMs are ordered by the destination before the source. */
  lemma SsmLessMeans(a: Option<Ssm>, b: Option<Ssm>)
    ensures SsmOrdering(a, b) == Less <==>
            b.Some? && (a.None? ||
              var x, y := a.value, b.value;
              FieldsPrecede(
                [x.dest.ipv4, x.dest.ipv6, x.dest.ipv6Prefix, x.source.ipv4, x.source.ipv6, x.source.ipv6Prefix],
                [y.dest.ipv4, y.dest.ipv6, y.dest.ipv6Prefix, y.source.ipv4, y.source.ipv6, y.source.ipv6Prefix]))
  {
    if a.Some? && b.Some? {
      var x, y := a.value, b.value;
      IpAddrsOrdered(x.dest, y.dest, x.dest);
      IpAddrLessMeans(x.source, y.source);
      AddrThenMeans(x.dest, y.dest, AddrFields(x.source), AddrFields(y.source));
      SsmFields(x);
      SsmFields(y);
    }
  }

  /** TMGIs by the service, then country and network. */
  lemma TmgiLessMeans(a: Tmgi, b: Tmgi)
    ensures TmgiOrdering(a, b) == Less <==> FieldsPrecede(
              [Some(a.mbsServiceId), Some(a.plmnId.mcc), Some(a.plmnId.mnc)],
              [Some(b.mbsServiceId), Some(b.plmnId.mcc), Some(b.plmnId.mnc)])
  {
    FieldLessMeans(Some(a.mbsServiceId), Some(b.mbsServiceId));
    StringsOrdered(a.mbsServiceId, b.mbsServiceId, a.mbsServiceId);
    FirstFieldDecides(Some(a.mbsServiceId), PlmnFields(a.plmnId), Some(b.mbsServiceId), PlmnFields(b.plmnId));
    PlmnIdLessMeans(a.plmnId, b.plmnId, [], []);
    PlmnIdsOrdered(a.plmnId, b.plmnId, a.plmnId);
    assert [Some(a.mbsServiceId)] + PlmnFields(a.plmnId) ==
           [Some(a.mbsServiceId), Some(a.plmnId.mcc), Some(a.plmnId.mnc)];
    assert [Some(b.mbsServiceId)] + PlmnFields(b.plmnId) ==
           [Some(b.mbsServiceId), Some(b.plmnId.mcc), Some(b.plmnId.mnc)];
    assert PlmnFields(a.plmnId) + [] == PlmnFields(a.plmnId) && PlmnFields(b.plmnId) + [] == PlmnFields(b.plmnId);
  }

  // ----- the key behind the session comparison ------------------------------------------------------

  /** What a session is known by: its SSM, or without one its TMGI, if it has been given. */
  datatype SessionKey = ByTmgi(tmgi: Option<Tmgi>) | BySsm(ssm: Ssm)

  function KeyOf(id: MbsSessionId): SessionKey {
    if id.ssm.Some? then BySsm(id.ssm.value) else ByTmgi(id.tmgi)
  }

  /** The comparison with each flag set to "the SSM is present", as every caller sets it. */
  function CompareSessions(a: MbsSessionId, b: MbsSessionId): Ordering {
    SessionOrdering(a.ssm.Some?, a, b.ssm.Some?, b)
  }

  /** It is a total preorder, and what it holds equal are the sessions with the same key. */
  lemma SessionsOrdered(a: MbsSessionId, b: MbsSessionId, c: MbsSessionId)
    ensures CompareSessions(a, b) == Equal <==> KeyOf(a) == KeyOf(b)
    ensures CompareSessions(b, a) == CompareSessions(a, b).Flip()
    ensures CompareSessions(a, b) != Greater && CompareSessions(b, c) != Greater ==> CompareSessions(a, c) != Greater
  {
    SsmsOrdered(a.ssm, b.ssm, c.ssm);
    SsmsOrdered(b.ssm, c.ssm, a.ssm);
    var none := Tmgi("", PlmnId("", ""));
    var x, y, z := a.tmgi.GetOr(none), b.tmgi.GetOr(none), c.tmgi.GetOr(none);
    TmgisOrdered(x, y, z);
    TmgisOrdered(y, z, x);
  }

  /** Sessions without an SSM come before those with one. Those with one are ordered by it, whatever their TMGIs;
      of the others those that wait for their TMGI come first, and the rest are ordered by it. */
  lemma SessionLessMeans(a: MbsSessionId, b: MbsSessionId)
    ensures CompareSessions(a, b) == Less <==>
            || (a.ssm.None? && b.ssm.Some?)
            || (a.ssm.Some? && b.ssm.Some? && SsmOrdering(a.ssm, b.ssm) == Less)
            || (a.ssm.None? && b.ssm.None? && b.tmgi.Some?
                && (a.tmgi.None? || TmgiOrdering(a.tmgi.value, b.tmgi.value) == Less))
  {
    if a.tmgi.Some? && b.tmgi.Some? { TmgisOrdered(a.tmgi.value, b.tmgi.value, a.tmgi.value); }
  }

  /** Writing a TMGI into a registered id changes none of its comparisons exactly when the id has an SSM, or
      had that TMGI before. */
  lemma TmgiMayBeWritten(id: MbsSessionId, t: Tmgi)
    ensures (forall other :: CompareSessions(id.(tmgi := Some(t)), other) == CompareSessions(id, other)) <==>
            id.ssm.Some? || id.tmgi == Some(t)
  {
    if id.ssm.None? {
      SessionsOrdered(id, id, id);
      SessionsOrdered(id.(tmgi := Some(t)), id, id);
    }
  }
}
