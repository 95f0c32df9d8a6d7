/** The URLs on which the MBSTF notifies a distribution session: how `Context` makes them, and the map from
    them to the session. */
module NotificationUrls {
  import opened Schedule

  // ----- escaping -----------------------------------------------------------------------------------

  const RESERVED := "%!#$&'()*+,/:;=?@[]"
  const HEX := "0123456789abcdef"

  predicate SevenBit(s: string) {
    forall i | 0 <= i < |s| :: s[i] as int < 128
  }

  predicate MustEscape(c: char) {
    c as int < 33 || c as int > 126 || c in RESERVED
  }

  function EscapedChar(c: char): string
    requires c as int < 128
  {
    if MustEscape(c) then ['%', HEX[c as int / 16], HEX[c as int % 16]] else [c]
  }

  function Escaped(s: string): string
    requires SevenBit(s)
  {
    if s == "" then "" else EscapedChar(s[0]) + Escaped(s[1..])
  }

  lemma EscapedFront(s: string, k: nat)
    requires SevenBit(s) && k < |s|
    ensures Escaped(s[k..]) == EscapedChar(s[k]) + Escaped(s[k + 1..])
  {
    assert s[k..][0] == s[k] && s[k..][1..] == s[k + 1..];
  }

  method UrlEscape(unescaped: string) returns (result: string)
    requires SevenBit(unescaped)
    ensures result == Escaped(unescaped)
  {
    result := "";
    for k := 0 to |unescaped|
      invariant result + Escaped(unescaped[k..]) == Escaped(unescaped)
    {
      var c := unescaped[k];
      EscapedFront(unescaped, k);
      assert result + (EscapedChar(c) + Escaped(unescaped[k + 1..])) == (result + EscapedChar(c)) + Escaped(unescaped[k + 1..]);
      if c as int < 33 || c as int > 126 || c in RESERVED {
        result := result + ['%', HEX[c as int / 16], HEX[c as int % 16]];
      } else {
        result := result + [c];
      }
    }
  }

  /** The value of a hexadecimal digit of either case. */
  function HexValue(c: char): Option<int> {
    if '0' <= c <= '9' then Some(c as int - '0' as int)
    else if 'a' <= c <= 'f' then Some(c as int - 'a' as int + 10)
    else if 'A' <= c <= 'F' then Some(c as int - 'A' as int + 10)
    else None
  }

  /** Percent-decoding, section 2.1 of RFC 3986. */
  function Decoded(s: string): string {
    if s == "" then ""
    else if s[0] == '%' && |s| >= 3 && HexValue(s[1]).Some? && HexValue(s[2]).Some? then
      [(16 * HexValue(s[1]).value + HexValue(s[2]).value) as char] + Decoded(s[3..])
    else [s[0]] + Decoded(s[1..])
  }

  lemma DecodedChar(c: char, rest: string)
    requires c as int < 128
    ensures Decoded(EscapedChar(c) + rest) == [c] + Decoded(rest)
  {
    var s := EscapedChar(c) + rest;
    if MustEscape(c) {
      HexDigit(c as int / 16);
      HexDigit(c as int % 16);
      assert s[0] == '%' && s[1] == HEX[c as int / 16] && s[2] == HEX[c as int % 16] && s[3..] == rest;
    } else {
      assert '%' in RESERVED by { assert RESERVED[0] == '%'; }
      assert s[0] == c && s[1..] == rest;
    }
  }

  lemma HexDigit(d: int)
    requires 0 <= d < 16
    ensures HexValue(HEX[d]) == Some(d) && LowerHex(HEX[d])
  {
  }

  lemma {:induction false} RoundTrip(s: string)
    requires SevenBit(s)
    ensures Decoded(Escaped(s)) == s
  {
    if s != "" {
      var c, rest := s[0], s[1..];
      RoundTrip(rest);
      DecodedChar(c, Escaped(rest));
      assert Escaped(s) == EscapedChar(c) + Escaped(rest) && s == [c] + rest;
    }
  }

  lemma {:induction false} NoSlash(s: string)
    requires SevenBit(s)
    ensures '/' !in Escaped(s)
  {
    if s != "" {
      NoSlash(s[1..]);
      var c := s[0];
      assert '/' in RESERVED by { assert RESERVED[11] == '/'; }
      if MustEscape(c) {
        HexDigit(c as int / 16);
        HexDigit(c as int % 16);
      }
    }
  }

  /** The reserved characters of section 2.2 of RFC 3986. */
  predicate Delim(c: char) {
    || c == ':' || c == '/' || c == '?' || c == '#' || c == '[' || c == ']' || c == '@'
    || c == '!' || c == '$' || c == '&' || c == '\'' || c == '(' || c == ')'
    || c == '*' || c == '+' || c == ',' || c == ';' || c == '='
  }

  /** Printable, and of no meaning in a URL. */
  predicate Plain(c: char) {
    33 <= c as int <= 126 && c != '%' && !Delim(c)
  }

  predicate LowerHex(c: char) {
    '0' <= c <= '9' || 'a' <= c <= 'f'
  }

  /** A plain character, or a percent sign with two lower-case hexadecimal digits after it. */
  predicate SafeAt(s: string, i: int)
    requires 0 <= i < |s|
  {
    Plain(s[i]) || (s[i] == '%' && i + 2 < |s| && LowerHex(s[i + 1]) && LowerHex(s[i + 2]))
  }

  ghost predicate Safe(s: string) {
    forall i | 0 <= i < |s| :: SafeAt(s, i)
  }

  lemma ReservedExactly(c: char)
    ensures c in RESERVED <==> c == '%' || Delim(c)
  {
    assert RESERVED[..7] == "%!#$&'(" && RESERVED[7..14] == ")*+,/:;" && RESERVED[14..] == "=?@[]";
    assert RESERVED == RESERVED[..7] + RESERVED[7..14] + RESERVED[14..];
  }

  lemma MustEscapeExactly(c: char)
    requires c as int < 128
    ensures MustEscape(c) <==> !Plain(c)
  {
    ReservedExactly(c);
  }

  lemma EscapedCharIsSafe(c: char)
    requires c as int < 128
    ensures Safe(EscapedChar(c)) && (EscapedChar(c) == [c] <==> Plain(c))
  {
    MustEscapeExactly(c);
    if MustEscape(c) {
      HexDigit(c as int / 16);
      HexDigit(c as int % 16);
      TripletIsSafe(HEX[c as int / 16], HEX[c as int % 16]);
    }
  }

  lemma TripletIsSafe(high: char, low: char)
    requires LowerHex(high) && LowerHex(low)
    ensures Safe(['%', high, low])
  {
    var s := ['%', high, low];
    assert SafeAt(s, 0);
    assert Plain(high) && Plain(low);
    assert SafeAt(s, 1) && SafeAt(s, 2);
  }

  lemma SafeJoins(s: string, t: string)
    requires Safe(s) && Safe(t)
    ensures Safe(s + t)
  {
    forall i | 0 <= i < |s + t| ensures SafeAt(s + t, i) {
      assert if i < |s| then SafeAt(s, i) else SafeAt(t, i - |s|);
    }
  }

  /** What comes out of the escape is safe in any place of a URL, whatever went in; and it is what went in
      just if all of that was plain. */
  lemma {:induction false} EscapedIsSafe(s: string)
    requires SevenBit(s)
    ensures Safe(Escaped(s))
    ensures Escaped(s) == s <==> forall i | 0 <= i < |s| :: Plain(s[i])
  {
    if s != "" {
      EscapedCharIsSafe(s[0]);
      EscapedIsSafe(s[1..]);
      SafeJoins(EscapedChar(s[0]), Escaped(s[1..]));
      SameJoin(s);
    }
  }

  lemma SameJoin(s: string)
    requires SevenBit(s) && s != ""
    requires Escaped(s[1..]) == s[1..] <==> forall i | 0 <= i < |s[1..]| :: Plain(s[1..][i])
    ensures Escaped(s) == s <==> forall i | 0 <= i < |s| :: Plain(s[i])
  {
    var head, tail := EscapedChar(s[0]), Escaped(s[1..]);
    EscapedLength(s[1..]);
    MustEscapeExactly(s[0]);
    assert (forall i | 0 <= i < |s| :: Plain(s[i])) <==> Plain(s[0]) && forall i | 0 <= i < |s[1..]| :: Plain(s[1..][i]);
    if Plain(s[0]) {
      assert (head + tail)[1..] == tail;
      assert s == [s[0]] + s[1..];
    } else {
      assert |head + tail| > |s|;
    }
  }

  lemma {:induction false} EscapedLength(s: string)
    requires SevenBit(s)
    ensures |Escaped(s)| >= |s|
  {
    if s != "" {
      EscapedLength(s[1..]);
    }
  }

  // ----- URLs ---------------------------------------------------------------------------------------

  datatype SessionKey = SessionKey(session: string, key: string)

  predicate WellFormed(authority: string, id: SessionKey) {
    '/' !in authority && SevenBit(id.session) && SevenBit(id.key)
  }

  /** The URL that the server at the given host and port makes for a session. */
  function Url(authority: string, id: SessionKey): string
    requires WellFormed(authority, id)
  {
    "http://" + (authority + ("/" + ("notify/v1/" + (Escaped(id.session) + ("/" + Escaped(id.key))))))
  }

  lemma SplitAtSlash(a: string, b: string, c: string, d: string)
    requires '/' !in a && '/' !in c && a + ("/" + b) == c + ("/" + d)
    ensures a == c && b == d
  {
    var s := a + ("/" + b);
    assert s[|a|] == '/' && s[|c|] == '/';
    assert forall j | 0 <= j < |a| :: s[j] == a[j];
    assert forall j | 0 <= j < |c| :: s[j] == c[j];
    assert a == s[..|a|] && c == s[..|c|] && b == s[|a| + 1..] && d == s[|c| + 1..];
  }

  lemma SamePrefix(p: string, a: string, b: string)
    requires p + a == p + b
    ensures a == b
  {
    assert a == (p + a)[|p|..] && b == (p + b)[|p|..];
  }

  /** A URL belongs to one session on one server. */
  lemma UrlsAreDistinct(a: string, x: SessionKey, b: string, y: SessionKey)
    requires WellFormed(a, x) && WellFormed(b, y)
    ensures Url(a, x) == Url(b, y) <==> a == b && x == y
  {
    if Url(a, x) == Url(b, y) {
      var xs, ys := Escaped(x.session) + ("/" + Escaped(x.key)), Escaped(y.session) + ("/" + Escaped(y.key));
      SamePrefix("http://", a + ("/" + ("notify/v1/" + xs)), b + ("/" + ("notify/v1/" + ys)));
      SplitAtSlash(a, "notify/v1/" + xs, b, "notify/v1/" + ys);
      SamePrefix("notify/v1/", xs, ys);
      NoSlash(x.session);
      NoSlash(y.session);
      SplitAtSlash(Escaped(x.session), Escaped(x.key), Escaped(y.session), Escaped(y.key));
      RoundTrip(x.session);
      RoundTrip(y.session);
      RoundTrip(x.key);
      RoundTrip(y.key);
    }
  }

  /** The texts between the slashes. */
  function Components(s: string): (r: seq<string>)
    ensures r != []
  {
    if s == "" then [""]
    else
      var rest := Components(s[1..]);
      if s[0] == '/' then [""] + rest else [[s[0]] + rest[0]] + rest[1..]
  }

  lemma {:induction false} LastComponent(text: string)
    requires '/' !in text
    ensures Components(text) == [text]
  {
    if text != "" {
      LastComponent(text[1..]);
      assert [text[0]] + text[1..] == text;
    }
  }

  lemma {:induction false} FirstComponent(text: string, rest: string)
    requires '/' !in text
    ensures Components(text + ("/" + rest)) == [text] + Components(rest)
  {
    var s := text + ("/" + rest);
    if text == "" {
      assert s[0] == '/' && s[1..] == rest;
    } else {
      assert s[0] == text[0] && s[1..] == text[1..] + ("/" + rest);
      FirstComponent(text[1..], rest);
      assert [s[0]] + text[1..] == text && ([text[1..]] + Components(rest))[1..] == Components(rest);
    }
  }

  lemma PathIsRead(session: string, key: string)
    requires '/' !in session && '/' !in key
    ensures Components("notify/v1/" + (session + ("/" + key))) == ["notify", "v1", session, key]
  {
    var ids := session + ("/" + key);
    LastComponent(key);
    FirstComponent(session, key);
    FirstComponent("v1", ids);
    FirstComponent("notify", "v1" + ("/" + ids));
    assert "notify/v1/" + ids == "notify" + ("/" + ("v1" + ("/" + ids)));
  }

  lemma ServerIsRead(authority: string, path: string)
    requires '/' !in authority
    ensures Components("http://" + (authority + ("/" + path))) == ["http:", "", authority] + Components(path)
  {
    var server := authority + ("/" + path);
    SchemeIsRead(server);
    FirstComponent(authority, path);
  }

  lemma SchemeIsRead(server: string)
    ensures Components("http://" + server) == ["http:", ""] + Components(server)
  {
    var s := "http:" + ("/" + ("/" + server));
    assert "http://" + server == s;
    FirstComponent("http:", "/" + server);
    assert "" + ("/" + server) == "/" + server;
    FirstComponent("", server);
  }

  /** A server that splits the URL at its slashes and decodes the components finds the session and its key below
      the resource of the notifications, whatever characters the two are made of. */
  lemma UrlIsRead(authority: string, id: SessionKey)
    requires WellFormed(authority, id)
    ensures var parts := Components(Url(authority, id));
            && |parts| == 7
            && parts[..5] == ["http:", "", authority, "notify", "v1"]
            && Decoded(parts[5]) == id.session && Decoded(parts[6]) == id.key
  {
    NoSlash(id.session);
    NoSlash(id.key);
    RoundTrip(id.session);
    RoundTrip(id.key);
    PathIsRead(Escaped(id.session), Escaped(id.key));
    ServerIsRead(authority, "notify/v1/" + (Escaped(id.session) + ("/" + Escaped(id.key))));
  }

  // ----- the map ------------------------------------------------------------------------------------

  datatype Op = Assign(authority: string, id: SessionKey) | Free(url: string)

  predicate Fits(op: Op) {
    op.Assign? ==> WellFormed(op.authority, op.id)
  }

  /** Insertion leaves an entry that is there already; freeing an unknown URL does nothing. */
  function Applied(m: map<string, SessionKey>, op: Op): map<string, SessionKey>
    requires Fits(op)
  {
    match op
    case Assign(authority, id) =>
      var url := Url(authority, id);
      if url in m then m else m[url := id]
    case Free(url) => m - {url}
  }

  class Context {
    var notifServerMap: map<string, SessionKey>

    constructor ()
      ensures notifServerMap == map[]
    {
      notifServerMap := map[];
    }

    method AssignNotificationServer(authority: string, id: SessionKey) returns (url: string)
      requires WellFormed(authority, id)
      modifies this
      ensures url == Url(authority, id)
      ensures notifServerMap == Applied(old(notifServerMap), Assign(authority, id))
    {
      var session := UrlEscape(id.session);
      var key := UrlEscape(id.key);
      url := "http://" + (authority + ("/" + ("notify/v1/" + (session + ("/" + key)))));
      if url !in notifServerMap {
        notifServerMap := notifServerMap[url := id];
      }
    }

    method FreeNotificationServer(url: string)
      modifies this
      ensures notifServerMap == Applied(old(notifServerMap), Free(url))
    {
      if url in notifServerMap {
        notifServerMap := notifServerMap - {url};
      } else {
        assert notifServerMap - {url} == notifServerMap;
      }
    }

    method FindDistSessIdFromUrl(url: string) returns (id: Option<SessionKey>)
      ensures id == if url in notifServerMap then Some(notifServerMap[url]) else None
    {
      if url in notifServerMap {
        id := Some(notifServerMap[url]);
      } else {
        id := None;
      }
    }
  }

  ghost predicate AllFit(ops: seq<Op>) {
    forall i | 0 <= i < |ops| :: Fits(ops[i])
  }

  function Run(ops: seq<Op>): map<string, SessionKey>
    requires AllFit(ops)
  {
    if ops == [] then map[] else
      assert Fits(ops[|ops| - 1]);
      Applied(Run(ops[..|ops| - 1]), ops[|ops| - 1])
  }

  /** The session was given a URL on the server, and that URL has not been freed since. */
  predicate InUse(ops: seq<Op>, authority: string, id: SessionKey)
    requires AllFit(ops) && WellFormed(authority, id)
  {
    ops != [] &&
    var last := ops[|ops| - 1];
    if last == Assign(authority, id) then true
    else if last == Free(Url(authority, id)) then false
    else InUse(ops[..|ops| - 1], authority, id)
  }

  /** After any run, looking up the URL of a session finds that session if the URL is in use, and nothing
      otherwise. */
  lemma {:induction false} LookupFindsInUse(ops: seq<Op>, authority: string, id: SessionKey)
    requires AllFit(ops) && WellFormed(authority, id)
    ensures Url(authority, id) in Run(ops) <==> InUse(ops, authority, id)
    ensures Url(authority, id) in Run(ops) ==> Run(ops)[Url(authority, id)] == id
  {
    if ops != [] {
      LookupFindsInUse(ops[..|ops| - 1], authority, id);
      var last := ops[|ops| - 1];
      assert Fits(last);
      if last.Assign? {
        UrlsAreDistinct(authority, id, last.authority, last.id);
      }
    }
  }

  /** And nothing else is ever found. */
  lemma {:induction false} LookupFindsOnlySessions(ops: seq<Op>, url: string)
    requires AllFit(ops) && url in Run(ops)
    ensures exists a, id :: WellFormed(a, id) && url == Url(a, id) && InUse(ops, a, id) && Run(ops)[url] == id
  {
    var init, last := ops[..|ops| - 1], ops[|ops| - 1];
    assert Fits(last);
    if last.Assign? && url == Url(last.authority, last.id) {
      LookupFindsInUse(ops, last.authority, last.id);
    } else {
      LookupFindsOnlySessions(init, url);
      var a, id :| WellFormed(a, id) && url == Url(a, id) && InUse(init, a, id) && Run(init)[url] == id;
      LookupFindsInUse(ops, a, id);
    }
  }
}
