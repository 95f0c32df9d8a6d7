/** `MultipartMime`: a multipart body that is grown in place, one file at a time. The closing delimiter is cut
    off before a part is added, and put back after it. */
module MultipartMime {
  import opened Schedule

  const CRLF := "\r\n"

  /** A file below the document root: its headers in the order of the header map, its path, and its contents. */
  datatype File = File(headers: seq<(string, string)>, path: string, disposition: Option<string>, body: string)

  // ----- building -----------------------------------------------------------------------------------

  function Separator(boundary: string): string {
    "--" + boundary + CRLF
  }

  function FooterSeparator(boundary: string): string {
    "--" + boundary + "--" + CRLF
  }

  /** The last component of a path. */
  function FileName(path: string): string {
    if path == "" || path[|path| - 1] == '/' then "" else FileName(path[..|path| - 1]) + [path[|path| - 1]]
  }

  function HeaderLines(headers: seq<(string, string)>): seq<string> {
    if headers == [] then []
    else
      var (field, value) := headers[|headers| - 1];
      HeaderLines(headers[..|headers| - 1]) + [field + ": " + value]
  }

  function DispositionLine(disposition: string, path: string): string {
    "Content-Disposition: " + disposition + "; filename=\"" + FileName(path) + "\""
  }

  function LocationLine(path: string): string {
    "Content-Location: \"" + path + "\""
  }

  /** The header lines of a part. */
  function Lines(f: File): seq<string> {
    HeaderLines(f.headers)
    + (if f.disposition.Some? then [DispositionLine(f.disposition.value, f.path)] else [])
    + [LocationLine(f.path)]
  }

  function Joined(lines: seq<string>): string {
    if lines == [] then "" else Joined(lines[..|lines| - 1]) + lines[|lines| - 1] + CRLF
  }

  /** A part: header lines, an empty line, the contents of the file. */
  function Part(f: File): string {
    Joined(Lines(f)) + CRLF + f.body
  }

  function Parts(boundary: string, parts: seq<string>): string {
    if parts == [] then ""
    else Parts(boundary, parts[..|parts| - 1]) + Separator(boundary) + parts[|parts| - 1] + CRLF
  }

  /** The whole body. */
  function Document(boundary: string, parts: seq<string>): string {
    Parts(boundary, parts) + FooterSeparator(boundary)
  }

  class MultipartMime {
    const separator: string
    var body: string
    var bodyFooterSepPos: nat
    ghost var parts: seq<string>

    ghost predicate Valid()
      reads this
    {
      body == Document(separator, parts) && bodyFooterSepPos == |Parts(separator, parts)|
    }

    constructor (separator: string)
      ensures Valid() && this.separator == separator && parts == []
    {
      this.separator, body, bodyFooterSepPos, parts := separator, "", 0, [];
      new;
      InsertFooterSep();
    }

    method InsertSep()
      modifies `body
      ensures body == old(body) + Separator(separator)
    {
      body := body + ("--" + separator + CRLF);
    }

    method InsertFooterSep()
      modifies `body, `bodyFooterSepPos
      ensures body == old(body) + FooterSeparator(separator) && bodyFooterSepPos == |old(body)|
    {
      bodyFooterSepPos := |body|;
      body := body + ("--" + separator + "--" + CRLF);
    }

    method RemoveFooterSep()
      requires bodyFooterSepPos <= |body|
      modifies `body
      ensures body == old(body)[..bodyFooterSepPos]
    {
      body := body[..bodyFooterSepPos];
    }

    method InsertHeaders(headers: seq<(string, string)>)
      modifies `body
      ensures body == old(body) + Joined(HeaderLines(headers))
    {
      for k := 0 to |headers|
        invariant body == old(body) + Joined(HeaderLines(headers[..k]))
      {
        assert headers[..k + 1][..k] == headers[..k];
        var (field, value) := headers[k];
        JoinedAppend(HeaderLines(headers[..k]), field + ": " + value);
        body := body + (field + ": " + value + CRLF);
      }
      assert headers[..|headers|] == headers;
    }

    method InsertLine(line: string)
      modifies `body
      ensures body == old(body) + (line + CRLF)
    {
      body := body + (line + CRLF);
    }

    method InsertLines(file: File)
      modifies `body
      ensures body == old(body) + Joined(Lines(file))
    {
      InsertHeaders(file.headers);
      if file.disposition.Some? {
        InsertLine(DispositionLine(file.disposition.value, file.path));
      }
      InsertLine(LocationLine(file.path));
      LinesJoin(file, old(body));
    }

    /** Adds one part at the end. */
    method AddFile(file: File)
      requires Valid()
      modifies this
      ensures Valid() && parts == old(parts) + [Part(file)]
    {
      RemoveFooterSep();
      assert body == Parts(separator, parts);
      InsertSep();
      InsertLines(file);
      body := body + CRLF;
      body := body + file.body;
      body := body + CRLF;
      PartsAppend(separator, parts, file);
      parts := parts + [Part(file)];
      InsertFooterSep();
    }
  }

  lemma LinesJoin(f: File, front: string)
    ensures front + Joined(Lines(f)) ==
            if f.disposition.Some? then
              front + Joined(HeaderLines(f.headers))
              + (DispositionLine(f.disposition.value, f.path) + CRLF) + (LocationLine(f.path) + CRLF)
            else front + Joined(HeaderLines(f.headers)) + (LocationLine(f.path) + CRLF)
  {
    var lines, location := HeaderLines(f.headers), LocationLine(f.path);
    if f.disposition.Some? {
      var disposition := DispositionLine(f.disposition.value, f.path);
      JoinedTwice(lines, disposition, location, front);
      assert Lines(f) == lines + [disposition] + [location];
    } else {
      JoinedOnce(lines, location, front);
      assert Lines(f) == lines + [location];
    }
  }

  lemma JoinedOnce(lines: seq<string>, line: string, front: string)
    ensures front + Joined(lines + [line]) == front + Joined(lines) + (line + CRLF)
  {
    JoinedAppend(lines, line);
    assert front + (Joined(lines) + (line + CRLF)) == front + Joined(lines) + (line + CRLF);
  }

  lemma JoinedTwice(lines: seq<string>, line: string, next: string, front: string)
    ensures front + Joined(lines + [line] + [next]) == front + Joined(lines) + (line + CRLF) + (next + CRLF)
  {
    JoinedOnce(lines + [line], next, front);
    JoinedOnce(lines, line, front);
  }

  lemma PartsAppend(boundary: string, parts: seq<string>, f: File)
    ensures Parts(boundary, parts + [Part(f)]) ==
            Parts(boundary, parts) + Separator(boundary) + Joined(Lines(f)) + CRLF + f.body + CRLF
  {
    assert (parts + [Part(f)])[..|parts|] == parts;
    var front := Parts(boundary, parts) + Separator(boundary);
    assert front + (Joined(Lines(f)) + CRLF + f.body) == front + Joined(Lines(f)) + CRLF + f.body;
  }

  lemma JoinedAppend(lines: seq<string>, line: string)
    ensures Joined(lines + [line]) == Joined(lines) + (line + CRLF)
  {
    assert (lines + [line])[..|lines|] == lines;
  }

  // ----- searching ----------------------------------------------------------------------------------

  predicate At(s: string, d: string, k: int) {
    0 <= k <= k + |d| <= |s| && s[k..k + |d|] == d
  }

  ghost predicate Occurs(s: string, d: string) {
    exists k :: At(s, d, k)
  }

  /** The first occurrence. */
  function Find(s: string, d: string): Option<nat> {
    if |s| < |d| then None
    else if s[..|d|] == d then Some(0)
    else if s == "" then None
    else match Find(s[1..], d)
      case None => None
      case Some(k) => Some(k + 1)
  }

  lemma {:induction false} FindIsFirst(s: string, d: string, k: nat)
    requires At(s, d, k) && forall j | 0 <= j < k :: !At(s, d, j)
    ensures Find(s, d) == Some(k)
  {
    if k > 0 {
      assert !At(s, d, 0);
      assert s[1..][k - 1..k - 1 + |d|] == s[k..k + |d|];
      forall j | 0 <= j < k - 1 ensures !At(s[1..], d, j) {
        assert !At(s, d, j + 1);
        assert j + |d| <= |s[1..]| ==> s[1..][j..j + |d|] == s[j + 1..j + 1 + |d|];
      }
      FindIsFirst(s[1..], d, k - 1);
    }
  }

  lemma {:induction false} FirstExists(s: string, d: string, k: nat) returns (first: nat)
    requires At(s, d, k)
    ensures first <= k && At(s, d, first) && forall j | 0 <= j < first :: !At(s, d, j)
  {
    if j :| 0 <= j < k && At(s, d, j) {
      first := FirstExists(s, d, j);
    } else {
      first := k;
    }
  }

  /** The search for a delimiter after some text stops behind the text exactly if the delimiter does not occur in
      it: a delimiter that starts with a character it does not repeat cannot begin inside the text and end
      outside. */
  lemma FindAfter(text: string, d: string, rest: string)
    requires d != "" && d[0] !in d[1..]
    ensures var found := Find(text + d + rest, d);
            && found.Some?
            && (found.value == |text| <==> !Occurs(text, d))
            && (Occurs(text, d) ==> found.value < |text|)
  {
    var s := text + d + rest;
    assert At(s, d, |text|);
    if k :| At(text, d, k) {
      assert s[k..k + |d|] == text[k..k + |d|];
      var first := FirstExists(s, d, k);
      FindIsFirst(s, d, first);
    } else {
      forall j | 0 <= j < |text| ensures !At(s, d, j) {
        if j + |d| <= |text| {
          assert s[j..j + |d|] == text[j..j + |d|];
          assert !At(text, d, j);
        } else {
          assert d[|text| - j] == d[1..][|text| - j - 1];
          assert j + |d| <= |s| ==> s[j..j + |d|][|text| - j] == s[|text|] == d[0];
        }
      }
      FindIsFirst(s, d, |text|);
    }
  }

  // ----- splitting, as section 5.1.1 of RFC 2046 has it ---------------------------------------------

  function Delimiter(boundary: string): string {
    CRLF + "--" + boundary
  }

  /** The parts after a delimiter: none if it is the closing one, and otherwise the text of the next lines up to
      the next delimiter, and so on. */
  function PartsAfter(s: string, boundary: string): Option<seq<string>>
    decreases |s|
  {
    if At(s, "--", 0) then Some([])
    else if !At(s, CRLF, 0) then None
    else
      var text := s[2..];
      var d := Delimiter(boundary);
      match Find(text, d)
      case None => None
      case Some(k) =>
        if k + |d| > |text| then None
        else match PartsAfter(text[k + |d|..], boundary)
          case None => None
          case Some(parts) => Some([text[..k]] + parts)
  }

  /** A body without a preamble starts with a delimiter, without the line break. */
  function Split(s: string, boundary: string): Option<seq<string>> {
    if At(s, "--" + boundary, 0) then PartsAfter(s[2 + |boundary|..], boundary) else None
  }

  /** What follows the first delimiter, told from the front. */
  function Tail(boundary: string, parts: seq<string>): string {
    if parts == [] then "--" + CRLF
    else CRLF + (parts[0] + Delimiter(boundary) + Tail(boundary, parts[1..]))
  }

  lemma AppendLater(front: string, others: string, a: string, b: string, c: string)
    ensures (front + others) + a + b + c == front + (others + a + b + c)
  {
  }

  lemma {:induction false} PartsFromFront(boundary: string, first: string, parts: seq<string>)
    ensures Parts(boundary, [first] + parts) == Separator(boundary) + first + CRLF + Parts(boundary, parts)
  {
    var all := [first] + parts;
    if parts == [] {
      assert all[..0] == [] && all == [first];
    } else {
      var init, last := parts[..|parts| - 1], parts[|parts| - 1];
      PartsFromFront(boundary, first, init);
      assert all[..|all| - 1] == [first] + init && all[|all| - 1] == last;
      AppendLater(Separator(boundary) + first + CRLF, Parts(boundary, init), Separator(boundary), last, CRLF);
    }
  }

  lemma {:induction false} DocumentIsTail(boundary: string, parts: seq<string>)
    ensures Document(boundary, parts) == "--" + boundary + Tail(boundary, parts)
  {
    if parts != [] {
      var first, rest := parts[0], parts[1..];
      assert parts == [first] + rest;
      PartsFromFront(boundary, first, rest);
      DocumentIsTail(boundary, rest);
      Regroup(boundary, first, Parts(boundary, rest), Tail(boundary, rest));
    }
  }

  lemma Regroup(boundary: string, first: string, others: string, tail: string)
    requires others + FooterSeparator(boundary) == "--" + boundary + tail
    ensures (Separator(boundary) + first + CRLF + others) + FooterSeparator(boundary) ==
            "--" + boundary + (CRLF + (first + Delimiter(boundary) + tail))
  {
    var footer := FooterSeparator(boundary);
    var front := Separator(boundary) + first + CRLF;
    assert (front + others) + footer == front + (others + footer);
    assert front + ("--" + boundary + tail) == Separator(boundary) + (first + Delimiter(boundary) + tail);
  }

  /** No part contains a line that starts like a delimiter. */
  ghost predicate Clean(boundary: string, parts: seq<string>) {
    forall part | part in parts :: !Occurs(part, Delimiter(boundary))
  }

  /** Splitting off one part. */
  lemma PartSplits(boundary: string, first: string, rest: string)
    requires '\r' !in boundary
    ensures var s, d := CRLF + (first + Delimiter(boundary) + rest), Delimiter(boundary);
            var split, others := PartsAfter(s, boundary), PartsAfter(rest, boundary);
            if Occurs(first, d) then split.Some? ==> split.value != [] && split.value[0] != first
            else split == if others.Some? then Some([first] + others.value) else None
  {
    var d := Delimiter(boundary);
    var text := first + d + rest;
    var s := CRLF + text;
    assert d[0] == '\r' && '\r' !in d[1..];
    assert s[0] == '\r' && s[0..2] == CRLF && s[2..] == text;
    FindAfter(first, d, rest);
    var k := Find(text, d).value;
    if Occurs(first, d) {
      assert |text[..k]| == k < |first|;
    } else {
      assert text[..k] == first && text[k + |d|..] == rest;
    }
  }

  lemma CleanFromFront(boundary: string, first: string, parts: seq<string>)
    ensures Clean(boundary, [first] + parts) <==> !Occurs(first, Delimiter(boundary)) && Clean(boundary, parts)
  {
    assert forall part | part in [first] + parts :: part == first || part in parts;
    assert first in [first] + parts;
  }

  lemma NoPartSplits(boundary: string)
    ensures PartsAfter(Tail(boundary, []), boundary) == Some([])
  {
    assert At(Tail(boundary, []), "--", 0);
  }

  lemma {:induction false} TailSplits(boundary: string, parts: seq<string>)
    requires '\r' !in boundary
    ensures PartsAfter(Tail(boundary, parts), boundary) == Some(parts) <==> Clean(boundary, parts)
    decreases |parts|
  {
    if parts == [] {
      NoPartSplits(boundary);
    } else {
      TailSplits(boundary, parts[1..]);
      OnePartMore(boundary, parts[0], parts[1..]);
      assert parts == [parts[0]] + parts[1..];
    }
  }

  lemma OnePartMore(boundary: string, first: string, others: seq<string>)
    requires '\r' !in boundary
    requires PartsAfter(Tail(boundary, others), boundary) == Some(others) <==> Clean(boundary, others)
    ensures PartsAfter(Tail(boundary, [first] + others), boundary) == Some([first] + others) <==>
            Clean(boundary, [first] + others)
  {
    var all := [first] + others;
    assert all[0] == first && all[1..] == others;
    PartSplits(boundary, first, Tail(boundary, others));
    CleanFromFront(boundary, first, others);
    SameRest(first, others, PartsAfter(Tail(boundary, others), boundary));
  }

  lemma SameRest(first: string, others: seq<string>, split: Option<seq<string>>)
    ensures (if split.Some? then Some([first] + split.value) else None) == Some([first] + others) <==> split == Some(others)
  {
    if split.Some? {
      assert ([first] + split.value)[1..] == split.value && ([first] + others)[1..] == others;
    }
  }

  /** A recipient finds just the parts that were added, in order, exactly if none of them contains the delimiter
      that ends it. So it does in particular when none contains two hyphens and the boundary. */
  lemma PartsAreRecovered(boundary: string, parts: seq<string>)
    requires '\r' !in boundary
    ensures Split(Document(boundary, parts), boundary) == Some(parts) <==> Clean(boundary, parts)
    ensures (forall part | part in parts :: !Occurs(part, "--" + boundary)) ==> Clean(boundary, parts)
  {
    DocumentIsTail(boundary, parts);
    TailSplits(boundary, parts);
    SplitFirst(boundary, Tail(boundary, parts));
    forall part | part in parts && !Occurs(part, "--" + boundary) ensures !Occurs(part, Delimiter(boundary)) {
      HyphensInDelimiter(boundary, part);
    }
  }

  lemma SplitFirst(boundary: string, rest: string)
    ensures Split("--" + boundary + rest, boundary) == PartsAfter(rest, boundary)
  {
    var s := "--" + boundary + rest;
    assert s[0..2 + |boundary|] == "--" + boundary && s[2 + |boundary|..] == rest;
  }

  lemma HyphensInDelimiter(boundary: string, text: string)
    requires !Occurs(text, "--" + boundary)
    ensures !Occurs(text, Delimiter(boundary))
  {
    forall k ensures !At(text, Delimiter(boundary), k) {
      assert !At(text, "--" + boundary, k + 2);
      assert Delimiter(boundary)[2..] == "--" + boundary;
      assert 0 <= k && k + 4 + |boundary| <= |text| ==>
        text[k + 2..k + 4 + |boundary|] == text[k..k + 4 + |boundary|][2..];
    }
  }

  // ----- the inside of a part -----------------------------------------------------------------------

  /** The lines before the first empty line, and what follows it. */
  function ReadPart(s: string): Option<(seq<string>, string)>
    decreases |s|
  {
    match Find(s, CRLF)
    case None => None
    case Some(k) =>
      if k + 2 > |s| then None
      else if k == 0 then Some(([], s[2..]))
      else match ReadPart(s[k + 2..])
        case None => None
        case Some((lines, body)) => Some(([s[..k]] + lines, body))
  }

  /** A header line taken apart at the first colon with a space after it. */
  function ReadHeader(line: string): Option<(string, string)> {
    match Find(line, ": ")
    case None => None
    case Some(k) => if k + 2 > |line| then None else Some((line[..k], line[k + 2..]))
  }

  lemma {:induction false} JoinedFromFront(first: string, lines: seq<string>)
    ensures Joined([first] + lines) == first + CRLF + Joined(lines)
  {
    var all := [first] + lines;
    if lines == [] {
      assert all[..0] == [];
    } else {
      var k := |lines| - 1;
      JoinedFromFront(first, lines[..k]);
      assert all[..|all| - 1] == [first] + lines[..k] && all[|all| - 1] == lines[k];
    }
  }

  lemma NoBreakInside(line: string)
    requires '\r' !in line
    ensures !Occurs(line, CRLF)
  {
    forall k ensures !At(line, CRLF, k) {
      assert 0 <= k && k + 2 <= |line| ==> line[k..k + 2][0] == line[k];
    }
  }

  lemma {:induction false} LinesAreRead(lines: seq<string>, body: string)
    requires forall i | 0 <= i < |lines| :: lines[i] != "" && '\r' !in lines[i]
    ensures ReadPart(Joined(lines) + CRLF + body) == Some((lines, body))
    decreases |lines|
  {
    if lines == [] {
      NoLineIsRead(body);
      assert Joined(lines) + CRLF == CRLF;
    } else {
      LinesAreRead(lines[1..], body);
      FirstLineIsRead(lines[0], Joined(lines[1..]) + CRLF + body);
      JoinedThen(lines[0], lines[1..], body);
      assert lines == [lines[0]] + lines[1..];
    }
  }

  lemma NoLineIsRead(body: string)
    ensures ReadPart(CRLF + body) == Some(([], body))
  {
    var s := CRLF + body;
    assert s[0..2] == CRLF && s[2..] == body;
    FindIsFirst(s, CRLF, 0);
  }

  lemma JoinedThen(first: string, lines: seq<string>, body: string)
    ensures Joined([first] + lines) + CRLF + body == first + CRLF + (Joined(lines) + CRLF + body)
  {
    JoinedFromFront(first, lines);
  }

  lemma FirstLineIsRead(line: string, rest: string)
    requires line != "" && '\r' !in line
    ensures ReadPart(line + CRLF + rest) ==
            match ReadPart(rest) { case None => None case Some((lines, body)) => Some(([line] + lines, body)) }
  {
    var s := line + CRLF + rest;
    NoBreakInside(line);
    FindAfter(line, CRLF, rest);
    assert s[..|line|] == line && s[|line| + 2..] == rest;
  }

  /** A header is read as it was written exactly if its field has no colon with a space after it. */
  lemma HeaderIsRead(field: string, value: string)
    ensures ReadHeader(field + ": " + value) == Some((field, value)) <==> !Occurs(field, ": ")
  {
    var line := field + ": " + value;
    FindAfter(field, ": ", value);
    assert line[..|field|] == field && line[|field| + 2..] == value;
  }

  lemma NoColonInside(field: string)
    requires ':' !in field
    ensures !Occurs(field, ": ")
  {
    forall k ensures !At(field, ": ", k) {
      assert 0 <= k && k + 2 <= |field| ==> field[k..k + 2][0] == field[k];
    }
  }

  lemma {:induction false} HeaderLinesAreRead(headers: seq<(string, string)>)
    requires forall i | 0 <= i < |headers| :: !Occurs(headers[i].0, ": ")
    ensures |HeaderLines(headers)| == |headers|
    ensures forall i | 0 <= i < |headers| :: ReadHeader(HeaderLines(headers)[i]) == Some(headers[i])
  {
    if headers != [] {
      var (field, value) := headers[|headers| - 1];
      HeaderLinesAreRead(headers[..|headers| - 1]);
      assert !Occurs(headers[|headers| - 1].0, ": ");
      HeaderIsRead(field, value);
    }
  }

  /** The file name is what follows the last slash, or the whole path if there is none. */
  lemma {:induction false} FileNameIsLast(dir: string, name: string)
    requires '/' !in name && (dir == "" || dir[|dir| - 1] == '/')
    ensures FileName(dir + name) == name
  {
    if name != "" {
      var init, last := name[..|name| - 1], name[|name| - 1];
      FileNameIsLast(dir, init);
      assert (dir + name)[..|dir + name| - 1] == dir + init && (dir + name)[|dir + name| - 1] == last;
      assert name == init + [last];
    } else {
      assert dir + name == dir;
    }
  }

  lemma {:induction false} HeaderLinesAreClean(headers: seq<(string, string)>)
    requires forall i | 0 <= i < |headers| :: '\r' !in headers[i].0 && '\r' !in headers[i].1
    ensures forall i | 0 <= i < |HeaderLines(headers)| :: HeaderLines(headers)[i] != "" && '\r' !in HeaderLines(headers)[i]
  {
    if headers != [] {
      HeaderLinesAreClean(headers[..|headers| - 1]);
    }
  }

  lemma {:induction false} FileNameIsClean(path: string)
    ensures forall c :: c in FileName(path) ==> c in path
  {
    if path != "" {
      FileNameIsClean(path[..|path| - 1]);
    }
  }

  lemma LinesAreClean(f: File)
    requires '\r' !in f.path && (f.disposition.Some? ==> '\r' !in f.disposition.value)
    requires forall i | 0 <= i < |f.headers| :: '\r' !in f.headers[i].0 && '\r' !in f.headers[i].1
    ensures forall i | 0 <= i < |Lines(f)| :: Lines(f)[i] != "" && '\r' !in Lines(f)[i]
  {
    HeaderLinesAreClean(f.headers);
    FileNameIsClean(f.path);
  }

  /** From a part whose headers hold no carriage return, the header lines and the contents of the file are
      recovered byte by byte, whatever the contents are. */
  lemma ContentsAreRecovered(f: File)
    requires '\r' !in f.path && (f.disposition.Some? ==> '\r' !in f.disposition.value)
    requires forall i | 0 <= i < |f.headers| :: '\r' !in f.headers[i].0 && '\r' !in f.headers[i].1
    ensures ReadPart(Part(f)) == Some((Lines(f), f.body))
  {
    LinesAreClean(f);
    LinesAreRead(Lines(f), f.body);
  }

  /** What a recipient reads of a file in the directory `dir`: the headers in their order, each with its field and
      its value, then the disposition with the name of the file, if one was asked for, then the location with the
      whole path, and then the contents. */
  lemma FileIsRead(f: File, dir: string, name: string)
    requires f.path == dir + name && '/' !in name && (dir == "" || dir[|dir| - 1] == '/')
    requires '\r' !in f.path && (f.disposition.Some? ==> '\r' !in f.disposition.value)
    requires forall i | 0 <= i < |f.headers| :: '\r' !in f.headers[i].0 && '\r' !in f.headers[i].1
    requires forall i | 0 <= i < |f.headers| :: !Occurs(f.headers[i].0, ": ")
    ensures var n := |f.headers|;
            var m := if f.disposition.Some? then n + 1 else n;
            match ReadPart(Part(f)) {
              case None => false
              case Some((lines, body)) =>
                && body == f.body
                && |lines| == m + 1
                && (forall i | 0 <= i < n :: ReadHeader(lines[i]) == Some(f.headers[i]))
                && (m > n ==> ReadHeader(lines[n]) ==
                              Some(("Content-Disposition", f.disposition.value + "; filename=\"" + name + "\"")))
                && ReadHeader(lines[m]) == Some(("Content-Location", "\"" + f.path + "\""))
            }
  {
    ContentsAreRecovered(f);
    HeaderLinesAreRead(f.headers);
    FileNameIsLast(dir, name);
    LocationIsRead(f.path);
    if f.disposition.Some? {
      DispositionIsRead(f.disposition.value, f.path);
    }
  }

  lemma LocationIsRead(path: string)
    ensures ReadHeader(LocationLine(path)) == Some(("Content-Location", "\"" + path + "\""))
  {
    NoColonInside("Content-Location");
    HeaderIsRead("Content-Location", "\"" + path + "\"");
    assert LocationLine(path) == "Content-Location" + ": " + ("\"" + path + "\"");
  }

  lemma DispositionIsRead(disposition: string, path: string)
    ensures ReadHeader(DispositionLine(disposition, path)) ==
            Some(("Content-Disposition", disposition + "; filename=\"" + FileName(path) + "\""))
  {
    var value := disposition + "; filename=\"" + FileName(path) + "\"";
    NoColonInside("Content-Disposition");
    HeaderIsRead("Content-Disposition", value);
    assert DispositionLine(disposition, path) == "Content-Disposition" + ": " + value;
  }
}
