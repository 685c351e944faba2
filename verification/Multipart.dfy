/** Splitting a multipart/form-data body by its boundary without loading it. Parsing a header
    block and decoding a text field are parameters; the splitting is modelled byte for byte.
 */
module Multipart {
  import opened Wrappers

  /** A byte is its value; no result below needs it to be under 256. */
  type Byte = int

  const CR: Byte := 13
  const LF: Byte := 10
  const DASH: Byte := 45
  const CRLF: seq<Byte> := [CR, LF]
  const DASHES: seq<Byte> := [DASH, DASH]
  const BLANK: seq<Byte> := [CR, LF, CR, LF]
  const MAX_HEADER := 16 * 1024
  const COPY_CHUNK := 1024 * 1024

  // ---------------------------------------------------------------- searching

  predicate Matches(mm: seq<Byte>, needle: seq<Byte>, pos: nat) {
    pos + |needle| <= |mm| && forall i :: 0 <= i < |needle| ==> mm[pos + i] == needle[i]
  }

  /** `mm[k:k+2]` is these two bytes; a slice cut off by the end is not. */
  predicate TwoAt(mm: seq<Byte>, k: nat, x: Byte, y: Byte) {
    k + 2 <= |mm| && mm[k] == x && mm[k + 1] == y
  }

  /** `mm.find(needle, start)`: the first match from start on. */
  function Find(mm: seq<Byte>, needle: seq<Byte>, start: nat): (r: Option<nat>)
    ensures r.Some? ==> start <= r.value && r.value + |needle| <= |mm|
    decreases |mm| - start
  {
    if start + |needle| > |mm| then None
    else if Matches(mm, needle, start) then Some(start)
    else Find(mm, needle, start + 1)
  }

  ghost predicate FirstMatch(mm: seq<Byte>, needle: seq<Byte>, start: nat, r: Option<nat>) {
    (r.Some? ==> start <= r.value && Matches(mm, needle, r.value))
    && forall p :: start <= p && (r.Some? ==> p < r.value) ==> !Matches(mm, needle, p)
  }

  /** Find returns the first match, and only that. */
  lemma {:induction false} FindMeans(mm: seq<Byte>, needle: seq<Byte>, start: nat, r: Option<nat>)
    ensures FirstMatch(mm, needle, start, r) <==> r == Find(mm, needle, start)
    decreases |mm| - start
  {
    if start + |needle| <= |mm| && !Matches(mm, needle, start) {
      FindMeans(mm, needle, start + 1, r);
    }
  }

  /** A delimiter line: the needle followed by CRLF or by two dashes. */
  predicate Accepted(mm: seq<Byte>, needle: seq<Byte>, pos: nat) {
    Matches(mm, needle, pos)
    && (TwoAt(mm, pos + |needle|, CR, LF) || TwoAt(mm, pos + |needle|, DASH, DASH))
  }

  ghost predicate FirstAccepted(mm: seq<Byte>, needle: seq<Byte>, start: nat, r: Option<nat>) {
    (r.Some? ==> start <= r.value && Accepted(mm, needle, r.value))
    && forall p :: start <= p && (r.Some? ==> p < r.value) ==> !Accepted(mm, needle, p)
  }

  function FindDelim(mm: seq<Byte>, needle: seq<Byte>, start: nat): (r: Option<nat>)
    ensures r.Some? ==> start <= r.value && r.value + |needle| <= |mm|
    decreases |mm| - start
  {
    if start + |needle| > |mm| then None
    else if Accepted(mm, needle, start) then Some(start)
    else FindDelim(mm, needle, start + 1)
  }

  lemma {:induction false} FindDelimMeans(mm: seq<Byte>, needle: seq<Byte>, start: nat, r: Option<nat>)
    ensures FirstAccepted(mm, needle, start, r) <==> r == FindDelim(mm, needle, start)
    decreases |mm| - start
  {
    if start + |needle| <= |mm| && !Accepted(mm, needle, start) {
      FindDelimMeans(mm, needle, start + 1, r);
    }
  }

  /** `find_delim`: skip matches that only start like the boundary. */
  method FindDelimiter(mm: seq<Byte>, needle: seq<Byte>, start: nat) returns (r: Option<nat>)
    ensures r == FindDelim(mm, needle, start)
  {
    r := Find(mm, needle, start);
    FindMeans(mm, needle, start, r);
    while r.Some? && !Accepted(mm, needle, r.value)
      invariant r.Some? ==> start <= r.value && Matches(mm, needle, r.value)
      invariant forall p :: start <= p && (r.Some? ==> p < r.value) ==> !Accepted(mm, needle, p)
      decreases if r.Some? then |mm| + 1 - r.value else 0
    {
      var after := r.value + 1;
      r := Find(mm, needle, after);
      FindMeans(mm, needle, after, r);
    }
    FindDelimMeans(mm, needle, start, r);
  }

  /** The chunked copy of a file part writes exactly the slice. */
  method CopyChunks(mm: seq<Byte>, start: nat, end: nat) returns (out: seq<Byte>)
    requires start <= end <= |mm|
    ensures out == mm[start..end]
  {
    out := [];
    var off := start;
    while off < end
      invariant start <= off && out == mm[start..if off <= end then off else end]
    {
      var upto := if off + COPY_CHUNK < end then off + COPY_CHUNK else end;
      out := out + mm[off..upto];
      off := off + COPY_CHUNK;
    }
  }

  // ---------------------------------------------------------------- splitting

  /** What the header parser reports of a part. */
  datatype Disposition = Disposition(name: Option<string>, filename: Option<string>, contentType: string)

  datatype File = File(filename: string, contentType: string, content: seq<Byte>)

  datatype Form = Form(fields: map<string, string>, files: seq<File>)

  datatype Error = NoBoundary | EmptyBody | BadHeaders | NotTerminated | FieldTooLarge

  /** The two foreign calls, and the limit on a text field. */
  datatype Reader = Reader(parse: seq<Byte> -> Disposition, decode: seq<Byte> -> string, maxField: int)

  /** A file part goes to the files, a named text part to the fields, anything else is dropped. */
  function Store(form: Form, rd: Reader, headers: seq<Byte>, content: seq<Byte>): Result<Form, Error> {
    var d := rd.parse(headers + BLANK);
    if d.filename.Some? && d.name == Some("files") then
      Ok(form.(files := form.files + [File(d.filename.value, d.contentType, content)]))
    else if d.name.Some? && d.name.value != "" && d.filename.None? then
      if |content| > rd.maxField then Err(FieldTooLarge)
      else Ok(form.(fields := form.fields[d.name.value := rd.decode(content)]))
    else Ok(form)
  }

  /** What lies behind a delimiter: the end, an error, or one part and the delimiter after it. */
  datatype Scan = Close | Broken(error: Error) | Piece(head: nat, hend: nat, next: nat)

  function ScanPart(mm: seq<Byte>, delim: seq<Byte>, pos: nat): (r: Scan)
    ensures r.Piece? ==>
              pos + |delim| + 2 == r.head <= r.hend && r.hend + 4 <= r.next && r.next + 2 + |delim| <= |mm|
  {
    var line := pos + |delim|;
    if TwoAt(mm, line, DASH, DASH) then Close
    else
      var hend := Find(mm, BLANK, line + 2);
      if hend.None? || hend.value - (line + 2) > MAX_HEADER then Broken(BadHeaders)
      else
        var nxt := FindDelim(mm, CRLF + delim, hend.value + 4);
        if nxt.None? then Broken(NotTerminated) else Piece(line + 2, hend.value, nxt.value)
  }

  /** A scan of a body of this size finds a part inside the body and moves on. */
  ghost predicate Advances(scan: nat -> Scan, size: nat) {
    forall p: nat :: scan(p).Piece? ==>
      p <= scan(p).head <= scan(p).hend && scan(p).hend + 4 <= scan(p).next && scan(p).next + 2 <= size
  }

  /** This scan is the one of ScanPart. */
  ghost predicate Scans(scan: nat -> Scan, mm: seq<Byte>, delim: seq<Byte>) {
    Advances(scan, |mm|) && forall p: nat {:trigger ScanPart(mm, delim, p)} :: scan(p) == ScanPart(mm, delim, p)
  }

  function Scanner(mm: seq<Byte>, delim: seq<Byte>): (scan: nat -> Scan)
    ensures Scans(scan, mm, delim)
  {
    (p: nat) => ScanPart(mm, delim, p)
  }

  /** The main loop from a delimiter at pos; each round moves to a later delimiter. */
  function SplitFrom(mm: seq<Byte>, scan: nat -> Scan, rd: Reader, pos: nat, form: Form): Result<Form, Error>
    requires pos <= |mm| && Advances(scan, |mm|)
    decreases |mm| - pos
  {
    match scan(pos)
    case Close => Ok(form)
    case Broken(e) => Err(e)
    case Piece(head, hend, next) =>
      var stored := Store(form, rd, mm[head..hend], mm[hend + 4..next]);
      if stored.Err? then stored else SplitFrom(mm, scan, rd, next + 2, stored.value)
  }

  function Split(mm: seq<Byte>, boundary: seq<Byte>, rd: Reader): Result<Form, Error> {
    if boundary == [] then Err(NoBoundary)
    else if mm == [] then Err(EmptyBody)
    else
      var delim := DASHES + boundary;
      var first := FindDelim(mm, delim, 0);
      if first.None? then Err(NotTerminated)
      else SplitFrom(mm, Scanner(mm, delim), rd, first.value, Form(map[], []))
  }

  method NextPart(mm: seq<Byte>, delim: seq<Byte>, pos: nat, ghost scan: nat -> Scan) returns (r: Scan)
    requires Scans(scan, mm, delim)
    ensures r == scan(pos)
  {
    assert scan(pos) == ScanPart(mm, delim, pos);
    var line := pos + |delim|;
    if TwoAt(mm, line, DASH, DASH) { return Close; }
    var hend := Find(mm, BLANK, line + 2);
    if hend.None? || hend.value - (line + 2) > MAX_HEADER { return Broken(BadHeaders); }
    var nxt := FindDelimiter(mm, CRLF + delim, hend.value + 4);
    r := if nxt.None? then Broken(NotTerminated) else Piece(line + 2, hend.value, nxt.value);
  }

  method StorePart(form: Form, rd: Reader, mm: seq<Byte>, head: nat, hend: nat, next: nat)
      returns (r: Result<Form, Error>)
    requires head <= hend && hend + 4 <= next <= |mm|
    ensures r == Store(form, rd, mm[head..hend], mm[hend + 4..next])
  {
    var d := rd.parse(mm[head..hend] + BLANK);
    var start := hend + 4;
    r := Ok(form);
    if d.filename.Some? && d.name == Some("files") {
      var content := CopyChunks(mm, start, next);
      r := Ok(form.(files := form.files + [File(d.filename.value, d.contentType, content)]));
    } else if d.name.Some? && d.name.value != "" && d.filename.None? {
      if next - start > rd.maxField { return Err(FieldTooLarge); }
      r := Ok(form.(fields := form.fields[d.name.value := rd.decode(mm[start..next])]));
    }
  }

  /** The main loop, from the first delimiter. */
  method SplitParts(mm: seq<Byte>, delim: seq<Byte>, rd: Reader, first: nat, ghost scan: nat -> Scan)
    returns (r: Result<Form, Error>)
    requires first <= |mm| && Scans(scan, mm, delim)
    ensures r == SplitFrom(mm, scan, rd, first, Form(map[], []))
  {
    var form, pos := Form(map[], []), first;
    while true
      invariant pos <= |mm|
      invariant SplitFrom(mm, scan, rd, pos, form) == SplitFrom(mm, scan, rd, first, Form(map[], []))
      decreases |mm| - pos
    {
      var found := NextPart(mm, delim, pos, scan);
      match found
      case Close => return Ok(form);
      case Broken(e) => return Err(e);
      case Piece(head, hend, next) =>
        r := StorePart(form, rd, mm, head, hend, next);
        if r.Err? { return; }
        form, pos := r.value, next + 2;
    }
  }

  method SplitMultipart(mm: seq<Byte>, boundary: seq<Byte>, rd: Reader) returns (r: Result<Form, Error>)
    ensures r == Split(mm, boundary, rd)
  {
    if boundary == [] { return Err(NoBoundary); }
    if mm == [] { return Err(EmptyBody); }
    var delim := DASHES + boundary;
    var found := FindDelimiter(mm, delim, 0);
    if found.None? { return Err(NotTerminated); }
    r := SplitParts(mm, delim, rd, found.value, Scanner(mm, delim));
  }

  // ---------------------------------------------------------------- serialising

  datatype Part = Part(headers: seq<Byte>, content: seq<Byte>)

  /** Section 5.1.1 of RFC 2046: delimiter lines, header block, blank line, content; then the
      closing delimiter. */
  function Serialise(parts: seq<Part>, delim: seq<Byte>): seq<Byte> {
    if parts == [] then delim + DASHES else
    delim + (CRLF + ((parts[0].headers + BLANK) + ((parts[0].content + CRLF) + Serialise(parts[1..], delim))))
  }

  /** The parts stored one after the other. */
  function Collect(parts: seq<Part>, rd: Reader, form: Form): Result<Form, Error> {
    if parts == [] then Ok(form) else
    var stored := Store(form, rd, parts[0].headers, parts[0].content);
    if stored.Err? then stored else Collect(parts[1..], rd, stored.value)
  }

  /** A header block without a blank line, not ending in CRLF, and within the size limit. */
  ghost predicate HeadersOk(headers: seq<Byte>) {
    |headers| <= MAX_HEADER
    && (forall p: nat :: !Matches(headers, BLANK, p))
    && !(|headers| >= 2 && headers[|headers| - 2..] == CRLF)
  }

  /** No delimiter line starts inside the content. */
  ghost predicate ContentOk(content: seq<Byte>, delim: seq<Byte>) {
    forall p: nat :: !Accepted(content + CRLF, CRLF + delim, p)
  }

  ghost predicate PartOk(part: Part, delim: seq<Byte>) {
    HeadersOk(part.headers) && ContentOk(part.content, delim)
  }

  /** Content that does not contain CRLF and the delimiter at all is fine a fortiori. */
  lemma PlainContentOk(content: seq<Byte>, delim: seq<Byte>)
    requires CR !in delim
    requires forall p: nat :: !Matches(content, CRLF + delim, p)
    ensures ContentOk(content, delim)
  {
    var whole, needle := content + CRLF, CRLF + delim;
    forall p: nat ensures !Accepted(whole, needle, p) {
      if p + |needle| <= |content| {
        assert content[p..p + |needle|] == whole[p..p + |needle|];
        assert !Matches(content, needle, p);
      } else if p < |content| {
        NoLateStart(whole, delim, p, |content|);
      } else {
        assert p + |needle| + 2 > |whole|;
      }
    }
  }

  /** The delimiter with its CRLF holds a CR only in front, so two matches never overlap. */
  lemma NoLateStart(mm: seq<Byte>, delim: seq<Byte>, p: nat, at: nat)
    requires CR !in delim && p < at < p + |CRLF + delim| && at < |mm| && mm[at] == CR
    ensures !Matches(mm, CRLF + delim, p)
  {
    var needle := CRLF + delim;
    if p + |needle| <= |mm| {
      assert mm[p..p + |needle|][at - p] == CR;
      assert needle[at - p] != CR;
    }
  }

  // ---------------------------------------------------------------- round trip

  lemma MatchesConcat(mm: seq<Byte>, x: seq<Byte>, y: seq<Byte>, p: nat)
    ensures Matches(mm, x + y, p) <==> Matches(mm, x, p) && Matches(mm, y, p + |x|)
  {
    if Matches(mm, x + y, p) {
      forall i | 0 <= i < |x| ensures mm[p + i] == x[i] { assert (x + y)[i] == x[i]; }
      forall i | 0 <= i < |y| ensures mm[p + |x| + i] == y[i] { assert (x + y)[|x| + i] == y[i]; }
    }
    if Matches(mm, x, p) && Matches(mm, y, p + |x|) {
      forall i | 0 <= i < |x + y| ensures mm[p + i] == (x + y)[i] {
        if i >= |x| { assert mm[p + |x| + (i - |x|)] == y[i - |x|]; }
      }
    }
  }

  /** A match inside a known stretch depends only on that stretch. */
  lemma MatchesLocal(mm: seq<Byte>, whole: seq<Byte>, needle: seq<Byte>, base: nat, p: nat)
    requires Matches(mm, whole, base) && p + |needle| <= |whole|
    ensures Matches(mm, needle, base + p) <==> Matches(whole, needle, p)
  {
    forall i | 0 <= i < |needle| ensures mm[base + p + i] == needle[i] <==> whole[p + i] == needle[i] {
      assert mm[base + (p + i)] == whole[p + i];
    }
  }

  lemma HeaderEnd(mm: seq<Byte>, headers: seq<Byte>, head: nat)
    requires HeadersOk(headers) && Matches(mm, headers + BLANK, head)
    ensures Find(mm, BLANK, head) == Some(head + |headers|)
  {
    MatchesConcat(mm, headers, BLANK, head);
    forall q | head <= q < head + |headers| ensures !Matches(mm, BLANK, q) {
      MatchesLocal(mm, headers + BLANK, BLANK, head, q - head);
      NoEarlyBlank(headers, q - head);
    }
    FindMeans(mm, BLANK, head, Some(head + |headers|));
  }

  lemma NoEarlyBlank(headers: seq<Byte>, p: nat)
    requires HeadersOk(headers) && p < |headers|
    ensures !Matches(headers + BLANK, BLANK, p)
  {
    var whole, n := headers + BLANK, |headers|;
    if p + 4 <= n {
      assert !Matches(headers, BLANK, p);
      var i :| 0 <= i < 4 && headers[p + i] != BLANK[i];
      assert whole[p + i] != BLANK[i];
    } else if p == n - 2 {
      assert headers[n - 2..] == [headers[p], headers[p + 1]];
      assert whole[p + 0] != BLANK[0] || whole[p + 1] != BLANK[1];
    } else {
      assert whole[p + (n - p)] == CR && BLANK[n - p] == LF;
    }
  }

  lemma ContentEnd(mm: seq<Byte>, content: seq<Byte>, delim: seq<Byte>, start: nat)
    requires CR !in delim && ContentOk(content, delim)
    requires Matches(mm, content + CRLF, start) && Accepted(mm, delim, start + |content| + 2)
    ensures FindDelim(mm, CRLF + delim, start) == Some(start + |content|)
  {
    var needle, at := CRLF + delim, start + |content|;
    MatchesConcat(mm, content, CRLF, start);
    MatchesConcat(mm, CRLF, delim, at);
    assert Accepted(mm, needle, at);
    forall q | start <= q < at ensures !Accepted(mm, needle, q) {
      NotInside(mm, content, delim, start, q - start);
    }
    FindDelimMeans(mm, needle, start, Some(at));
  }

  lemma NotInside(mm: seq<Byte>, content: seq<Byte>, delim: seq<Byte>, start: nat, p: nat)
    requires CR !in delim && ContentOk(content, delim) && p < |content|
    requires Matches(mm, content + CRLF, start)
    ensures !Accepted(mm, CRLF + delim, start + p)
  {
    var needle, whole := CRLF + delim, content + CRLF;
    if p + |needle| <= |content| {
      MatchesLocal(mm, whole, needle, start, p);
      var a := p + |needle|;
      assert mm[start + a] == whole[a] && mm[start + (a + 1)] == whole[a + 1];
      assert !Accepted(whole, needle, p);
    } else {
      assert mm[start + |content|] == whole[|content|] == CR;
      NoLateStart(mm, delim, start + p, start + |content|);
    }
  }

  lemma DelimiterAt(mm: seq<Byte>, parts: seq<Part>, delim: seq<Byte>, pos: nat)
    requires Matches(mm, Serialise(parts, delim), pos)
    ensures Accepted(mm, delim, pos)
    ensures if parts == [] then TwoAt(mm, pos + |delim|, DASH, DASH) else TwoAt(mm, pos + |delim|, CR, LF)
  {
    var line := if parts == [] then DASHES else CRLF;
    var at := pos + |delim|;
    if parts == [] {
      MatchesConcat(mm, delim, DASHES, pos);
    } else {
      var tail := (parts[0].headers + BLANK) + ((parts[0].content + CRLF) + Serialise(parts[1..], delim));
      MatchesConcat(mm, delim, CRLF + tail, pos);
      MatchesConcat(mm, CRLF, tail, at);
    }
    assert Matches(mm, line, at);
    assert mm[at + 0] == line[0] && mm[at + 1] == line[1];
  }

  /** Where the pieces of the first part lie. */
  lemma Layout(mm: seq<Byte>, part: Part, rest: seq<Byte>, delim: seq<Byte>, pos: nat)
    requires Matches(mm, delim + (CRLF + ((part.headers + BLANK) + ((part.content + CRLF) + rest))), pos)
    ensures var head := pos + |delim| + 2;
            var start := head + |part.headers| + 4;
            Matches(mm, part.headers + BLANK, head) && Matches(mm, part.headers, head)
            && Matches(mm, part.content + CRLF, start) && Matches(mm, part.content, start)
            && Matches(mm, rest, start + |part.content| + 2)
  {
    var head := pos + |delim| + 2;
    var start := head + |part.headers| + 4;
    var h, c := part.headers + BLANK, part.content + CRLF;
    MatchesConcat(mm, delim, CRLF + (h + (c + rest)), pos);
    MatchesConcat(mm, CRLF, h + (c + rest), pos + |delim|);
    MatchesConcat(mm, h, c + rest, head);
    MatchesConcat(mm, c, rest, start);
    MatchesConcat(mm, part.headers, BLANK, head);
    MatchesConcat(mm, part.content, CRLF, start);
  }

  lemma ScanIs(mm: seq<Byte>, delim: seq<Byte>, pos: nat, hend: nat, next: nat)
    requires !TwoAt(mm, pos + |delim|, DASH, DASH)
    requires Find(mm, BLANK, pos + |delim| + 2) == Some(hend) && hend - (pos + |delim| + 2) <= MAX_HEADER
    requires FindDelim(mm, CRLF + delim, hend + 4) == Some(next)
    ensures ScanPart(mm, delim, pos) == Piece(pos + |delim| + 2, hend, next)
  {
  }

  lemma ScanPiece(mm: seq<Byte>, part: Part, delim: seq<Byte>, pos: nat)
    requires CR !in delim && PartOk(part, delim)
    requires !TwoAt(mm, pos + |delim|, DASH, DASH)
    requires Matches(mm, part.headers + BLANK, pos + |delim| + 2)
    requires Matches(mm, part.content + CRLF, pos + |delim| + 2 + |part.headers| + 4)
    requires Accepted(mm, delim, pos + |delim| + 2 + |part.headers| + 4 + |part.content| + 2)
    ensures var head := pos + |delim| + 2;
            ScanPart(mm, delim, pos) == Piece(head, head + |part.headers|, head + |part.headers| + 4 + |part.content|)
  {
    var head := pos + |delim| + 2;
    var hend := head + |part.headers|;
    assert Find(mm, BLANK, head) == Some(hend) by { HeaderEnd(mm, part.headers, head); }
    assert FindDelim(mm, CRLF + delim, hend + 4) == Some(hend + 4 + |part.content|) by {
      ContentEnd(mm, part.content, delim, hend + 4);
    }
    ScanIs(mm, delim, pos, hend, hend + 4 + |part.content|);
  }

  /** A scan that finds these parts, one after the other. */
  ghost predicate Yields(mm: seq<Byte>, scan: nat -> Scan, parts: seq<Part>, pos: nat)
    requires Advances(scan, |mm|)
    decreases |parts|
  {
    if parts == [] then scan(pos) == Close
    else
      scan(pos).Piece?
      && mm[scan(pos).head..scan(pos).hend] == parts[0].headers
      && mm[scan(pos).hend + 4..scan(pos).next] == parts[0].content
      && Yields(mm, scan, parts[1..], scan(pos).next + 2)
  }

  /** Where the first part of a serialised list lies, and the list behind it. */
  lemma SerialisedFirst(mm: seq<Byte>, parts: seq<Part>, delim: seq<Byte>, pos: nat, next: nat)
    requires parts != [] && Matches(mm, Serialise(parts, delim), pos)
    requires next == pos + |delim| + 2 + |parts[0].headers| + 4 + |parts[0].content| + 2
    ensures LiesAt(mm, parts[0], delim, pos) && Matches(mm, Serialise(parts[1..], delim), next)
  {
    DelimiterAt(mm, parts, delim, pos);
    Layout(mm, parts[0], Serialise(parts[1..], delim), delim, pos);
    DelimiterAt(mm, parts[1..], delim, next);
  }

  /** A part behind the delimiter at pos, with a delimiter behind it. */
  ghost predicate LiesAt(mm: seq<Byte>, part: Part, delim: seq<Byte>, pos: nat) {
    var head := pos + |delim| + 2;
    var start := head + |part.headers| + 4;
    !TwoAt(mm, pos + |delim|, DASH, DASH)
    && Matches(mm, part.headers + BLANK, head) && Matches(mm, part.headers, head)
    && Matches(mm, part.content + CRLF, start) && Matches(mm, part.content, start)
    && Accepted(mm, delim, start + |part.content| + 2)
  }

  lemma PieceFound(mm: seq<Byte>, scan: nat -> Scan, part: Part, delim: seq<Byte>, pos: nat)
    requires Scans(scan, mm, delim) && CR !in delim && PartOk(part, delim) && LiesAt(mm, part, delim, pos)
    ensures scan(pos).Piece?
            && mm[scan(pos).head..scan(pos).hend] == part.headers
            && mm[scan(pos).hend + 4..scan(pos).next] == part.content
            && scan(pos).next + 2 == pos + |delim| + 2 + |part.headers| + 4 + |part.content| + 2
  {
    ScanPiece(mm, part, delim, pos);
  }

  /** Behind a delimiter of a serialised list the scan finds its first part, and the rest of the
      list is serialised behind that. */
  lemma ScanFinds(mm: seq<Byte>, scan: nat -> Scan, parts: seq<Part>, delim: seq<Byte>, pos: nat)
    requires Scans(scan, mm, delim) && CR !in delim
    requires parts != [] && PartOk(parts[0], delim) && Matches(mm, Serialise(parts, delim), pos)
    ensures scan(pos).Piece?
            && mm[scan(pos).head..scan(pos).hend] == parts[0].headers
            && mm[scan(pos).hend + 4..scan(pos).next] == parts[0].content
            && Matches(mm, Serialise(parts[1..], delim), scan(pos).next + 2)
  {
    var next := pos + |delim| + 2 + |parts[0].headers| + 4 + |parts[0].content| + 2;
    SerialisedFirst(mm, parts, delim, pos, next);
    PieceFound(mm, scan, parts[0], delim, pos);
  }

  lemma ScanCloses(mm: seq<Byte>, scan: nat -> Scan, delim: seq<Byte>, pos: nat)
    requires Scans(scan, mm, delim) && Matches(mm, Serialise([], delim), pos)
    ensures scan(pos) == Close
  {
    DelimiterAt(mm, [], delim, pos);
    assert ScanPart(mm, delim, pos) == Close;
  }

  lemma {:induction false} SerialisedIsFound(mm: seq<Byte>, scan: nat -> Scan, parts: seq<Part>, delim: seq<Byte>,
      pos: nat)
    requires Scans(scan, mm, delim) && CR !in delim && forall i :: 0 <= i < |parts| ==> PartOk(parts[i], delim)
    requires Matches(mm, Serialise(parts, delim), pos)
    ensures Yields(mm, scan, parts, pos)
    decreases |parts|
  {
    if parts == [] {
      ScanCloses(mm, scan, delim, pos);
    } else {
      assert PartOk(parts[0], delim);
      ScanFinds(mm, scan, parts, delim, pos);
      SerialisedIsFound(mm, scan, parts[1..], delim, scan(pos).next + 2);
    }
  }

  lemma {:induction false} FoundIsCollected(mm: seq<Byte>, scan: nat -> Scan, parts: seq<Part>, rd: Reader, pos: nat,
      form: Form)
    requires pos <= |mm| && Advances(scan, |mm|) && Yields(mm, scan, parts, pos)
    ensures SplitFrom(mm, scan, rd, pos, form) == Collect(parts, rd, form)
    decreases |parts|
  {
    if parts != [] {
      var stored := Store(form, rd, parts[0].headers, parts[0].content);
      if stored.Ok? { FoundIsCollected(mm, scan, parts[1..], rd, scan(pos).next + 2, stored.value); }
    }
  }

  /** Splitting what was serialised stores every part in order with its content unchanged,
      whatever epilogue follows; the only refusal left is a text field above the limit. */
  lemma RoundTrip(parts: seq<Part>, boundary: seq<Byte>, rd: Reader, epilogue: seq<Byte>)
    requires boundary != [] && CR !in boundary
    requires forall i :: 0 <= i < |parts| ==> PartOk(parts[i], DASHES + boundary)
    ensures Split(Serialise(parts, DASHES + boundary) + epilogue, boundary, rd) == Collect(parts, rd, Form(map[], []))
  {
    var delim := DASHES + boundary;
    var s := Serialise(parts, delim);
    var mm := s + epilogue;
    assert mm[0..0 + |s|] == s;
    DelimiterAt(mm, parts, delim, 0);
    FindDelimMeans(mm, delim, 0, Some(0));
    SerialisedIsFound(mm, Scanner(mm, delim), parts, delim, 0);
    FoundIsCollected(mm, Scanner(mm, delim), parts, rd, 0, Form(map[], []));
  }

  // ---------------------------------------------------------------- what is collected

  predicate IsFile(rd: Reader, part: Part) {
    var d := rd.parse(part.headers + BLANK);
    d.filename.Some? && d.name == Some("files")
  }

  /** The file parts, in order. */
  function FilesOf(parts: seq<Part>, rd: Reader): seq<File> {
    if parts == [] then [] else
    (if IsFile(rd, parts[0]) then
       var d := rd.parse(parts[0].headers + BLANK);
       [File(d.filename.value, d.contentType, parts[0].content)]
     else [])
    + FilesOf(parts[1..], rd)
  }

  lemma {:induction false} CollectedFiles(parts: seq<Part>, rd: Reader, form: Form)
    requires Collect(parts, rd, form).Ok?
    ensures Collect(parts, rd, form).value.files == form.files + FilesOf(parts, rd)
  {
    if parts != [] {
      var stored := Store(form, rd, parts[0].headers, parts[0].content);
      CollectedFiles(parts[1..], rd, stored.value);
    }
  }

  /** Every file part comes back, in order, byte for byte. */
  lemma FilesRoundTrip(parts: seq<Part>, boundary: seq<Byte>, rd: Reader, epilogue: seq<Byte>)
    requires boundary != [] && CR !in boundary
    requires forall i :: 0 <= i < |parts| ==> PartOk(parts[i], DASHES + boundary)
    ensures var r := Split(Serialise(parts, DASHES + boundary) + epilogue, boundary, rd);
            r.Ok? ==> r.value.files == FilesOf(parts, rd)
  {
    RoundTrip(parts, boundary, rd, epilogue);
    if Collect(parts, rd, Form(map[], [])).Ok? { CollectedFiles(parts, rd, Form(map[], [])); }
  }

  /** A named part without a file name is a text field. */
  predicate IsText(rd: Reader, part: Part) {
    var d := rd.parse(part.headers + BLANK);
    d.name.Some? && d.name.value != "" && d.filename.None?
  }

  function NameOf(rd: Reader, part: Part): string
    requires IsText(rd, part)
  {
    rd.parse(part.headers + BLANK).name.value
  }

  ghost predicate TooLarge(rd: Reader, part: Part) {
    IsText(rd, part) && |part.content| > rd.maxField
  }

  predicate Names(rd: Reader, part: Part, name: string) {
    IsText(rd, part) && NameOf(rd, part) == name
  }

  ghost predicate SomeNames(rd: Reader, parts: seq<Part>, name: string) {
    exists i :: 0 <= i < |parts| && Names(rd, parts[i], name)
  }

  /** No later text part has the name of this one. */
  ghost predicate LastNamed(rd: Reader, parts: seq<Part>, i: nat)
    requires i < |parts| && IsText(rd, parts[i])
  {
    !SomeNames(rd, parts[i + 1..], NameOf(rd, parts[i]))
  }

  ghost predicate SomeTooLarge(rd: Reader, parts: seq<Part>) {
    exists i :: 0 <= i < |parts| && TooLarge(rd, parts[i])
  }

  lemma FieldsTail(rd: Reader, parts: seq<Part>, name: string)
    requires parts != []
    ensures SomeNames(rd, parts, name) <==> Names(rd, parts[0], name) || SomeNames(rd, parts[1..], name)
    ensures SomeTooLarge(rd, parts) <==> TooLarge(rd, parts[0]) || SomeTooLarge(rd, parts[1..])
  {
    var rest := parts[1..];
    assert forall i :: 0 <= i < |rest| ==> rest[i] == parts[i + 1];
    assert forall i :: 1 <= i < |parts| ==> parts[i] == rest[i - 1];
  }

  /** One name's field: that of the last text part with the name, or what was there before. */
  lemma {:induction false} CollectedField(parts: seq<Part>, rd: Reader, form: Form, name: string)
    ensures Collect(parts, rd, form).Err? <==> SomeTooLarge(rd, parts)
    ensures Collect(parts, rd, form).Err? ==> Collect(parts, rd, form).error == FieldTooLarge
    ensures Collect(parts, rd, form).Ok? ==>
              var fields := Collect(parts, rd, form).value.fields;
              (name in fields <==> name in form.fields || SomeNames(rd, parts, name))
              && (!SomeNames(rd, parts, name) && name in form.fields ==> fields[name] == form.fields[name])
              && forall i :: 0 <= i < |parts| && Names(rd, parts[i], name) && !SomeNames(rd, parts[i + 1..], name) ==>
                   fields[name] == rd.decode(parts[i].content)
  {
    if parts != [] {
      FieldsTail(rd, parts, name);
      var rest := parts[1..];
      var stored := Store(form, rd, parts[0].headers, parts[0].content);
      assert stored.Err? <==> TooLarge(rd, parts[0]);
      if stored.Ok? {
        CollectedField(rest, rd, stored.value, name);
        forall i | 0 <= i < |rest| ensures rest[i] == parts[i + 1] && rest[i + 1..] == parts[i + 2..] {}
        if Collect(parts, rd, form).Ok? {
          var fields := Collect(parts, rd, form).value.fields;
          forall i | 0 <= i < |parts| && Names(rd, parts[i], name) && !SomeNames(rd, parts[i + 1..], name)
            ensures fields[name] == rd.decode(parts[i].content)
          {
            if i > 0 {
              assert rest[i - 1] == parts[i] && rest[i - 1 + 1..] == parts[i + 1..];
            } else {
              assert parts[0 + 1..] == rest;
            }
          }
        }
      }
    }
  }

  /** Splitting what was serialised is refused exactly when some text field is above the limit;
      otherwise the fields are exactly the names of the text parts, each with the decoded content of
      the last part of that name. */
  lemma FieldsRoundTrip(parts: seq<Part>, boundary: seq<Byte>, rd: Reader, epilogue: seq<Byte>)
    requires boundary != [] && CR !in boundary
    requires forall i :: 0 <= i < |parts| ==> PartOk(parts[i], DASHES + boundary)
    ensures var r := Split(Serialise(parts, DASHES + boundary) + epilogue, boundary, rd);
            (r.Err? <==> exists i :: 0 <= i < |parts| && IsText(rd, parts[i]) && |parts[i].content| > rd.maxField)
            && (r.Err? ==> r.error == FieldTooLarge)
            && (r.Ok? ==>
                  (forall name :: name in r.value.fields <==> SomeNames(rd, parts, name))
                  && forall i :: 0 <= i < |parts| && IsText(rd, parts[i]) && LastNamed(rd, parts, i) ==>
                       r.value.fields[NameOf(rd, parts[i])] == rd.decode(parts[i].content))
  {
    RoundTrip(parts, boundary, rd, epilogue);
    var r := Collect(parts, rd, Form(map[], []));
    CollectedField(parts, rd, Form(map[], []), "");
    if r.Ok? {
      forall name ensures name in r.value.fields <==> SomeNames(rd, parts, name) {
        CollectedField(parts, rd, Form(map[], []), name);
      }
      forall i | 0 <= i < |parts| && IsText(rd, parts[i]) && LastNamed(rd, parts, i)
        ensures r.value.fields[NameOf(rd, parts[i])] == rd.decode(parts[i].content)
      {
        CollectedField(parts, rd, Form(map[], []), NameOf(rd, parts[i]));
      }
    }
  }

  // ---------------------------------------------------------------- any body at all

  /** What lies behind a delimiter: the close, or the first blank line within 16 KiB and the first
      delimiter line after it, or an error. */
  lemma ScanMeans(mm: seq<Byte>, delim: seq<Byte>, pos: nat)
    ensures var head := pos + |delim| + 2;
            match ScanPart(mm, delim, pos)
            case Close => TwoAt(mm, pos + |delim|, DASH, DASH)
            case Piece(h, hend, next) =>
              !TwoAt(mm, pos + |delim|, DASH, DASH) && h == head
              && FirstMatch(mm, BLANK, head, Some(hend)) && hend - head <= 16384
              && FirstAccepted(mm, CRLF + delim, hend + 4, Some(next))
            case Broken(e) =>
              !TwoAt(mm, pos + |delim|, DASH, DASH)
              && if e == BadHeaders then forall hend :: head <= hend <= head + 16384 ==> !Matches(mm, BLANK, hend)
                 else e == NotTerminated
                      && exists hend: nat :: FirstMatch(mm, BLANK, head, Some(hend)) && hend - head <= 16384
                                        && FirstAccepted(mm, CRLF + delim, hend + 4, None)
  {
    if !TwoAt(mm, pos + |delim|, DASH, DASH) {
      var head := pos + |delim| + 2;
      var found := Find(mm, BLANK, head);
      FindMeans(mm, BLANK, head, found);
      if found.Some? {
        FindDelimMeans(mm, CRLF + delim, found.value + 4, FindDelim(mm, CRLF + delim, found.value + 4));
      }
    }
  }

  /** The parts the scan finds from pos on, one behind the other, up to stop. */
  ghost predicate Trace(mm: seq<Byte>, scan: nat -> Scan, parts: seq<Part>, pos: nat, stop: nat)
    requires Advances(scan, |mm|)
    decreases |parts|
  {
    if parts == [] then pos == stop
    else
      scan(pos).Piece?
      && mm[scan(pos).head..scan(pos).hend] == parts[0].headers
      && mm[scan(pos).hend + 4..scan(pos).next] == parts[0].content
      && Trace(mm, scan, parts[1..], scan(pos).next + 2, stop)
  }

  /** Whatever the body: the split follows the scan to where it finds no further part, and is what
      collecting the parts on the way gives, or the scan's error there. */
  lemma {:induction false} SplitMeans(mm: seq<Byte>, scan: nat -> Scan, rd: Reader, pos: nat, form: Form)
    returns (parts: seq<Part>, stop: nat)
    requires pos <= |mm| && Advances(scan, |mm|)
    ensures Trace(mm, scan, parts, pos, stop)
    ensures var collected := Collect(parts, rd, form);
            if collected.Err? then SplitFrom(mm, scan, rd, pos, form) == collected
            else !scan(stop).Piece?
                 && SplitFrom(mm, scan, rd, pos, form)
                    == if scan(stop).Close? then collected else Err(scan(stop).error)
    decreases |mm| - pos
  {
    if scan(pos).Piece? {
      var part := Part(mm[scan(pos).head..scan(pos).hend], mm[scan(pos).hend + 4..scan(pos).next]);
      var stored := Store(form, rd, part.headers, part.content);
      var next := scan(pos).next + 2;
      if stored.Err? {
        parts, stop := [part], next;
      } else {
        var rest;
        rest, stop := SplitMeans(mm, scan, rd, next, stored.value);
        parts := [part] + rest;
        assert parts[1..] == rest;
      }
    } else {
      parts, stop := [], pos;
    }
  }

  /** Nothing is split without a boundary, a body and a first delimiter line. */
  lemma SplitRefuses(mm: seq<Byte>, boundary: seq<Byte>, rd: Reader)
    ensures boundary == [] ==> Split(mm, boundary, rd) == Err(NoBoundary)
    ensures boundary != [] && mm == [] ==> Split(mm, boundary, rd) == Err(EmptyBody)
    ensures boundary != [] && mm != [] && FirstAccepted(mm, DASHES + boundary, 0, None) ==>
              Split(mm, boundary, rd) == Err(NotTerminated)
    ensures forall first: nat :: boundary != [] && FirstAccepted(mm, DASHES + boundary, 0, Some(first)) ==>
              first <= |mm|
              && Split(mm, boundary, rd)
                 == SplitFrom(mm, Scanner(mm, DASHES + boundary), rd, first, Form(map[], []))
  {
    FindDelimMeans(mm, DASHES + boundary, 0, None);
    forall first: nat | boundary != [] && FirstAccepted(mm, DASHES + boundary, 0, Some(first))
      ensures first <= |mm| && mm != []
      ensures Split(mm, boundary, rd) == SplitFrom(mm, Scanner(mm, DASHES + boundary), rd, first, Form(map[], []))
    {
      FindDelimMeans(mm, DASHES + boundary, 0, Some(first));
    }
  }
}
