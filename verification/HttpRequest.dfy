/** The request parser. `Reading` says what one call on an accumulated buffer must find;
    the class does it with in-place fields and loops. */
module HttpRequest {
  import opened Text
  import opened HeaderBlock

  const MAX_REQUEST_LINE: nat := 8192
  const MAX_HEADER_TOTAL: nat := 65536
  const MAX_BODY: nat := 16 * 1024 * 1024
  const ULLONG_MAX: nat := 0xFFFF_FFFF_FFFF_FFFF

  datatype Request = Request(
    verb: string,
    path: string,
    version: string,
    headers: Fields,
    query: Fields,
    body: string,
    keepAlive: bool
  )

  /** What a buffer holds: not yet a whole request (`awaiting` bytes are needed, 0 while the
      blank line is missing), a protocol error, or a request of `consumed` bytes. */
  datatype Reading =
    | NeedMore(awaiting: nat)
    | Failed(code: nat)
    | Complete(request: Request, consumed: nat)

  datatype HeadReading = BadHead(code: nat) | GoodHead(request: Request, bodyLength: nat)

  // ---------------------------------------------------------------- specification

  datatype RequestLine = RequestLine(verb: string, target: string, version: string)

  /** Three words separated by white space; anything after them is ignored. */
  function WordsOf(line: string): Option<RequestLine> {
    var s1 := SkipSpace(line);
    var verb := LeadingWord(s1);
    var s2 := SkipSpace(s1[|verb|..]);
    var target := LeadingWord(s2);
    var s3 := SkipSpace(s2[|target|..]);
    var version := LeadingWord(s3);
    if verb == "" || target == "" || version == "" then None
    else Some(RequestLine(verb, target, version))
  }

  function RequestLineOf(line: string): Option<RequestLine> {
    match WordsOf(line)
    case None => None
    case Some(w) => if w.target[0] == '/' && "HTTP/" <= w.version then Some(w) else None
  }

  /** One `key=value` item; an empty item adds nothing and a bare key has an empty value. */
  function AddQueryItem(item: string, acc: Fields): Fields {
    var eq := Find(item, "=", 0);
    if eq != NPOS then acc[item[..eq] := item[eq + 1..]]
    else if item != "" then acc[item := ""]
    else acc
  }

  function FoldQuery(items: seq<string>, acc: Fields): Fields {
    if items == [] then acc else FoldQuery(items[1..], AddQueryItem(items[0], acc))
  }

  function PathOf(target: string): string {
    var q := Find(target, "?", 0);
    if q == NPOS then target else target[..q]
  }

  function QueryOf(target: string): Fields {
    var q := Find(target, "?", 0);
    if q == NPOS then map[] else FoldQuery(SplitOn(target[q + 1..], "&"), map[])
  }

  function BodyLengthOf(fields: Fields): Option<nat> {
    var cl := Lookup(fields, "Content-Length");
    if cl == "" then Some(0)
    else if !AllDigits(cl) || DecimalValue(cl) > ULLONG_MAX then None
    else Some(DecimalValue(cl))
  }

  function KeepAliveOf(version: string, fields: Fields): bool {
    if version == "HTTP/1.1" then Lookup(fields, "Connection") != "close"
    else Lookup(fields, "Connection") == "keep-alive"
  }

  /** Everything before the blank line, in the order in which errors are detected. */
  function HeadOf(head: string): HeadReading {
    var lines := SplitOn(head, CRLF);
    if |lines[0]| > MAX_REQUEST_LINE then BadHead(431)
    else match RequestLineOf(lines[0])
      case None => BadHead(400)
      case Some(line) =>
        match FoldFields(lines[1..], map[])
        case None => BadHead(400)
        case Some(fields) => FramingOf(line, fields)
  }

  /** What the fields say about the length of the body. */
  function FramingOf(line: RequestLine, fields: Fields): HeadReading {
    match BodyLengthOf(fields)
    case None => BadHead(400)
    case Some(n) =>
      if n > MAX_BODY then BadHead(413)
      else if Lookup(fields, "Transfer-Encoding") !in {"", "identity"} then BadHead(501)
      else GoodHead(
        Request(line.verb, PathOf(line.target), line.version, fields, QueryOf(line.target), "",
                KeepAliveOf(line.version, fields)), n)
  }

  function ReadingOf(raw: string): (r: Reading)
    ensures r.Complete? ==> 4 <= r.consumed <= |raw|
  {
    var e := Find(raw, BLANK_LINE, 0);
    if e == NPOS then
      if |raw| > MAX_HEADER_TOTAL then Failed(431) else NeedMore(0)
    else WithBody(raw, e, HeadOf(raw[..e]))
  }

  function WithBody(raw: string, e: nat, head: HeadReading): Reading {
    match head
    case BadHead(code) => Failed(code)
    case GoodHead(request, n) =>
      var total := e + 4 + n;
      if |raw| < total then NeedMore(total)
      else Complete(request.(body := raw[e + 4..total]), total)
  }

  // ---------------------------------------------------------------- the parser object

  datatype ParseResult = NEED_MORE | OK | ERROR

  class HttpRequest {
    var verb: string
    var path: string
    var version: string
    var headers: Fields
    var queryParams: Fields
    var body: string
    var keepAlive: bool
    var errorCode: int

    function Contents(): Request
      reads this
    {
      Request(verb, path, version, headers, queryParams, body, keepAlive)
    }

    constructor ()
      ensures Contents() == Request("", "", "", map[], map[], "", false) && errorCode == 400
    {
      verb, path, version, body := "", "", "", "";
      headers, queryParams := map[], map[];
      keepAlive, errorCode := false, 400;
    }

    method Clear()
      modifies this
      ensures Contents() == Request("", "", "", map[], map[], "", false) && errorCode == 400
    {
      verb, path, version, body := "", "", "", "";
      headers, queryParams := map[], map[];
      keepAlive, errorCode := false, 400;
    }

    method ParseQueryParams(queryString: string)
      modifies this`queryParams
      ensures queryParams == FoldQuery(SplitOn(queryString, "&"), old(queryParams))
    {
      var rest := queryString;
      ghost var all := SplitOn(queryString, "&");
      ghost var before := queryParams;
      while true
        invariant FoldQuery(SplitOn(rest, "&"), queryParams) == FoldQuery(all, before)
        decreases |rest|
      {
        ghost var pieces := SplitOn(rest, "&");
        var amp := Find(rest, "&", 0);
        var pair := if amp == NPOS then rest else rest[..amp];
        var eq := Find(pair, "=", 0);
        if eq != NPOS {
          queryParams := queryParams[pair[..eq] := pair[eq + 1..]];
        } else if pair != "" {
          queryParams := queryParams[pair := ""];
        }
        assert pieces[0] == pair;
        if amp == NPOS {
          assert pieces[1..] == [];
          break;
        }
        assert pieces[1..] == SplitOn(rest[amp + 1..], "&");
        rest := rest[amp + 1..];
      }
    }

    method ParseRequestLine(line: string) returns (ok: bool)
      modifies this`verb, this`path, this`version, this`queryParams
      ensures ok == RequestLineOf(line).Some?
      ensures ok ==>
        var w := RequestLineOf(line).value;
        && verb == w.verb && version == w.version && path == PathOf(w.target)
        && queryParams == (if Find(w.target, "?", 0) == NPOS then old(queryParams)
                           else FoldQuery(SplitOn(w.target[Find(w.target, "?", 0) + 1..], "&"), old(queryParams)))
    {
      var words := WordsOf(line);
      if words.None? { return false; }
      verb, path, version := words.value.verb, words.value.target, words.value.version;
      if path[0] != '/' { return false; }
      if !("HTTP/" <= version) { return false; }
      var q := Find(path, "?", 0);
      if q != NPOS {
        ParseQueryParams(path[q + 1..]);
        path := path[..q];
      }
      return true;
    }

    method ParseHeaderLine(line: string) returns (ok: bool)
      modifies this`headers
      ensures ok == FieldOf(line).Some?
      ensures headers == if ok then old(headers)[FieldOf(line).value.0 := FieldOf(line).value.1] else old(headers)
    {
      var colon := Find(line, ":", 0);
      if colon == NPOS { return false; }
      var key := line[..colon];
      var value := Trim(line[colon + 1..]);
      if key == "" { return false; }
      headers := headers[key := value];
      return true;
    }

    /** The header loop. Its two `break`s are never taken: see `HeaderLine`. */
    method ParseHeaderFields(raw: string, start: nat, headerEnd: nat) returns (ok: bool)
      requires headerEnd == Find(raw, BLANK_LINE, 0) && LineStart(raw, start) && start > 0
      modifies this`headers
      ensures ok == FoldFields(LinesFrom(raw, start), old(headers)).Some?
      ensures ok ==> FoldFields(LinesFrom(raw, start), old(headers)) == Some(headers)
    {
      hide Find, MatchAt, LineStart, SplitOn, FieldOf;
      var pos := start;
      ghost var left := LinesFrom(raw, pos);
      ghost var goal := FoldFields(left, headers);
      ok := true;
      while pos < headerEnd
        invariant LineStart(raw, pos) && pos > 0 && ok
        invariant left == LinesFrom(raw, pos)
        invariant FoldFields(left, headers) == goal
      {
        HeaderStep(raw, pos);
        var eol := Find(raw, CRLF, pos);
        if eol == NPOS || eol > headerEnd { break; }
        if eol == pos { break; }
        ok := ParseHeaderLine(raw[pos..eol]);
        if !ok { return; }
        left := left[1..];
        pos := eol + 2;
      }
    }

    /** The object and the results of a call say exactly what `reading` says. */
    ghost predicate Reports(result: ParseResult, consumed: nat, reading: Reading)
      reads this
    {
      match reading
      case NeedMore(n) => result == NEED_MORE && consumed == n
      case Failed(code) => result == ERROR && errorCode == code && consumed == 0
      case Complete(request, n) => result == OK && Contents() == request && consumed == n
    }

    /** Body length, transfer encoding, body and keep-alive: steps 4 and 5 of `Parse`. */
    method ParseBody(raw: string, headerEnd: nat, ghost line: RequestLine) returns (result: ParseResult, consumed: nat)
      requires headerEnd + 4 <= |raw| && errorCode == 400
      requires verb == line.verb && path == PathOf(line.target) && version == line.version
      requires queryParams == QueryOf(line.target)
      modifies this`body, this`keepAlive, this`errorCode
      ensures Reports(result, consumed, WithBody(raw, headerEnd, FramingOf(line, headers)))
    {
      consumed := 0;
      var bodyLength := 0;
      var cl := Lookup(headers, "Content-Length");
      if cl != "" {
        if !AllDigits(cl) { return ERROR, consumed; }
        if DecimalValue(cl) > ULLONG_MAX { return ERROR, consumed; }
        bodyLength := DecimalValue(cl);
        if bodyLength > MAX_BODY {
          errorCode := 413;
          return ERROR, consumed;
        }
      }
      var te := Lookup(headers, "Transfer-Encoding");
      if te != "" && te != "identity" {
        errorCode := 501;
        return ERROR, consumed;
      }

      consumed := headerEnd + 4 + bodyLength;
      if |raw| < consumed { return NEED_MORE, consumed; }
      body := raw[headerEnd + 4..consumed];
      var conn := Lookup(headers, "Connection");
      keepAlive := if version == "HTTP/1.1" then conn != "close" else conn == "keep-alive";
      return OK, consumed;
    }

    /** One complete request from the accumulated buffer, or why there is none. */
    method Parse(raw: string) returns (result: ParseResult, consumed: nat)
      modifies this
      ensures Reports(result, consumed, ReadingOf(raw))
    {
      hide Find, SplitOn, FoldFields, LineStart, LinesFrom, RequestLineOf, FramingOf;
      Clear();
      consumed := 0;

      var headerEnd := Find(raw, BLANK_LINE, 0);
      if headerEnd == NPOS {
        if |raw| > MAX_HEADER_TOTAL {
          errorCode := 431;
          return ERROR, consumed;
        }
        return NEED_MORE, consumed;
      }
      FirstLine(raw);
      ghost var head := HeadOf(raw[..headerEnd]);
      ghost var lines := SplitOn(raw[..headerEnd], CRLF);
      assert ReadingOf(raw) == WithBody(raw, headerEnd, head);
      var lineEnd := Find(raw, CRLF, 0);
      if lineEnd == NPOS || lineEnd > MAX_REQUEST_LINE {
        errorCode := 431;
        assert head == BadHead(431);
        return ERROR, consumed;
      }
      var ok := ParseRequestLine(raw[..lineEnd]);
      if !ok {
        assert head == BadHead(400);
        return ERROR, consumed;
      }
      ok := ParseHeaderFields(raw, lineEnd + 2, headerEnd);
      if !ok {
        assert head == BadHead(400);
        return ERROR, consumed;
      }
      ghost var line := RequestLineOf(lines[0]).value;
      assert head == FramingOf(line, headers);
      assert queryParams == QueryOf(line.target);
      result, consumed := ParseBody(raw, headerEnd, line);
    }
  }

  // ---------------------------------------------------------------- why the header loop is exact

  /** Where the header loop may stand: at the start of a line of the header block, or just
      past the last one. */
  predicate LineStart(raw: string, pos: nat) {
    var e := Find(raw, BLANK_LINE, 0);
    && e != NPOS
    && (pos < e || pos == e + 2)
    && (pos == 0 || (pos >= 2 && MatchAt(raw, CRLF, pos - 2)))
  }

  function LinesFrom(raw: string, pos: nat): seq<string> {
    var e := Find(raw, BLANK_LINE, 0);
    if pos < e <= |raw| then SplitOn(raw[pos..e], CRLF) else []
  }

  lemma TwoBreaks(raw: string, i: nat)
    requires MatchAt(raw, CRLF, i) && MatchAt(raw, CRLF, i + 2)
    ensures MatchAt(raw, BLANK_LINE, i)
  {
    assert raw[i..i + 4] == raw[i..i + 2] + raw[i + 2..i + 4];
  }

  lemma CrlfChars(raw: string, i: nat)
    requires MatchAt(raw, CRLF, i)
    ensures raw[i] == '\r' && raw[i + 1] == '\n'
  {
    assert raw[i..i + 2][0] == raw[i] && raw[i..i + 2][1] == raw[i + 1];
  }

  lemma BlankLineIsTwoBreaks(raw: string, e: nat)
    requires MatchAt(raw, BLANK_LINE, e)
    ensures MatchAt(raw, CRLF, e) && MatchAt(raw, CRLF, e + 2)
  {
    assert raw[e..e + 2] == raw[e..e + 4][..2];
    assert raw[e + 2..e + 4] == raw[e..e + 4][2..];
  }

  /** From any line start before the blank line the next CRLF lies at or before it, and never
      at the line start itself, so neither early exit of the header loop can be taken. */
  lemma NextLineEnd(raw: string, pos: nat)
    requires pos == 0 || (LineStart(raw, pos) && pos < Find(raw, BLANK_LINE, 0))
    requires Find(raw, BLANK_LINE, 0) != NPOS
    ensures var eol := Find(raw, CRLF, pos);
            && pos <= eol <= Find(raw, BLANK_LINE, 0)
            && (pos > 0 ==> eol != pos)
            && LineStart(raw, eol + 2)
  {
    hide Find;
    var e := Find(raw, BLANK_LINE, 0);
    var eol := Find(raw, CRLF, pos);
    BlankLineIsTwoBreaks(raw, e);
    assert eol <= e;
    CrlfChars(raw, e);
    CrlfChars(raw, eol);
    if pos > 0 && eol == pos {
      TwoBreaks(raw, pos - 2);
    }
    if eol + 2 == e {
      TwoBreaks(raw, eol);
    }
  }

  /** Cutting off text that starts at or after the first match leaves it the first match. */
  lemma FindInPiece(raw: string, pos: nat, e: nat)
    requires pos <= e <= |raw|
    requires var eol := Find(raw, CRLF, pos); pos <= eol && (eol + 2 <= e || eol == e)
    ensures var eol := Find(raw, CRLF, pos);
            Find(raw[pos..e], CRLF, 0) == if eol == e then NPOS else eol - pos
  {
    hide Find;
    var eol := Find(raw, CRLF, pos);
    var piece := raw[pos..e];
    forall j | 0 <= j < eol - pos ensures !MatchAt(piece, CRLF, j) {
      if j + 2 <= |piece| {
        SliceOfSlice(raw, pos, e, j, j + 2);
        assert !MatchAt(raw, CRLF, pos + j);
      }
    }
    if eol < e {
      SliceOfSlice(raw, pos, e, eol - pos, eol - pos + 2);
      assert MatchAt(piece, CRLF, eol - pos);
    }
  }

  /** The line that the header loop cuts out is the next piece of the header block. */
  lemma HeaderLine(raw: string, pos: nat)
    requires pos == 0 || (LineStart(raw, pos) && pos < Find(raw, BLANK_LINE, 0))
    requires Find(raw, BLANK_LINE, 0) != NPOS
    ensures var e := Find(raw, BLANK_LINE, 0);
            var eol := Find(raw, CRLF, pos);
            && pos <= eol <= e
            && (pos > 0 ==> eol != pos)
            && LineStart(raw, eol + 2)
            && SplitOn(raw[pos..e], CRLF) == [raw[pos..eol]] + LinesFrom(raw, eol + 2)
  {
    hide Find;
    var e := Find(raw, BLANK_LINE, 0);
    var eol := Find(raw, CRLF, pos);
    NextLineEnd(raw, pos);
    LineThenRest(raw, pos, eol, e);
  }

  lemma LineThenRest(raw: string, pos: nat, eol: nat, e: nat)
    requires e == Find(raw, BLANK_LINE, 0) && eol == Find(raw, CRLF, pos)
    requires pos <= eol && (eol == e || eol + 2 < e)
    ensures SplitOn(raw[pos..e], CRLF) == [raw[pos..eol]] + LinesFrom(raw, eol + 2)
  {
    hide Find;
    FindInPiece(raw, pos, e);
    if eol < e {
      SplitPiece(raw, pos, eol, e);
    }
  }

  lemma SplitPiece(raw: string, pos: nat, eol: nat, e: nat)
    requires pos <= eol && eol + 2 <= e <= |raw|
    requires Find(raw[pos..e], CRLF, 0) == eol - pos
    ensures SplitOn(raw[pos..e], CRLF) == [raw[pos..eol]] + SplitOn(raw[eol + 2..e], CRLF)
  {
    hide Find;
    SliceOfSlice(raw, pos, e, 0, eol - pos);
    SliceOfSlice(raw, pos, e, eol + 2 - pos, e - pos);
    assert raw[pos..e][eol + 2 - pos..] == raw[pos..e][eol + 2 - pos..e - pos];
  }

  lemma HeaderStep(raw: string, pos: nat)
    requires LineStart(raw, pos) && 0 < pos < Find(raw, BLANK_LINE, 0)
    ensures var eol := Find(raw, CRLF, pos);
            && pos < eol <= Find(raw, BLANK_LINE, 0) && eol + 2 <= |raw|
            && LineStart(raw, eol + 2)
            && LinesFrom(raw, pos) != []
            && LinesFrom(raw, pos)[0] == raw[pos..eol]
            && LinesFrom(raw, pos)[1..] == LinesFrom(raw, eol + 2)
  {
    HeaderLine(raw, pos);
  }

  lemma FirstLine(raw: string)
    requires Find(raw, BLANK_LINE, 0) != NPOS
    ensures var e := Find(raw, BLANK_LINE, 0);
            var eol := Find(raw, CRLF, 0);
            && 0 <= eol <= e && eol + 2 <= |raw|
            && LineStart(raw, eol + 2)
            && SplitOn(raw[..e], CRLF)[0] == raw[..eol]
            && SplitOn(raw[..e], CRLF)[1..] == LinesFrom(raw, eol + 2)
  {
    hide Find, LineStart;
    var e := Find(raw, BLANK_LINE, 0);
    HeaderLine(raw, 0);
    assert raw[0..e] == raw[..e];
  }
}
