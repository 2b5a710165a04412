/** The response builder and its printed form, with a reader for a stream of responses. */
module HttpResponse {
  import opened Text
  import opened HeaderBlock

  const CONTENT_LENGTH := "Content-Length"

  // ---------------------------------------------------------------- fields in key order

  /** `std::string` comparison. */
  predicate LexLess(a: string, b: string) {
    if b == "" then false
    else if a == "" then true
    else a[0] < b[0] || (a[0] == b[0] && LexLess(a[1..], b[1..]))
  }

  lemma {:induction false} LexTotal(a: string, b: string)
    ensures LexLess(a, b) || a == b || LexLess(b, a)
    ensures !LexLess(a, a)
  {
    if a != "" {
      LexTotal(a[1..], a[1..]);
      if b != "" {
        LexTotal(a[1..], b[1..]);
        if a[0] == b[0] && a[1..] == b[1..] {
          assert a == [a[0]] + a[1..] == b;
        }
      }
    }
  }

  lemma {:induction false} LexTransitive(a: string, b: string, c: string)
    requires LexLess(a, b) && LexLess(b, c)
    ensures LexLess(a, c)
  {
    if a != "" && a[0] == b[0] && b[0] == c[0] {
      LexTransitive(a[1..], b[1..], c[1..]);
    }
  }

  /** The iteration order of `std::map`: keys strictly ascending, hence distinct. */
  predicate Ordered(h: FieldList) {
    forall i, j :: 0 <= i < j < |h| ==> LexLess(h[i].0, h[j].0)
  }

  /** `_headers[key] = value`. */
  function Put(h: FieldList, key: string, value: string): (r: FieldList)
    ensures forall f :: f in r ==> f in h || f == (key, value)
  {
    if h == [] then [(key, value)]
    else if h[0].0 == key then [(key, value)] + h[1..]
    else if LexLess(key, h[0].0) then [(key, value)] + h
    else [h[0]] + Put(h[1..], key, value)
  }

  lemma {:induction false} PutKeepsOrder(h: FieldList, key: string, value: string)
    requires Ordered(h)
    ensures Ordered(Put(h, key, value))
  {
    if h != [] {
      LexTotal(key, h[0].0);
      if h[0].0 == key {
        forall j | 1 <= j < |h| ensures LexLess(key, h[j].0) {}
      } else if LexLess(key, h[0].0) {
        forall j | 1 <= j < |h| ensures LexLess(key, h[j].0) {
          LexTransitive(key, h[0].0, h[j].0);
        }
      } else {
        var t := Put(h[1..], key, value);
        PutKeepsOrder(h[1..], key, value);
        forall j | 0 <= j < |t| ensures LexLess(h[0].0, t[j].0) {
          if t[j] != (key, value) {
            assert t[j] in h[1..];
          }
        }
      }
    }
  }

  lemma {:induction false} MapOfAbsentKey(h: FieldList, acc: Fields, key: string, value: string)
    requires forall f :: f in h ==> f.0 != key
    ensures MapOf(h, acc[key := value]) == MapOf(h, acc)[key := value]
  {
    if h != [] {
      assert h[0] in h;
      assert acc[key := value][h[0].0 := h[0].1] == acc[h[0].0 := h[0].1][key := value];
      MapOfAbsentKey(h[1..], acc[h[0].0 := h[0].1], key, value);
    }
  }

  /** Insertion in key order is map update. */
  lemma {:induction false} MapOfPut(h: FieldList, acc: Fields, key: string, value: string)
    requires Ordered(h)
    ensures MapOf(Put(h, key, value), acc) == MapOf(h, acc)[key := value]
  {
    if h != [] {
      LexTotal(key, h[0].0);
      if h[0].0 == key {
        forall f | f in h[1..] ensures f.0 != key { LexTotal(f.0, f.0); }
        assert acc[key := h[0].1][key := value] == acc[key := value];
        MapOfAbsentKey(h[1..], acc[key := h[0].1], key, value);
      } else if LexLess(key, h[0].0) {
        forall f | f in h ensures f.0 != key {
          var j :| 0 <= j < |h| && h[j] == f;
          LexTotal(f.0, f.0);
          if j > 0 { LexTransitive(key, h[0].0, h[j].0); }
        }
        assert Put(h, key, value)[1..] == h;
        MapOfAbsentKey(h, acc, key, value);
      } else {
        assert Put(h, key, value)[1..] == Put(h[1..], key, value);
        MapOfPut(h[1..], acc[h[0].0 := h[0].1], key, value);
      }
    }
  }

  // ---------------------------------------------------------------- the printed form

  function Reason(code: nat): string {
    match code
    case 200 => "OK"
    case 400 => "Bad Request"
    case 404 => "Not Found"
    case 405 => "Method Not Allowed"
    case 413 => "Payload Too Large"
    case 431 => "Request Header Fields Too Large"
    case 501 => "Not Implemented"
    case _ => "Unknown"
  }

  function StatusLine(code: nat): string { "HTTP/1.1 " + Decimal(code) + " " + Reason(code) }

  class HttpResponse {
    var statusCode: nat
    var statusMessage: string
    var version: string
    var headers: FieldList
    var body: string
    var hasFile: bool
    var filePath: string

    ghost predicate Valid()
      reads this
    {
      Ordered(headers) && version == "HTTP/1.1" && statusMessage == Reason(statusCode)
    }

    constructor ()
      ensures Valid() && statusCode == 200 && headers == [] && body == "" && !hasFile
    {
      statusCode, statusMessage, version := 200, "OK", "HTTP/1.1";
      headers, body, hasFile, filePath := [], "", false, "";
    }

    method SetStatus(code: nat)
      requires Valid()
      modifies this`statusCode, this`statusMessage
      ensures Valid() && statusCode == code
    {
      statusCode := code;
      statusMessage := Reason(code);
    }

    method AddHeader(key: string, value: string)
      requires Valid()
      modifies this`headers
      ensures Valid() && headers == Put(old(headers), key, value)
    {
      PutKeepsOrder(headers, key, value);
      headers := Put(headers, key, value);
    }

    method SetBody(text: string)
      requires Valid()
      modifies this`body, this`headers
      ensures Valid() && body == text
      ensures headers == Put(old(headers), CONTENT_LENGTH, Decimal(|text|))
    {
      body := text;
      AddHeader(CONTENT_LENGTH, Decimal(|body|));
    }

    method SetFile(path: string)
      modifies this`hasFile, this`filePath
      ensures hasFile && filePath == path
    {
      hasFile := true;
      filePath := path;
    }

    /** Status line, fields and blank line. */
    method ToStringHeaders() returns (text: string)
      requires Valid()
      ensures text == RenderHead(StatusLine(statusCode), headers)
    {
      hide Terminated, FieldLines, Decimal;
      text := version + " " + Decimal(statusCode) + " " + statusMessage + CRLF;
      ghost var start, lines := StatusLine(statusCode) + CRLF, FieldLines(headers);
      assert text == start;
      var i := 0;
      NoLines();
      assert lines[..0] == [];
      while i < |headers|
        invariant i <= |headers|
        invariant text == start + Terminated(lines[..i])
      {
        TerminatedSnoc(lines[..i], lines[i]);
        assert lines[..i] + [lines[i]] == lines[..i + 1];
        assert lines[i] == FieldLine(headers[i]);
        text := text + headers[i].0 + ": " + headers[i].1 + CRLF;
        i := i + 1;
      }
      assert lines[..i] == lines;
      text := text + CRLF;
    }

    /** The whole message, body included. */
    method ToString() returns (text: string)
      requires Valid()
      ensures text == RenderHead(StatusLine(statusCode), headers) + body
    {
      text := ToStringHeaders();
      text := text + body;
    }
  }

  lemma NoLines()
    ensures Terminated([]) == ""
  {
  }

  lemma {:induction false} TerminatedSnoc(lines: seq<string>, last: string)
    ensures Terminated(lines + [last]) == Terminated(lines) + last + CRLF
  {
    if lines == [] {
      assert lines + [last] == [last];
      assert [last][1..] == [];
    } else {
      assert (lines + [last])[1..] == lines[1..] + [last];
      TerminatedSnoc(lines[1..], last);
    }
  }

  // ---------------------------------------------------------------- reading a stream of responses

  datatype Message = Message(statusLine: string, fields: Fields, body: string)

  /** The first message of a stream, framed by its blank line and then by Content-Length
      (sections 3 and 3.3.3 of RFC 7230), and what follows it. */
  function DecodeOne(s: string): Option<(Message, string)> {
    var e := Find(s, BLANK_LINE, 0);
    if e == NPOS then None
    else
      var lines := SplitOn(s[..e], CRLF);
      match FoldFields(lines[1..], map[])
      case None => None
      case Some(fields) =>
        var cl := Lookup(fields, CONTENT_LENGTH);
        if cl == "" || !AllDigits(cl) then None
        else
          var end := e + 4 + DecimalValue(cl);
          if end > |s| then None
          else Some((Message(lines[0], fields, s[e + 4..end]), s[end..]))
  }

  /** All messages of a stream; None when it does not split into whole messages. */
  function Decode(s: string): Option<seq<Message>>
    decreases |s|
  {
    if s == "" then Some([])
    else match DecodeOne(s)
      case None => None
      case Some((m, rest)) =>
        if |rest| >= |s| then None
        else match Decode(rest)
          case None => None
          case Some(ms) => Some([m] + ms)
  }

  /** Decoding, from what is known of the head. */
  lemma DecodeFromHead(head: string, first: string, fields: FieldList, body: string, rest: string)
    requires |head| >= 4
    requires var s := head + body + rest;
             && Find(s, BLANK_LINE, 0) == |head| - 4
             && SplitOn(s[..|head| - 4], CRLF) == [first] + FieldLines(fields)
    requires FoldFields(FieldLines(fields), map[]) == Some(MapOf(fields, map[]))
    requires Lookup(MapOf(fields, map[]), CONTENT_LENGTH) == Decimal(|body|)
    ensures DecodeOne(head + body + rest) == Some((Message(first, MapOf(fields, map[]), body), rest))
  {
    hide Find, SplitOn, FoldFields, FieldLines, MapOf, Decimal, DecimalValue, Lookup;
    DecimalRoundTrip(|body|);
    CutMiddle(head, body, rest);
    var lines := [first] + FieldLines(fields);
    assert lines[0] == first && lines[1..] == FieldLines(fields);
  }

  /** A printed message whose Content-Length is the size of its body is read back whole. */
  lemma DecodePrinted(first: string, fields: FieldList, body: string, rest: string)
    requires '\r' !in first && CleanFields(fields)
    requires Lookup(MapOf(fields, map[]), CONTENT_LENGTH) == Decimal(|body|)
    ensures DecodeOne(RenderHead(first, fields) + body + rest) == Some((Message(first, MapOf(fields, map[]), body), rest))
  {
    hide DecodeOne, Find, SplitOn, FoldFields, FieldLines, MapOf, Decimal, Lookup, CleanFields;
    var head := RenderHead(first, fields);
    ReadRenderedHead(first, fields, body + rest);
    assert head + (body + rest) == head + body + rest;
    DecodeFromHead(head, first, fields, body, rest);
  }
}
