/** What the parser's specification promises about buffers that grow, and about requests
    that were printed in the form of section 3 of RFC 7230. */
module RequestTheorems {
  import opened Text
  import opened HeaderBlock
  import opened HttpRequest

  // ---------------------------------------------------------------- growing buffers

  predicate HasBlankLine(raw: string) { Find(raw, BLANK_LINE, 0) != NPOS }

  function HeaderEnd(raw: string): int { Find(raw, BLANK_LINE, 0) }

  /** Once the blank line is there, later bytes can only complete the body. */
  lemma HeadSettled(raw: string, ext: string)
    requires HasBlankLine(raw)
    ensures HeaderEnd(raw + ext) == HeaderEnd(raw)
    ensures ReadingOf(raw + ext) == WithBody(raw + ext, HeaderEnd(raw), HeadOf(raw[..HeaderEnd(raw)]))
    ensures !ReadingOf(raw).NeedMore? ==> ReadingOf(raw + ext) == ReadingOf(raw)
    ensures ReadingOf(raw).NeedMore? ==>
      var n := ReadingOf(raw).awaiting;
      && n > |raw|
      && if |raw + ext| < n then ReadingOf(raw + ext) == NeedMore(n)
         else ReadingOf(raw + ext).Complete? && ReadingOf(raw + ext).consumed == n
  {
    hide Find, HeadOf;
    var e := HeaderEnd(raw);
    FindStable(raw, BLANK_LINE, 0, ext);
    assert (raw + ext)[..e] == raw[..e];
    match ReadingOf(raw)
    case Complete(request, n) => assert (raw + ext)[e + 4..n] == raw[e + 4..n];
    case _ =>
  }

  /** The code 431 is given after the blank line only for an overlong request line. */
  lemma OnlyLongLineIs431(raw: string)
    requires HasBlankLine(raw)
    ensures ReadingOf(raw) == Failed(431) <==> Find(raw, CRLF, 0) > MAX_REQUEST_LINE
  {
    hide Find, LineStart, LinesFrom;
    FirstLine(raw);
  }

  /** The bytes read so far already show a request line over the limit. */
  predicate LineTooLong(raw: string) {
    var eol := Find(raw, CRLF, 0);
    eol == NPOS || eol > MAX_REQUEST_LINE
  }

  lemma LineTooLongGrows(raw: string, ext: string)
    requires |raw| > MAX_HEADER_TOTAL
    ensures LineTooLong(raw + ext) <==> LineTooLong(raw)
  {
    if Find(raw, CRLF, 0) == NPOS {
      FindGrows(raw, CRLF, ext);
    } else {
      FindStable(raw, CRLF, 0, ext);
    }
  }

  lemma AppendedBlankLineIsFound(raw: string)
    ensures HasBlankLine(raw + BLANK_LINE)
  {
    assert (raw + BLANK_LINE)[|raw|..|raw| + 4] == BLANK_LINE;
    assert MatchAt(raw + BLANK_LINE, BLANK_LINE, |raw|);
  }

  /** A verdict that no further byte can change. */
  ghost predicate Final(raw: string) {
    forall ext: string {:trigger raw + ext} :: ReadingOf(raw + ext) == ReadingOf(raw)
  }

  /** Exactly which verdicts are final: a complete request, an error found after the blank
      line, and the size error only when the request line alone is already over its limit. */
  lemma FinalVerdicts(raw: string)
    ensures Final(raw) <==>
      match ReadingOf(raw)
      case NeedMore(_) => false
      case Complete(_, _) => true
      case Failed(_) => HasBlankLine(raw) || LineTooLong(raw)
  {
    hide Find, HeadOf;
    if HasBlankLine(raw) {
      forall ext: string ensures !ReadingOf(raw).NeedMore? ==> ReadingOf(raw + ext) == ReadingOf(raw) {
        HeadSettled(raw, ext);
      }
      if ReadingOf(raw).NeedMore? {
        var ext := seq(ReadingOf(raw).awaiting, _ => 'x');
        HeadSettled(raw, ext);
        assert ReadingOf(raw + ext) != ReadingOf(raw);
      }
    } else {
      AppendedBlankLineIsFound(raw);
      if |raw| <= MAX_HEADER_TOTAL {
        AwaitingBodyIsPositive(raw + BLANK_LINE);
        assert ReadingOf(raw + BLANK_LINE) != ReadingOf(raw);
      } else if LineTooLong(raw) {
        forall ext: string ensures ReadingOf(raw + ext) == ReadingOf(raw) {
          LineTooLongGrows(raw, ext);
          if HasBlankLine(raw + ext) {
            OnlyLongLineIs431(raw + ext);
            FirstLine(raw + ext);
          }
        }
      } else {
        LineTooLongGrows(raw, BLANK_LINE);
        OnlyLongLineIs431(raw + BLANK_LINE);
        assert ReadingOf(raw + BLANK_LINE) != ReadingOf(raw);
      }
    }
  }

  /** A request whose only field alone exceeds the header limit, its blank line still to come. */
  function LongHeader(): string { "GET / HTTP/1.1" + CRLF + "X: " + seq(70000, _ => 'x') }

  lemma LongHeaderLine()
    ensures Find(LongHeader(), CRLF, 0) == 14 && !HasBlankLine(LongHeader()) && |LongHeader()| > MAX_HEADER_TOTAL
  {
    hide Find;
    var line, field := "GET / HTTP/1.1", "X: " + seq(70000, _ => 'x');
    var s := LongHeader();
    assert s == line + CRLF + field;
    FindAfterPart(line, CRLF, field);
    assert forall c :: c in field ==> c != '\r';
    forall j | 0 <= j < |s| ensures !MatchAt(s, BLANK_LINE, j) {
      if s[j] == '\r' {
        assert j == 14 && s[16] == 'X';
        assert j + 4 <= |s| ==> s[j..j + 4][2] == s[16];
      } else {
        NoMatchByFirst(s, BLANK_LINE, j);
      }
    }
  }

  /** There is a verdict that more bytes change: the size error on it. */
  lemma SizeErrorMayPass()
    ensures ReadingOf(LongHeader()) == Failed(431) && !Final(LongHeader())
    ensures ReadingOf(LongHeader() + BLANK_LINE) != Failed(431)
  {
    hide Find;
    var s := LongHeader();
    LongHeaderLine();
    FinalVerdicts(s);
    LineTooLongGrows(s, BLANK_LINE);
    AppendedBlankLineIsFound(s);
    OnlyLongLineIs431(s + BLANK_LINE);
  }

  lemma AwaitingBodyIsPositive(raw: string)
    requires HasBlankLine(raw)
    ensures ReadingOf(raw) != NeedMore(0)
  {
  }

  // ---------------------------------------------------------------- printing a request

  /** The parts a client prints; query and fields are lists, so order and repetition are free. */
  datatype Draft = Draft(verb: string, path: string, query: FieldList, version: string, fields: FieldList, body: string)

  function QueryItems(query: FieldList): (items: seq<string>)
    ensures |items| == |query|
    ensures forall i :: 0 <= i < |query| ==> items[i] == query[i].0 + "=" + query[i].1
  {
    if query == [] then [] else [query[0].0 + "=" + query[0].1] + QueryItems(query[1..])
  }

  function TargetOf(d: Draft): string {
    if d.query == [] then d.path else d.path + "?" + JoinWith(QueryItems(d.query), "&")
  }

  function FirstLineOf(d: Draft): string { d.verb + " " + TargetOf(d) + " " + d.version }

  function Render(d: Draft): string { RenderHead(FirstLineOf(d), d.fields) + d.body }

  /** What can be printed so that its parts can be told apart again, right or wrong. */
  predicate Printable(d: Draft) {
    && d.verb != "" && NoSpace(d.verb)
    && d.path != "" && NoSpace(d.path) && '?' !in d.path
    && (forall q :: q in d.query ==> NoSpace(q.0) && NoSpace(q.1) && '=' !in q.0 && '&' !in q.0 && '&' !in q.1)
    && d.version != "" && NoSpace(d.version)
    && CleanFields(d.fields)
  }

  predicate WellFormed(d: Draft) {
    && Printable(d) && d.path[0] == '/' && "HTTP/" <= d.version
    && |FirstLineOf(d)| <= MAX_REQUEST_LINE
    && |d.body| <= MAX_BODY
    && Lookup(MapOf(d.fields, map[]), "Transfer-Encoding") in {"", "identity"}
    && (var cl := Lookup(MapOf(d.fields, map[]), "Content-Length");
        cl == Decimal(|d.body|) || (cl == "" && d.body == ""))
  }

  function Meaning(d: Draft): Request {
    var fields := MapOf(d.fields, map[]);
    Request(d.verb, d.path, d.version, fields, MapOf(d.query, map[]), d.body, KeepAliveOf(d.version, fields))
  }

  lemma {:induction false} JoinKeepsOut(parts: seq<string>, sep: string, c: char)
    requires c !in sep && forall p :: p in parts ==> c !in p
    ensures c !in JoinWith(parts, sep)
  {
    if |parts| > 1 {
      JoinKeepsOut(parts[1..], sep, c);
    }
  }

  lemma TargetHasNoSpace(d: Draft)
    requires Printable(d)
    ensures NoSpace(TargetOf(d)) && TargetOf(d) != "" && TargetOf(d)[0] == d.path[0]
  {
    var items := QueryItems(d.query);
    forall c | IsSpace(c) ensures c !in JoinWith(items, "&") {
      forall p | p in items ensures c !in p {
        var i :| 0 <= i < |items| && p == items[i];
        assert d.query[i] in d.query;
      }
      JoinKeepsOut(items, "&", c);
    }
  }

  lemma {:induction false} FoldOfItems(query: FieldList, acc: Fields)
    requires forall q :: q in query ==> '=' !in q.0
    ensures FoldQuery(QueryItems(query), acc) == MapOf(query, acc)
  {
    if query != [] {
      var (k, v) := query[0];
      var item := k + "=" + v;
      assert query[0] in query;
      FindAfterPart(k, "=", v);
      assert item[..|k|] == k && item[|k| + 1..] == v;
      assert QueryItems(query)[1..] == QueryItems(query[1..]);
      FoldOfItems(query[1..], acc[k := v]);
    }
  }

  lemma TargetReadsBack(d: Draft)
    requires Printable(d)
    ensures PathOf(TargetOf(d)) == d.path && QueryOf(TargetOf(d)) == MapOf(d.query, map[])
  {
    if d.query == [] {
      FindAbsent(d.path, "?");
    } else {
      var items := QueryItems(d.query);
      var tail := JoinWith(items, "&");
      var target := d.path + "?" + tail;
      FindAfterPart(d.path, "?", tail);
      assert target[..|d.path|] == d.path && target[|d.path| + 1..] == tail;
      forall p | p in items ensures '&' !in p {
        var i :| 0 <= i < |items| && p == items[i];
        assert d.query[i] in d.query;
      }
      SplitOfJoin(items, "&");
      FoldOfItems(d.query, map[]);
    }
  }

  lemma SkipOneSpace(w: string, rest: string)
    requires NoSpace(w) && w != ""
    ensures SkipSpace(w + rest) == w + rest && SkipSpace(" " + w + rest) == w + rest
  {
    assert (w + rest)[0] == w[0];
    assert (" " + w + rest)[1..] == w + rest;
  }

  lemma WordsReadBack(d: Draft)
    requires Printable(d)
    ensures WordsOf(FirstLineOf(d)) == Some(RequestLine(d.verb, TargetOf(d), d.version))
  {
    hide NoSpace, TargetOf, SkipSpace, LeadingWord;
    TargetHasNoSpace(d);
    var t := TargetOf(d);
    var line := FirstLineOf(d);
    var r1 := " " + t + " " + d.version;
    var r2 := " " + d.version;
    assert line == d.verb + r1;
    SkipOneSpace(d.verb, r1);
    LeadingWordStops(d.verb, r1);
    assert line[|d.verb|..] == " " + t + r2;
    SkipOneSpace(t, r2);
    LeadingWordStops(t, r2);
    assert (t + r2)[|t|..] == r2 == " " + d.version + "";
    SkipOneSpace(d.version, "");
    LeadingWordStops(d.version, "");
    assert d.version + "" == d.version;
  }

  lemma BodyLengthReadsBack(d: Draft)
    requires WellFormed(d)
    ensures BodyLengthOf(MapOf(d.fields, map[])) == Some(|d.body|)
  {
    DecimalRoundTrip(|d.body|);
  }

  lemma HeadReadsBack(d: Draft, head: string)
    requires WellFormed(d)
    requires SplitOn(head, CRLF) == [FirstLineOf(d)] + FieldLines(d.fields)
    requires FoldFields(FieldLines(d.fields), map[]) == Some(MapOf(d.fields, map[]))
    ensures HeadOf(head) == GoodHead(Meaning(d).(body := ""), |d.body|)
  {
    hide Find, WordsOf, FoldFields, QueryOf, PathOf, FirstLineOf, TargetOf;
    var lines := SplitOn(head, CRLF);
    assert lines[0] == FirstLineOf(d) && lines[1..] == FieldLines(d.fields);
    TargetHasNoSpace(d);
    WordsReadBack(d);
    TargetReadsBack(d);
    BodyLengthReadsBack(d);
    var line := RequestLine(d.verb, TargetOf(d), d.version);
    assert HeadOf(head) == FramingOf(line, MapOf(d.fields, map[]));
  }

  lemma FirstLineHasNoCr(d: Draft)
    requires Printable(d)
    ensures '\r' !in FirstLineOf(d)
  {
    TargetHasNoSpace(d);
    assert IsSpace('\r');
  }

  /** Parser and printer undo each other, whatever follows in the buffer. */
  lemma RoundTrip(d: Draft, rest: string)
    requires WellFormed(d)
    ensures ReadingOf(Render(d) + rest) == Complete(Meaning(d), |Render(d)|)
  {
    hide Find, SplitOn, FoldFields, HeadOf, FirstLineOf, Terminated, FieldLines, MapOf;
    var head := RenderHead(FirstLineOf(d), d.fields);
    var raw := Render(d) + rest;
    assert raw == head + (d.body + rest);
    FirstLineHasNoCr(d);
    ReadRenderedHead(FirstLineOf(d), d.fields, d.body + rest);
    var e := Find(raw, BLANK_LINE, 0);
    HeadReadsBack(d, raw[..e]);
    CutMiddle(head, d.body, rest);
    assert raw == head + d.body + rest;
    assert raw[e + 4..e + 4 + |d.body|] == d.body;
  }
}
