/** What becomes of a request, told from the parts its sender printed: the flag for keeping the
    connection, every header and query parameter, and the error for each defect. */
module RequestVerdicts {
  import opened Text
  import opened HeaderBlock
  import opened HttpRequest
  import opened RequestTheorems

  // ---------------------------------------------------------------- the last field wins

  /** The value of the last entry with this name, the empty string when there is none. */
  function LastValue(fields: FieldList, name: string): string {
    if fields == [] then ""
    else
      var last := fields[|fields| - 1];
      if last.0 == name then last.1 else LastValue(fields[..|fields| - 1], name)
  }

  lemma {:induction false} MapSnoc(fields: FieldList, f: (string, string), acc: Fields)
    ensures MapOf(fields + [f], acc) == MapOf(fields, acc)[f.0 := f.1]
    decreases |fields|
  {
    if fields == [] {
      assert [f][1..] == [] && fields + [f] == [f];
    } else {
      assert (fields + [f])[1..] == fields[1..] + [f];
      MapSnoc(fields[1..], f, acc[fields[0].0 := fields[0].1]);
    }
  }

  lemma {:induction false} LookupIsLast(fields: FieldList, name: string)
    ensures Lookup(MapOf(fields, map[]), name) == LastValue(fields, name)
    ensures name in MapOf(fields, map[]) <==> exists f :: f in fields && f.0 == name
  {
    if fields != [] {
      var before, last := fields[..|fields| - 1], fields[|fields| - 1];
      assert fields == before + [last];
      MapSnoc(before, last, map[]);
      LookupIsLast(before, name);
      assert last in fields;
      assert forall f :: f in fields <==> f in before || f == last;
    }
  }

  // ---------------------------------------------------------------- good requests

  /** Everything a handler sees of a request is what its sender printed. The connection is to be
      kept, for HTTP/1.1, unless the last Connection field says `close`; for any other version,
      only if it says `keep-alive`. */
  lemma RequestIsRead(d: Draft, rest: string)
    requires WellFormed(d)
    ensures var r := ReadingOf(Render(d) + rest);
            && r.Complete? && r.consumed == |Render(d)|
            && r.request.verb == d.verb && r.request.path == d.path && r.request.version == d.version
            && r.request.body == d.body
            && (forall name :: Lookup(r.request.headers, name) == LastValue(d.fields, name))
            && (forall key :: Lookup(r.request.query, key) == LastValue(d.query, key)
                              && (key in r.request.query <==> exists q :: q in d.query && q.0 == key))
            && (r.request.keepAlive <==> Persists(d))
  {
    hide ReadingOf, Render, WellFormed, MapOf, LastValue;
    RoundTrip(d, rest);
    forall name ensures Lookup(MapOf(d.fields, map[]), name) == LastValue(d.fields, name) {
      LookupIsLast(d.fields, name);
    }
    forall key
      ensures Lookup(MapOf(d.query, map[]), key) == LastValue(d.query, key)
              && (key in MapOf(d.query, map[]) <==> exists q :: q in d.query && q.0 == key)
    {
      LookupIsLast(d.query, key);
    }
  }

  /** Section 6.3 of RFC 7230, for a Connection field with a single option in lower case. */
  predicate Persists(d: Draft) {
    var option := LastValue(d.fields, "Connection");
    (d.version == "HTTP/1.1" && option != "close") || (d.version != "HTTP/1.1" && option == "keep-alive")
  }

  // ---------------------------------------------------------------- every verdict

  /** Which error a printed request gets, or how much of what follows is its body: the request
      line is looked at first, then Content-Length, its size, and Transfer-Encoding. */
  lemma VerdictOnPrinted(d: Draft, rest: string)
    requires Printable(d)
    ensures var head := RenderHead(FirstLineOf(d), d.fields);
            var length, coding := LastValue(d.fields, "Content-Length"), LastValue(d.fields, "Transfer-Encoding");
            var r := ReadingOf(head + rest);
            if |FirstLineOf(d)| > 8192 then r == Failed(431)
            else if d.path[0] != '/' || !("HTTP/" <= d.version) then r == Failed(400)
            else if !AllDigits(length) || DecimalValue(length) >= 0x1_0000_0000_0000_0000 then r == Failed(400)
            else if DecimalValue(length) > 16 * 1024 * 1024 then r == Failed(413)
            else if coding != "" && coding != "identity" then r == Failed(501)
            else
              var n := DecimalValue(length);
              if |rest| < n then r == NeedMore(|head| + n)
              else r.Complete? && r.consumed == |head| + n && r.request.body == rest[..n]
  {
    hide Find, SplitOn, FoldFields, FirstLineOf, TargetOf, FieldLines, MapOf, WordsOf, DecimalValue, AllDigits, LastValue;
    hide PathOf, QueryOf, KeepAliveOf, Terminated;
    var head := RenderHead(FirstLineOf(d), d.fields);
    var raw := head + rest;
    FirstLineHasNoCr(d);
    ReadRenderedHead(FirstLineOf(d), d.fields, rest);
    TargetHasNoSpace(d);
    WordsReadBack(d);
    LookupIsLast(d.fields, "Content-Length");
    LookupIsLast(d.fields, "Transfer-Encoding");
    var e := Find(raw, BLANK_LINE, 0);
    var lines := SplitOn(raw[..e], CRLF);
    assert lines[0] == FirstLineOf(d) && lines[1..] == FieldLines(d.fields);
    NoDigits();
    BodyBehind(head, rest);
  }

  lemma NoDigits()
    ensures AllDigits("") && DecimalValue("") == 0
  {
  }

  lemma BodyBehind(head: string, rest: string)
    ensures forall n :: 0 <= n <= |rest| ==> (head + rest)[|head|..|head| + n] == rest[..n]
  {
  }

  // ---------------------------------------------------------------- any query string

  lemma {:induction false} FoldQueryAppend(a: seq<string>, b: seq<string>, acc: Fields)
    ensures FoldQuery(a + b, acc) == FoldQuery(b, FoldQuery(a, acc))
    decreases |a|
  {
    hide AddQueryItem;
    if a == [] {
      assert a + b == b;
    } else {
      assert (a + b)[1..] == a[1..] + b;
      FoldQueryAppend(a[1..], b, AddQueryItem(a[0], acc));
    }
  }

  /** One item more behind a query string: a pair is cut at its first equals sign, a name alone
      has an empty value, and an empty item adds nothing; what was there before stays, unless it
      has the same name. */
  lemma QueryWithItem(path: string, query: string, item: string)
    requires '?' !in path && '&' !in item
    ensures var before, after := QueryOf(path + "?" + query), QueryOf(path + "?" + query + "&" + item);
            && (item == "" ==> after == before)
            && (item != "" && '=' !in item ==> after == before[item := ""])
            && (forall k: string, v: string :: item == k + "=" + v && '=' !in k ==> after == before[k := v])
  {
    hide Find, SplitOn;
    QueryBehind(path, query);
    QueryBehind(path, query + "&" + item);
    assert path + "?" + query + "&" + item == path + "?" + (query + "&" + item);
    SplitAtChar(query, "&", item);
    SplitStep(item, "&");
    FindAbsent(item, "&");
    FoldQueryAppend(SplitOn(query, "&"), [item], map[]);
    assert [item][1..] == [];
    ItemAdds(item, FoldQuery(SplitOn(query, "&"), map[]));
  }

  lemma QueryBehind(path: string, query: string)
    requires '?' !in path
    ensures QueryOf(path + "?" + query) == FoldQuery(SplitOn(query, "&"), map[])
    ensures PathOf(path + "?" + query) == path
  {
    hide Find, SplitOn, FoldQuery;
    var target := path + "?" + query;
    FindAfterPart(path, "?", query);
    assert target[..|path|] == path && target[|path| + 1..] == query;
  }

  lemma ItemAdds(item: string, acc: Fields)
    ensures item == "" ==> AddQueryItem(item, acc) == acc
    ensures item != "" && '=' !in item ==> AddQueryItem(item, acc) == acc[item := ""]
    ensures forall k: string, v: string :: item == k + "=" + v && '=' !in k ==> AddQueryItem(item, acc) == acc[k := v]
  {
    hide Find;
    if '=' !in item {
      FindAbsent(item, "=");
    }
    forall k: string, v: string | item == k + "=" + v && '=' !in k ensures AddQueryItem(item, acc) == acc[k := v] {
      FindAfterPart(k, "=", v);
      assert item[..|k|] == k && item[|k| + 1..] == v;
    }
  }

  // ---------------------------------------------------------------- defects of single lines

  /** A head of any lines without CR: where it ends and what its lines are. */
  lemma ReadAnyHead(first: string, lines: seq<string>, rest: string)
    requires '\r' !in first && forall l :: l in lines ==> '\r' !in l && l != ""
    ensures var raw := first + CRLF + Terminated(lines) + CRLF + rest;
            var e := Find(raw, BLANK_LINE, 0);
            e >= 0 && SplitOn(raw[..e], CRLF) == [first] + lines
  {
    hide Find, SplitOn;
    var all := [first] + lines;
    var text := JoinWith(all, CRLF);
    assert all[1..] == lines;
    TerminatedIsJoin(all);
    BlankLineAfterLines(all, rest);
    SplitOfJoin(all, CRLF);
    var raw := first + CRLF + Terminated(lines) + CRLF + rest;
    assert raw == text + BLANK_LINE + rest;
    assert raw[..|text|] == text;
  }

  lemma NoNameNoField(line: string)
    requires line != "" && (':' !in line || line[0] == ':')
    ensures FieldOf(line) == None
  {
    if ':' !in line {
      FindAbsent(line, ":");
    } else {
      assert line == "" + ":" + line[1..];
      FindAfterPart("", ":", line[1..]);
    }
  }

  lemma {:induction false} FoldStops(lines: seq<string>, acc: Fields, i: nat)
    requires i < |lines| && FieldOf(lines[i]) == None
    ensures FoldFields(lines, acc) == None
    decreases i
  {
    if i > 0 && FieldOf(lines[0]).Some? {
      FoldStops(lines[1..], acc[FieldOf(lines[0]).value.0 := FieldOf(lines[0]).value.1], i - 1);
    }
  }

  /** One header line without a colon, or without a name before it, refuses the request. */
  lemma BadFieldLineIsRefused(first: string, lines: seq<string>, i: nat, rest: string)
    requires '\r' !in first && |first| <= 8192 && (forall l :: l in lines ==> '\r' !in l && l != "")
    requires i < |lines| && (':' !in lines[i] || lines[i][0] == ':')
    ensures ReadingOf(first + CRLF + Terminated(lines) + CRLF + rest) == Failed(400)
  {
    hide Find, SplitOn, FoldFields, FieldOf, Terminated, RequestLineOf, FramingOf;
    assert lines[i] in lines;
    ReadAnyHead(first, lines, rest);
    NoNameNoField(lines[i]);
    FoldStops(lines, map[], i);
    assert ([first] + lines)[1..] == lines;
  }

  /** So does a request line of fewer than three words. */
  lemma ShortRequestLineIsRefused(verb: string, target: string, lines: seq<string>, rest: string)
    requires NoSpace(verb) && NoSpace(target) && |verb| + |target| < 8192
    requires forall l :: l in lines ==> '\r' !in l && l != ""
    ensures ReadingOf(verb + " " + target + CRLF + Terminated(lines) + CRLF + rest) == Failed(400)
  {
    hide Find, SplitOn, FoldFields, Terminated, FramingOf, WordsOf;
    var first := verb + " " + target;
    assert IsSpace('\r');
    ReadAnyHead(first, lines, rest);
    TwoWordsAreNone(verb, target);
    assert ([first] + lines)[0] == first;
  }

  predicate White(s: string) { forall c :: c in s ==> IsSpace(c) }

  lemma {:induction false} SkipWhite(white: string, s: string)
    requires White(white) && (s == "" || !IsSpace(s[0]))
    ensures SkipSpace(white + s) == s
  {
    if white == "" {
      assert white + s == s;
    } else {
      assert (white + s)[0] == white[0] && white[0] in white && (white + s)[1..] == white[1..] + s;
      SkipWhite(white[1..], s);
    }
  }

  lemma NextWord(white: string, word: string, rest: string)
    requires White(white) && word != "" && NoSpace(word) && (rest == "" || IsSpace(rest[0]))
    ensures var s := SkipSpace(white + word + rest);
            s == word + rest && LeadingWord(s) == word && s[|word|..] == rest
  {
    assert word[0] in word && (word + rest)[0] == word[0];
    assert white + word + rest == white + (word + rest);
    SkipWhite(white, word + rest);
    LeadingWordStops(word, rest);
  }

  /** The three words of a request line may stand anywhere between white space of any length;
      what comes after them is ignored. */
  lemma WordsAnywhere(w1: string, verb: string, w2: string, target: string, w3: string, version: string, tail: string)
    requires White(w1) && White(w2) && White(w3) && w2 != "" && w3 != "" && (tail == "" || IsSpace(tail[0]))
    requires verb != "" && target != "" && version != "" && NoSpace(verb) && NoSpace(target) && NoSpace(version)
    ensures WordsOf(w1 + verb + (w2 + target + (w3 + version + tail))) == Some(RequestLine(verb, target, version))
  {
    hide NoSpace, White, SkipSpace, LeadingWord;
    StartsWhite(w2, target + (w3 + version + tail));
    StartsWhite(w3, version + tail);
    assert w2 + target + (w3 + version + tail) == w2 + (target + (w3 + version + tail));
    assert w3 + version + tail == w3 + (version + tail);
    NextWord(w1, verb, w2 + target + (w3 + version + tail));
    NextWord(w2, target, w3 + version + tail);
    NextWord(w3, version, tail);
  }

  lemma StartsWhite(white: string, s: string)
    requires White(white) && white != ""
    ensures white + s != "" && IsSpace((white + s)[0])
  {
    assert white[0] in white;
  }

  lemma TwoWordsAreNone(verb: string, target: string)
    requires NoSpace(verb) && NoSpace(target)
    ensures WordsOf(verb + " " + target) == None
  {
    hide NoSpace, SkipSpace, LeadingWord;
    var line := verb + " " + target;
    EmptyWord();
    if verb == "" {
      assert line == " " + target;
      OneWord(target);
    } else {
      assert line == verb + (" " + target);
      SkipOneSpace(verb, " " + target);
      LeadingWordStops(verb, " " + target);
      assert line[|verb|..] == " " + target;
      OneWord(target);
    }
  }

  lemma EmptyWord()
    ensures SkipSpace("") == "" && LeadingWord("") == ""
  {
  }

  /** Nothing follows the only word of a text. */
  lemma OneWord(w: string)
    requires NoSpace(w)
    ensures SkipSpace(" " + w) == w && LeadingWord(w) == w && w[|w|..] == ""
  {
    LeadingWordStops(w, "");
    assert w + "" == w && (" " + w)[1..] == w;
    if w != "" {
      SkipOneSpace(w, "");
      assert " " + w + "" == " " + w;
    } else {
      assert " " + w == " ";
    }
  }

  /** Blanks around a value are not part of it. */
  lemma PaddedValueIsTrimmed(name: string, left: string, value: string, right: string)
    requires name != "" && ':' !in name && Trimmed(value)
    requires (forall c :: c in left ==> IsBlank(c)) && (forall c :: c in right ==> IsBlank(c))
    ensures FieldOf(name + ":" + left + value + right) == Some((name, value))
  {
    hide TrimLeft, TrimRight, Find;
    var line, padded := name + ":" + left + value + right, left + value + right;
    assert line == name + ":" + padded;
    FindAfterPart(name, ":", padded);
    assert line[..|name|] == name && line[|name| + 1..] == padded;
    assert padded == left + (value + right);
    TrimLeftBlanks(left, value + right);
    TrimBehind(value, right);
  }

  lemma TrimBehind(value: string, right: string)
    requires Trimmed(value) && forall c :: c in right ==> IsBlank(c)
    ensures TrimRight(TrimLeft(value + right)) == value
  {
    if value == "" {
      assert value + right == right;
      AllBlankIsEmpty(right);
    } else {
      assert (value + right)[0] == value[0];
      TrimRightBlanks(value, right);
    }
  }

  lemma {:induction false} TrimLeftBlanks(left: string, s: string)
    requires forall c :: c in left ==> IsBlank(c)
    ensures TrimLeft(left + s) == TrimLeft(s)
  {
    if left == "" {
      assert left + s == s;
    } else {
      assert (left + s)[0] == left[0] && left[0] in left && (left + s)[1..] == left[1..] + s;
      TrimLeftBlanks(left[1..], s);
    }
  }

  lemma {:induction false} TrimRightBlanks(s: string, right: string)
    requires forall c :: c in right ==> IsBlank(c)
    ensures TrimRight(s + right) == TrimRight(s)
    decreases |right|
  {
    if right == "" {
      assert s + right == s;
    } else {
      var n := |right| - 1;
      assert right[n] in right && (s + right)[|s + right| - 1] == right[n];
      assert (s + right)[..|s + right| - 1] == s + right[..n];
      TrimRightBlanks(s, right[..n]);
    }
  }

  lemma AllBlankIsEmpty(right: string)
    requires forall c :: c in right ==> IsBlank(c)
    ensures TrimRight(TrimLeft(right)) == ""
  {
    TrimLeftBlanks(right, "");
    assert right + "" == right;
  }
}
