/** The part of an HTTP message before its body: a first line, field lines, and a blank
    line (section 3 of RFC 7230). Requests are read in this form and responses printed in it. */
module HeaderBlock {
  import opened Text

  type Fields = map<string, string>
  type FieldList = seq<(string, string)>

  // ---------------------------------------------------------------- reading

  /** One field line: the name runs to the first colon, the value is trimmed of blanks. */
  function FieldOf(line: string): Option<(string, string)> {
    var colon := Find(line, ":", 0);
    if colon == NPOS || colon == 0 then None
    else Some((line[..colon], Trim(line[colon + 1..])))
  }

  /** Field lines in order, a later field replacing an earlier one of the same name. */
  function FoldFields(lines: seq<string>, acc: Fields): Option<Fields> {
    if lines == [] then Some(acc)
    else match FieldOf(lines[0])
      case None => None
      case Some(f) => FoldFields(lines[1..], acc[f.0 := f.1])
  }

  /** `getHeader`: the empty string stands for an absent field. */
  function Lookup(fields: Fields, name: string): string {
    if name in fields then fields[name] else ""
  }

  // ---------------------------------------------------------------- printing

  function FieldLine(f: (string, string)): string { f.0 + ": " + f.1 }

  function FieldLines(fields: FieldList): (lines: seq<string>)
    ensures |lines| == |fields|
    ensures forall i :: 0 <= i < |fields| ==> lines[i] == FieldLine(fields[i])
  {
    if fields == [] then [] else [FieldLine(fields[0])] + FieldLines(fields[1..])
  }

  /** Every line followed by CRLF, as the serialisers' loops emit them. */
  function Terminated(lines: seq<string>): string {
    if lines == [] then "" else lines[0] + CRLF + Terminated(lines[1..])
  }

  function RenderHead(first: string, fields: FieldList): string {
    first + CRLF + Terminated(FieldLines(fields)) + CRLF
  }

  function MapOf(fields: FieldList, acc: Fields): Fields {
    if fields == [] then acc else MapOf(fields[1..], acc[fields[0].0 := fields[0].1])
  }

  predicate CleanField(f: (string, string)) {
    f.0 != "" && ':' !in f.0 && '\r' !in f.0 && '\r' !in f.1 && Trimmed(f.1)
  }

  predicate CleanFields(fields: FieldList) { forall f :: f in fields ==> CleanField(f) }

  // ---------------------------------------------------------------- reading what was printed

  lemma TrimPadded(v: string)
    requires Trimmed(v)
    ensures Trim(" " + v) == v
  {
    assert (" " + v)[1..] == v;
    assert TrimLeft(" " + v) == TrimLeft(v);
  }

  lemma FieldOfLine(f: (string, string))
    requires CleanField(f)
    ensures FieldOf(FieldLine(f)) == Some(f)
  {
    var line := FieldLine(f);
    assert line == f.0 + ":" + (" " + f.1);
    FindAfterPart(f.0, ":", " " + f.1);
    assert line[..|f.0|] == f.0;
    assert line[|f.0| + 1..] == " " + f.1;
    TrimPadded(f.1);
  }

  lemma {:induction false} FoldOfLines(fields: FieldList, acc: Fields)
    requires CleanFields(fields)
    ensures FoldFields(FieldLines(fields), acc) == Some(MapOf(fields, acc))
  {
    if fields != [] {
      assert fields[0] in fields;
      FieldOfLine(fields[0]);
      assert FieldLines(fields)[1..] == FieldLines(fields[1..]);
      FoldOfLines(fields[1..], acc[fields[0].0 := fields[0].1]);
    }
  }

  lemma {:induction false} TerminatedIsJoin(lines: seq<string>)
    requires lines != []
    ensures Terminated(lines) == JoinWith(lines, CRLF) + CRLF
  {
    if |lines| > 1 {
      TerminatedIsJoin(lines[1..]);
      assert Terminated(lines) == lines[0] + CRLF + (JoinWith(lines[1..], CRLF) + CRLF);
    }
  }

  lemma FindShift(p: string, t: string, pat: string)
    requires forall j :: 0 <= j < |p| ==> !MatchAt(p + t, pat, j)
    requires Find(t, pat, 0) != NPOS
    ensures Find(p + t, pat, 0) == |p| + Find(t, pat, 0)
  {
    var r := Find(t, pat, 0);
    forall j | 0 <= j <= r ensures MatchAt(p + t, pat, |p| + j) == MatchAt(t, pat, j) {
      if j + |pat| <= |t| {
        assert (p + t)[|p| + j..|p| + j + |pat|] == t[j..j + |pat|];
      }
    }
    forall j | 0 <= j < |p| + r ensures !MatchAt(p + t, pat, j) {
      if j >= |p| {
        assert !MatchAt(t, pat, j - |p|);
        assert MatchAt(p + t, pat, |p| + (j - |p|)) == MatchAt(t, pat, j - |p|);
      }
    }
    assert MatchAt(p + t, pat, |p| + r);
  }

  /** Inside non-empty CR-free lines there is no blank line: it is found right after them. */
  lemma {:induction false} BlankLineAfterLines(lines: seq<string>, rest: string)
    requires lines != []
    requires forall l :: l in lines ==> '\r' !in l
    requires forall l :: l in lines[1..] ==> l != ""
    ensures Find(JoinWith(lines, CRLF) + BLANK_LINE + rest, BLANK_LINE, 0) == |JoinWith(lines, CRLF)|
  {
    hide Find;
    var l0 := lines[0];
    if |lines| == 1 {
      FindAfterPart(l0, BLANK_LINE, rest);
    } else {
      var tail := lines[1..];
      var t := JoinWith(tail, CRLF) + BLANK_LINE + rest;
      var p := l0 + CRLF;
      var s := p + t;
      assert JoinWith(lines, CRLF) + BLANK_LINE + rest == s;
      assert forall l :: l in tail[1..] ==> l in tail;
      BlankLineAfterLines(tail, rest);
      assert tail[0] in tail && tail[0] in lines;
      assert t[0] == tail[0][0];
      forall j | 0 <= j < |p| ensures !MatchAt(s, BLANK_LINE, j) {
        if j == |l0| {
          assert j + 2 == |p| && s[|p|] == t[0];
          assert t[0] in tail[0] && t[0] != '\r';
          if j + 4 <= |s| {
            assert s[j..j + 4][2] == s[j + 2];
          }
        } else {
          NoMatchByFirst(s, BLANK_LINE, j);
        }
      }
      FindShift(p, t, BLANK_LINE);
    }
  }

  /** Printing a head and reading it back: the blank line is where the head ends, the lines
      are the ones printed, and the fields are the ones listed. */
  lemma ReadRenderedHead(first: string, fields: FieldList, rest: string)
    requires '\r' !in first && CleanFields(fields)
    ensures var head := RenderHead(first, fields);
            var raw := head + rest;
            var e := Find(raw, BLANK_LINE, 0);
            && e == |head| - 4
            && SplitOn(raw[..e], CRLF) == [first] + FieldLines(fields)
            && FoldFields(FieldLines(fields), map[]) == Some(MapOf(fields, map[]))
  {
    hide Find, SplitOn, FoldFields;
    var lines := [first] + FieldLines(fields);
    var text := JoinWith(lines, CRLF);
    TerminatedIsJoin(lines);
    assert lines[1..] == FieldLines(fields);
    assert RenderHead(first, fields) == Terminated(lines) + CRLF == text + BLANK_LINE;
    forall l | l in FieldLines(fields) ensures l != "" && '\r' !in l {
      var i :| 0 <= i < |fields| && l == FieldLine(fields[i]);
      assert fields[i] in fields;
    }
    BlankLineAfterLines(lines, rest);
    SplitOfJoin(lines, CRLF);
    assert (RenderHead(first, fields) + rest)[..|text|] == text;
    FoldOfLines(fields, map[]);
  }
}
