/** Byte-string operations shared by the HTTP modules: substring search, splitting and
    joining, blank trimming, word extraction and decimal numbers. A byte is a `char`. */
module Text {

  datatype Option<+T> = None | Some(value: T)

  const CRLF: string := "\r\n"
  const BLANK_LINE: string := "\r\n\r\n"
  const NPOS: int := -1

  predicate MatchAt(s: string, pat: string, i: int) {
    0 <= i && i + |pat| <= |s| && s[i..i + |pat|] == pat
  }

  /** `s.find(pat, from)`: the first match at or after `from`, NPOS when there is none. */
  function Find(s: string, pat: string, from: nat): (r: int)
    ensures r == NPOS || (from <= r && MatchAt(s, pat, r))
    ensures forall j :: from <= j && (r == NPOS || j < r) ==> !MatchAt(s, pat, j)
    decreases |s| - from
  {
    if from + |pat| > |s| then NPOS
    else if MatchAt(s, pat, from) then from
    else if from == |s| then NPOS
    else Find(s, pat, from + 1)
  }

  lemma SliceOfSlice(s: string, a: nat, b: nat, i: nat, j: nat)
    requires a <= b <= |s| && i <= j <= b - a
    ensures s[a..b][i..j] == s[a + i..a + j]
  {
    var l, r := s[a..b][i..j], s[a + i..a + j];
    assert forall k :: 0 <= k < j - i ==> l[k] == s[a + i + k] == r[k];
  }

  lemma CutMiddle(a: string, b: string, c: string)
    ensures (a + b + c)[|a|..|a| + |b|] == b && (a + b + c)[|a| + |b|..] == c
  {
  }

  /** A place within `s` matches in a longer text exactly when it matches in `s`. */
  lemma MatchInside(s: string, pat: string, i: nat, ext: string)
    requires i + |pat| <= |s|
    ensures MatchAt(s + ext, pat, i) == MatchAt(s, pat, i)
  {
    assert (s + ext)[i..i + |pat|] == s[i..i + |pat|];
  }

  /** Text appended after the first match does not move it. */
  lemma FindStable(s: string, pat: string, from: nat, ext: string)
    requires Find(s, pat, from) != NPOS
    ensures Find(s + ext, pat, from) == Find(s, pat, from)
  {
    var r := Find(s, pat, from);
    forall j | 0 <= j <= r ensures MatchAt(s + ext, pat, j) == MatchAt(s, pat, j) {
      MatchInside(s, pat, j, ext);
    }
  }

  /** A match that appears only after appending must end inside the appended text. */
  lemma FindGrows(s: string, pat: string, ext: string)
    requires Find(s, pat, 0) == NPOS
    ensures Find(s + ext, pat, 0) == NPOS || Find(s + ext, pat, 0) + |pat| > |s|
  {
    hide Find;
    var r := Find(s + ext, pat, 0);
    if r != NPOS && r + |pat| <= |s| {
      MatchInside(s, pat, r, ext);
    }
  }

  lemma NoMatchByFirst(s: string, pat: string, i: nat)
    requires |pat| > 0 && i < |s| && s[i] != pat[0]
    ensures !MatchAt(s, pat, i)
  {
    if i + |pat| <= |s| {
      assert s[i..i + |pat|][0] == s[i];
    }
  }

  /** Searching for a separator skips a part that does not contain its first character. */
  lemma FindAfterPart(part: string, sep: string, rest: string)
    requires |sep| > 0 && sep[0] !in part
    ensures Find(part + sep + rest, sep, 0) == |part|
  {
    var s := part + sep + rest;
    assert s[|part|..|part| + |sep|] == sep;
    assert MatchAt(s, sep, |part|);
    forall j | 0 <= j < |part| ensures !MatchAt(s, sep, j) {
      NoMatchByFirst(s, sep, j);
    }
  }

  lemma FindAbsent(part: string, sep: string)
    requires |sep| > 0 && sep[0] !in part
    ensures Find(part, sep, 0) == NPOS
  {
    forall j | 0 <= j < |part| ensures !MatchAt(part, sep, j) {
      NoMatchByFirst(part, sep, j);
    }
  }

  lemma CharAt(s: string, c: char, i: nat)
    requires MatchAt(s, [c], i)
    ensures i < |s| && s[i] == c
  {
    assert s[i..i + 1] == [s[i]];
  }

  /** Searching from a position is searching what stands behind it. */
  lemma FindBehind(s: string, c: char, from: nat)
    requires from <= |s|
    ensures var f := Find(s, [c], from);
            Find(s[from..], [c], 0) == (if f == NPOS then NPOS else f - from) && (f != NPOS ==> MatchAt(s, [c], f) && f >= from)
  {
    var t, f := s[from..], Find(s, [c], from);
    forall j | 0 <= j < |t| ensures MatchAt(t, [c], j) == MatchAt(s, [c], from + j) {
      assert t[j..j + 1] == [t[j]] == s[from + j..from + j + 1];
    }
    if f != NPOS {
      assert MatchAt(t, [c], f - from);
    }
    forall j | 0 <= j < |t| && (f == NPOS || j < f - from) ensures !MatchAt(t, [c], j) {
      assert !MatchAt(s, [c], from + j);
    }
  }

  // ---------------------------------------------------------------- split and join

  /** The pieces of `s` between consecutive occurrences of `sep`. */
  function SplitOn(s: string, sep: string): (parts: seq<string>)
    requires |sep| > 0
    ensures |parts| > 0
    decreases |s|
  {
    var i := Find(s, sep, 0);
    if i == NPOS then [s] else [s[..i]] + SplitOn(s[i + |sep|..], sep)
  }

  function JoinWith(parts: seq<string>, sep: string): string {
    if |parts| == 0 then ""
    else if |parts| == 1 then parts[0]
    else parts[0] + sep + JoinWith(parts[1..], sep)
  }

  lemma {:induction false} JoinOfSplit(s: string, sep: string)
    requires |sep| > 0
    ensures JoinWith(SplitOn(s, sep), sep) == s
    decreases |s|
  {
    var i := Find(s, sep, 0);
    if i != NPOS {
      var tail := SplitOn(s[i + |sep|..], sep);
      JoinOfSplit(s[i + |sep|..], sep);
      assert SplitOn(s, sep)[1..] == tail;
      assert s == s[..i] + s[i..i + |sep|] + s[i + |sep|..];
    }
  }

  lemma {:induction false} SplitOfJoin(parts: seq<string>, sep: string)
    requires |sep| > 0 && |parts| > 0
    requires forall p :: p in parts ==> sep[0] !in p
    ensures SplitOn(JoinWith(parts, sep), sep) == parts
  {
    if |parts| == 1 {
      FindAbsent(parts[0], sep);
    } else {
      var rest := JoinWith(parts[1..], sep);
      FindAfterPart(parts[0], sep, rest);
      SplitOfJoin(parts[1..], sep);
      var s := parts[0] + sep + rest;
      assert s[..|parts[0]|] == parts[0];
      assert s[|parts[0]| + |sep|..] == rest;
    }
  }

  lemma SplitStep(s: string, sep: string)
    requires |sep| > 0
    ensures var i := Find(s, sep, 0);
            SplitOn(s, sep) == if i == NPOS then [s] else [s[..i]] + SplitOn(s[i + |sep|..], sep)
  {
  }

  lemma NoCharFound(s: string, sep: string)
    requires |sep| == 1 && Find(s, sep, 0) == NPOS
    ensures sep[0] !in s
  {
    forall k | 0 <= k < |s| ensures s[k] != sep[0] {
      assert s[k..k + 1] == [s[k]];
      assert !MatchAt(s, sep, k);
    }
  }

  /** Splitting at a known occurrence of a one-character separator. */
  lemma {:induction false} SplitAtChar(left: string, sep: string, right: string)
    requires |sep| == 1
    ensures SplitOn(left + sep + right, sep) == SplitOn(left, sep) + SplitOn(right, sep)
    decreases |left|
  {
    hide Find, MatchAt, SplitOn;
    var s := left + sep + right;
    var i := Find(left, sep, 0);
    SplitStep(s, sep);
    SplitStep(left, sep);
    if i == NPOS {
      NoCharFound(left, sep);
      FindAfterPart(left, sep, right);
      CutMiddle(left, sep, right);
      assert s[..|left|] == left;
    } else {
      FoundInBounds(left, sep);
      var l := left[i + 1..];
      assert s == left + (sep + right);
      FindStable(left, sep, 0, sep + right);
      SplitAtChar(l, sep, right);
      assert s[..i] == left[..i];
      assert s[i + 1..] == l + sep + right;
    }
  }

  lemma FoundInBounds(s: string, pat: string)
    requires Find(s, pat, 0) != NPOS
    ensures 0 <= Find(s, pat, 0) <= |s| - |pat|
  {
  }

  // ---------------------------------------------------------------- blanks and words

  predicate IsBlank(c: char) { c == ' ' || c == '\t' }

  /** `isspace` in the C locale. */
  predicate IsSpace(c: char) {
    c == ' ' || c == '\t' || c == '\n' || c == '\r' || c == (11 as char) || c == (12 as char)
  }

  function TrimLeft(s: string): string {
    if s != "" && IsBlank(s[0]) then TrimLeft(s[1..]) else s
  }

  function TrimRight(s: string): string {
    if s != "" && IsBlank(s[|s| - 1]) then TrimRight(s[..|s| - 1]) else s
  }

  function Trim(s: string): string { TrimRight(TrimLeft(s)) }

  predicate Trimmed(s: string) {
    s != "" ==> !IsBlank(s[0]) && !IsBlank(s[|s| - 1])
  }

  function SkipSpace(s: string): (r: string)
    ensures |r| <= |s|
  {
    if s != "" && IsSpace(s[0]) then SkipSpace(s[1..]) else s
  }

  /** The longest prefix of `s` without white space. */
  function LeadingWord(s: string): (w: string)
    ensures |w| <= |s| && s[..|w|] == w
  {
    if s != "" && !IsSpace(s[0]) then [s[0]] + LeadingWord(s[1..]) else ""
  }

  predicate NoSpace(s: string) { forall c :: c in s ==> !IsSpace(c) }

  lemma {:induction false} LeadingWordStops(w: string, rest: string)
    requires NoSpace(w) && (rest == "" || IsSpace(rest[0]))
    ensures LeadingWord(w + rest) == w
  {
    if w == "" {
      assert w + rest == rest;
    } else {
      assert (w + rest)[0] == w[0];
      assert (w + rest)[1..] == w[1..] + rest;
      LeadingWordStops(w[1..], rest);
    }
  }

  // ---------------------------------------------------------------- decimal numbers

  predicate IsDigit(c: char) { '0' <= c <= '9' }

  predicate AllDigits(s: string) { forall c :: c in s ==> IsDigit(c) }

  /** `std::to_string` of a non-negative number. */
  function Decimal(n: nat): (s: string)
    ensures |s| > 0 && AllDigits(s)
  {
    if n < 10 then [('0' as int + n) as char] else Decimal(n / 10) + [('0' as int + n % 10) as char]
  }

  /** The value `std::stoull` reads from a string of digits, before its range check. */
  function DecimalValue(s: string): nat
    requires AllDigits(s)
  {
    if s == "" then 0
    else
      var last := s[|s| - 1];
      assert last in s;
      10 * DecimalValue(s[..|s| - 1]) + (last as int - '0' as int)
  }

  lemma {:induction false} DecimalRoundTrip(n: nat)
    ensures DecimalValue(Decimal(n)) == n
  {
    var s := Decimal(n);
    if n < 10 {
      assert s[..|s| - 1] == "";
    } else {
      DecimalRoundTrip(n / 10);
      assert s[..|s| - 1] == Decimal(n / 10);
    }
  }
}
