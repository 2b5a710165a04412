/** Percent-decoding of the path behind `/static/` and the check that keeps it below the
    static root. */
module StaticFiles {
  import opened Text

  function HexVal(c: char): int {
    if '0' <= c <= '9' then c as int - '0' as int
    else if 'a' <= c <= 'f' then c as int - 'a' as int + 10
    else if 'A' <= c <= 'F' then c as int - 'A' as int + 10
    else -1
  }

  predicate IsHex(c: char) { HexVal(c) >= 0 }

  function ByteOf(hi: char, lo: char): (c: char)
    requires IsHex(hi) && IsHex(lo)
    ensures c as int < 256
  {
    (16 * HexVal(hi) + HexVal(lo)) as char
  }

  predicate StartsEscape(s: string) {
    |s| > 2 && s[0] == '%' && IsHex(s[1]) && IsHex(s[2])
  }

  /** Each escape is the byte it names; anything else, a stray percent sign too, is itself. */
  function Decoded(s: string): string {
    if s == "" then ""
    else if StartsEscape(s) then [ByteOf(s[1], s[2])] + Decoded(s[3..])
    else [s[0]] + Decoded(s[1..])
  }

  method UrlDecode(s: string) returns (out: string)
    ensures out == Decoded(s)
  {
    hide Decoded;
    out := "";
    var i := 0;
    DecodedEnds(s);
    while i < |s|
      invariant i <= |s|
      invariant out + Decoded(s[i..]) == Decoded(s)
    {
      DecodedAt(s, i);
      if s[i] == '%' && i + 2 < |s| {
        var hi, lo := HexVal(s[i + 1]), HexVal(s[i + 2]);
        if hi >= 0 && lo >= 0 {
          out := out + [(16 * hi + lo) as char];
          i := i + 2 + 1;
          continue;
        }
      }
      out := out + [s[i]];
      i := i + 1;
    }
  }

  lemma DecodedAt(s: string, i: nat)
    requires i < |s|
    ensures Decoded(s[i..]) ==
      if s[i] == '%' && i + 2 < |s| && IsHex(s[i + 1]) && IsHex(s[i + 2])
      then [ByteOf(s[i + 1], s[i + 2])] + Decoded(s[i + 3..])
      else [s[i]] + Decoded(s[i + 1..])
  {
    var rest := s[i..];
    assert rest[1..] == s[i + 1..];
    if StartsEscape(rest) {
      assert rest[3..] == s[i + 3..];
    }
  }

  lemma DecodedEnds(s: string)
    ensures "" + Decoded(s[0..]) == Decoded(s) && Decoded(s[|s|..]) == ""
  {
    assert s[0..] == s && s[|s|..] == "";
    hide Decoded;
    EmptyDecoded();
  }

  lemma EmptyDecoded()
    ensures Decoded("") == ""
  {
  }

  // ---------------------------------------------------------------- decoding undoes encoding

  /** `e` is a percent-encoding of `s` (section 2.1 of RFC 3986): every byte is either itself,
      unless it is a percent sign, or an escape in digits of either case. */
  predicate Encodes(s: string, e: string)
    decreases |s|
  {
    if s == "" then e == ""
    else
      || (e != "" && e[0] == s[0] && e[0] != '%' && Encodes(s[1..], e[1..]))
      || (StartsEscape(e) && ByteOf(e[1], e[2]) == s[0] && Encodes(s[1..], e[3..]))
  }

  lemma {:induction false} DecodeUndoesEncode(s: string, e: string)
    requires Encodes(s, e)
    ensures Decoded(e) == s
    decreases |s|
  {
    if s != "" {
      if e != "" && e[0] == s[0] && e[0] != '%' && Encodes(s[1..], e[1..]) {
        DecodeUndoesEncode(s[1..], e[1..]);
      } else {
        DecodeUndoesEncode(s[1..], e[3..]);
      }
      assert s == [s[0]] + s[1..];
    }
  }

  predicate IsBytes(s: string) { forall c :: c in s ==> (c as int) < 256 }

  function HexDigit(n: nat): (c: char)
    requires n < 16
    ensures IsHex(c) && HexVal(c) == n
  {
    if n < 10 then ('0' as int + n) as char else ('A' as int + n - 10) as char
  }

  /** Escaping every byte. */
  function Escaped(s: string): string
    requires IsBytes(s)
  {
    if s == "" then ""
    else
      assert s[0] in s && forall c :: c in s[1..] ==> c in s;
      ['%', HexDigit(s[0] as int / 16), HexDigit(s[0] as int % 16)] + Escaped(s[1..])
  }

  /** Every byte string has an encoding, so every byte string is the decoding of some path. */
  lemma {:induction false} EscapedEncodes(s: string)
    requires IsBytes(s)
    ensures Encodes(s, Escaped(s))
    ensures Decoded(Escaped(s)) == s
  {
    if s != "" {
      assert s[0] in s && forall c :: c in s[1..] ==> c in s;
      EscapedEncodes(s[1..]);
      assert Escaped(s)[3..] == Escaped(s[1..]);
    }
    DecodeUndoesEncode(s, Escaped(s));
  }

  // ---------------------------------------------------------------- the handler

  datatype FileReply = NotFound | Forbidden | Serve(path: string)

  predicate Climbs(rel: string) { ".." in SplitOn(rel, "/") }

  /** What is behind `/static/` names a file below the root, or is refused. */
  function FileReplyTo(root: string, params: seq<string>): FileReply {
    if params == [] then NotFound
    else
      var rel := Decoded(params[0]);
      if rel == "" || rel[0] == '/' || Climbs(rel) then Forbidden else Serve(root + "/" + rel)
  }

  method StaticFileHandler(root: string, params: seq<string>) returns (reply: FileReply)
    ensures reply == FileReplyTo(root, params)
  {
    hide Find, Climbs, Decoded;
    if params == [] { return NotFound; }
    var rel := UrlDecode(params[0]);
    if rel == "" || rel[0] == '/' { return Forbidden; }
    var pos := 0;
    assert rel[0..] == rel;
    while pos <= |rel|
      invariant pos <= |rel|
      invariant Climbs(rel) <==> Climbs(rel[pos..])
      decreases |rel| - pos
    {
      var found := Find(rel, "/", pos);
      var end: nat := if found == NPOS then |rel| else found;
      NextPiece(rel, pos, end);
      var seg := rel[pos..end];
      if seg == ".." { return Forbidden; }
      if end + 1 > |rel| { break; }
      pos := end + 1;
    }
    return Serve(root + "/" + rel);
  }

  lemma NextPiece(rel: string, pos: nat, end: nat)
    requires pos <= |rel|
    requires var f := Find(rel, "/", pos); end == if f == NPOS then |rel| else f
    ensures pos <= end <= |rel|
    ensures Climbs(rel[pos..]) <==> rel[pos..end] == ".." || (end < |rel| && Climbs(rel[end + 1..]))
  {
    hide Find, MatchAt, SplitOn;
    var t, f := rel[pos..], Find(rel, "/", pos);
    FindBehind(rel, '/', pos);
    SplitStep(t, "/");
    if f != NPOS {
      CharAt(rel, '/', f);
      assert t[..f - pos] == rel[pos..end] && t[f - pos + 1..] == rel[end + 1..];
    } else {
      assert t == rel[pos..end];
    }
  }

  // ---------------------------------------------------------------- what is served

  /** Between `a` and `b` stands a whole piece of a path. */
  predicate WholePiece(a: string, b: string) {
    (a == "" || a[|a| - 1] == '/') && (b == "" || b[0] == '/')
  }

  /** Two dots stand alone between slashes or ends. */
  ghost predicate HasTwoDots(rel: string) {
    exists a: string, b: string :: WholePiece(a, b) && rel == a + ".." + b
  }

  /** Two dots alone in what follows a slash stand alone in the whole. */
  lemma Prepend(head: string, a: string, b: string)
    requires WholePiece(a, b) && head != "" && head[|head| - 1] == '/'
    ensures WholePiece(head + a, b) && head + (a + ".." + b) == (head + a) + ".." + b
  {
  }

  lemma CutAtSlash(rel: string, i: nat)
    requires i < |rel| && rel[i] == '/'
    ensures rel == rel[..i + 1] + rel[i + 1..] == rel[..i] + rel[i..]
    ensures rel[..i + 1] != "" && rel[..i + 1][i] == '/' && WholePiece("", rel[i..])
  {
  }

  lemma {:induction false} ClimbsHasTwoDots(rel: string) returns (a: string, b: string)
    requires Climbs(rel)
    ensures WholePiece(a, b) && rel == a + ".." + b
    decreases |rel|
  {
    hide Find, SplitOn, WholePiece;
    SplitStep(rel, "/");
    var i := Find(rel, "/", 0);
    if i == NPOS {
      AllOfIt();
      a, b := "", "";
      assert rel == "" + ".." + "";
    } else {
      CharAt(rel, '/', i);
      CutAtSlash(rel, i);
      if rel[..i] == ".." {
        a, b := "", rel[i..];
        assert rel == "" + ".." + rel[i..];
      } else {
        a, b := ClimbsHasTwoDots(rel[i + 1..]);
        Prepend(rel[..i + 1], a, b);
        a := rel[..i + 1] + a;
      }
    }
  }

  lemma AllOfIt()
    ensures WholePiece("", "")
  {
  }

  lemma {:induction false} TwoDotsClimb(a: string, b: string)
    requires WholePiece(a, b)
    ensures Climbs(a + ".." + b)
    decreases |a|
  {
    hide Find;
    var rel := a + ".." + b;
    SplitStep(rel, "/");
    if a == "" {
      if b == "" {
        assert rel == "..";
        FindAbsent("..", "/");
      } else {
        assert rel == ".." + "/" + b[1..];
        FindAfterPart("..", "/", b[1..]);
        assert rel[..2] == "..";
      }
    } else {
      assert rel[|a| - 1..|a|] == "/";
      assert MatchAt(rel, "/", |a| - 1);
      var i := Find(rel, "/", 0);
      assert rel[i + 1..] == a[i + 1..] + ".." + b;
      TwoDotsClimb(a[i + 1..], b);
    }
  }

  lemma ClimbsIff(rel: string)
    ensures Climbs(rel) <==> HasTwoDots(rel)
  {
    hide Climbs;
    if Climbs(rel) {
      var a, b := ClimbsHasTwoDots(rel);
    }
    if HasTwoDots(rel) {
      var a, b :| WholePiece(a, b) && rel == a + ".." + b;
      TwoDotsClimb(a, b);
    }
  }

  /** Whatever encoding of `s` a client sends behind `/static/`: it gets the file of that name
      behind the root, unless the name is empty, absolute, or has two dots standing alone. */
  lemma ServedIff(root: string, s: string, e: string)
    requires Encodes(s, e)
    ensures FileReplyTo(root, [e]) == if s == "" || s[0] == '/' || HasTwoDots(s) then Forbidden else Serve(root + "/" + s)
  {
    hide Climbs, HasTwoDots;
    DecodeUndoesEncode(s, e);
    ClimbsIff(s);
  }

  // ---------------------------------------------------------------- containment

  /** Following path segments from a directory, the way a path is resolved name by name. */
  function Walk(dir: seq<string>, segs: seq<string>): seq<string>
    decreases |segs|
  {
    if segs == [] then dir
    else
      var s := segs[0];
      Walk(if s == "" || s == "." then dir
           else if s == ".." then (if dir == [] then [] else dir[..|dir| - 1])
           else dir + [s], segs[1..])
  }

  lemma {:induction false} WalkAppend(dir: seq<string>, a: seq<string>, b: seq<string>)
    ensures Walk(dir, a + b) == Walk(Walk(dir, a), b)
    decreases |a|
  {
    if a == [] {
      assert a + b == b;
    } else {
      assert (a + b)[1..] == a[1..] + b;
      var s := a[0];
      var next := if s == "" || s == "." then dir
                  else if s == ".." then (if dir == [] then [] else dir[..|dir| - 1])
                  else dir + [s];
      WalkAppend(next, a[1..], b);
    }
  }

  lemma {:induction false} WalkStaysBelow(dir: seq<string>, segs: seq<string>)
    requires ".." !in segs
    ensures dir <= Walk(dir, segs)
    decreases |segs|
  {
    if segs != [] {
      var s := segs[0];
      assert s in segs;
      var next := if s == "" || s == "." then dir else dir + [s];
      WalkStaysBelow(next, segs[1..]);
      assert dir <= next;
    }
  }

  /** Whatever the request's parameter, encoded slashes and dots included: when a file is
      served, every prefix of the walk along its path, behind the static root, stays at or
      below the static root, from whatever directory the process runs in. */
  lemma ServedStaysBelowRoot(root: string, param: string, cwd: seq<string>, k: nat)
    requires var rel := Decoded(param); rel != "" && rel[0] != '/' && !Climbs(rel)
    requires k <= |SplitOn(Decoded(param), "/")|
    ensures var rel := Decoded(param);
            && SplitOn(root + "/" + rel, "/") == SplitOn(root, "/") + SplitOn(rel, "/")
            && Walk(cwd, SplitOn(root, "/")) <= Walk(cwd, SplitOn(root, "/") + SplitOn(rel, "/")[..k])
  {
    var rel := Decoded(param);
    var segs := SplitOn(rel, "/")[..k];
    SplitAtChar(root, "/", rel);
    WalkAppend(cwd, SplitOn(root, "/"), segs);
    WalkStaysBelow(Walk(cwd, SplitOn(root, "/")), segs);
  }

  /** No encoding of a climbing path gets past the handler. */
  lemma NoEncodedClimb(s: string, e: string)
    requires Climbs(s) && Encodes(s, e)
    ensures Climbs(Decoded(e))
  {
    DecodeUndoesEncode(s, e);
  }
}
