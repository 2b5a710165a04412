/** The route table: patterns and paths cut at slashes, segment matching with parameters and
    prefix routes, and first-match dispatch with an optional rate limit. */
module Router {
  import opened Text
  import Limits = RateLimiter

  // ---------------------------------------------------------------- paths as segments

  function NonEmpty(parts: seq<string>): seq<string> {
    if parts == [] then []
    else (if parts[0] == "" then [] else [parts[0]]) + NonEmpty(parts[1..])
  }

  /** The segments of a path: what stands after its slashes, empty pieces left out. */
  function SegmentsOf(path: string): seq<string> { NonEmpty(SplitOn(path, "/")[1..]) }

  predicate IsSegment(s: string) { s != "" && '/' !in s }

  predicate AreSegments(segs: seq<string>) { forall s :: s in segs ==> IsSegment(s) }

  /** The path with the given segments; the root path has none. */
  function JoinedPath(segs: seq<string>): string { "/" + JoinWith(segs, "/") }

  lemma {:induction false} NonEmptyKeepsSegments(segs: seq<string>)
    requires AreSegments(segs)
    ensures NonEmpty(segs) == segs
  {
    if segs != [] {
      assert segs[0] in segs;
      NonEmptyKeepsSegments(segs[1..]);
    }
  }

  lemma SplitAtFront(t: string)
    ensures SplitOn("/" + t, "/") == [""] + SplitOn(t, "/")
  {
    var s := "/" + t;
    assert s == "" + "/" + t;
    FindAfterPart("", "/", t);
    assert s[..0] == "" && s[1..] == t;
  }

  /** Cutting undoes joining. */
  lemma SegmentsOfPath(segs: seq<string>)
    requires AreSegments(segs)
    ensures SegmentsOf(JoinedPath(segs)) == segs
  {
    hide Find;
    SplitAtFront(JoinWith(segs, "/"));
    if segs == [] {
      assert SplitOn("", "/") == [""] by { FindAbsent("", "/"); }
      assert SplitOn(JoinedPath(segs), "/")[1..] == [""] && [""][1..] == [];
      assert NonEmpty([""]) == [];
    } else {
      SplitOfJoin(segs, "/");
      assert SplitOn(JoinedPath(segs), "/")[1..] == segs;
      NonEmptyKeepsSegments(segs);
    }
  }

  lemma {:induction false} SplitPartsHaveNoSlash(s: string)
    ensures forall p :: p in SplitOn(s, "/") ==> '/' !in p
    decreases |s|
  {
    hide Find, MatchAt;
    SplitStep(s, "/");
    var i := Find(s, "/", 0);
    if i == NPOS {
      NoCharFound(s, "/");
    } else {
      FoundInBounds(s, "/");
      BeforeFirst(s, i);
      SplitPartsHaveNoSlash(s[i + 1..]);
    }
  }

  lemma BeforeFirst(s: string, i: nat)
    requires i < |s| && Find(s, "/", 0) == i
    ensures '/' !in s[..i]
  {
    forall k | 0 <= k < i ensures s[k] != '/' {
      assert s[k..k + 1] == [s[k]];
      assert !MatchAt(s, "/", k);
    }
  }

  lemma {:induction false} NonEmptyMembers(parts: seq<string>)
    ensures forall p :: p in NonEmpty(parts) <==> p in parts && p != ""
  {
    if parts != [] {
      NonEmptyMembers(parts[1..]);
      assert parts == [parts[0]] + parts[1..];
    }
  }

  /** Whatever the path, what is cut out are proper segments. */
  lemma SegmentsAreProper(path: string)
    ensures AreSegments(SegmentsOf(path))
  {
    SplitPartsHaveNoSlash(path);
    NonEmptyMembers(SplitOn(path, "/")[1..]);
  }

  /** The segments behind position `pos`. */
  function SegmentsFrom(path: string, pos: nat): seq<string>
    requires pos <= |path|
  {
    SegmentsOf(path[pos..])
  }

  lemma SkipOther(path: string, pos: nat)
    requires pos < |path| && path[pos] != '/'
    ensures SegmentsFrom(path, pos) == SegmentsFrom(path, pos + 1)
  {
    hide Find, MatchAt;
    var s, t := path[pos..], path[pos + 1..];
    assert s == [path[pos]] + t && s[1..] == t;
    ShiftByOne(path[pos], t);
    SplitStep(s, "/");
    SplitStep(t, "/");
    var i := Find(t, "/", 0);
    if i != NPOS {
      FoundInBounds(t, "/");
      assert s[i + 2..] == t[i + 1..];
      assert SplitOn(s, "/")[1..] == SplitOn(t, "/")[1..];
    } else {
      assert SplitOn(s, "/")[1..] == [] == SplitOn(t, "/")[1..];
    }
  }

  lemma ShiftByOne(c: char, t: string)
    requires c != '/'
    ensures Find([c] + t, "/", 0) == if Find(t, "/", 0) == NPOS then NPOS else Find(t, "/", 0) + 1
  {
    var s := [c] + t;
    forall j | 0 <= j < |t| ensures MatchAt(s, "/", j + 1) == MatchAt(t, "/", j) {
      assert s[j + 1..j + 2] == [t[j]] == t[j..j + 1];
    }
    NoMatchByFirst(s, "/", 0);
    var i := Find(t, "/", 0);
    forall j | 0 <= j && (i == NPOS || j < i + 1) ensures !MatchAt(s, "/", j) {
      if 0 < j < |s| {
        assert !MatchAt(t, "/", j - 1);
      }
    }
    if i != NPOS {
      assert MatchAt(s, "/", i + 1);
    }
  }

  lemma SegmentsAfterSlash(path: string, pos: nat)
    requires pos < |path| && path[pos] == '/'
    ensures SegmentsFrom(path, pos) == NonEmpty(SplitOn(path[pos + 1..], "/"))
  {
    hide Find, SplitOn;
    var t := path[pos + 1..];
    assert path[pos..] == "/" + t;
    SplitAtFront(t);
    assert SplitOn(path[pos..], "/")[1..] == SplitOn(t, "/");
  }

  lemma NothingAfterEnd(path: string)
    ensures SegmentsFrom(path, |path|) == []
  {
    hide Find;
    assert path[|path|..] == "";
    FindAbsent("", "/");
    SplitStep("", "/");
    assert SplitOn("", "/")[1..] == [];
  }

  /** From a slash, the next segment runs to the next slash or the end. */
  lemma TakeSegment(path: string, pos: nat, end: nat)
    requires pos < |path| && path[pos] == '/'
    requires var f := Find(path, "/", pos + 1); end == if f == NPOS then |path| else f
    ensures pos < end <= |path| && (end < |path| ==> path[end] == '/')
    ensures SegmentsFrom(path, pos) == NonEmpty([path[pos + 1..end]]) + SegmentsFrom(path, end)
  {
    hide Find, SplitOn, MatchAt, NonEmpty, SegmentsFrom;
    var t, f := path[pos + 1..], Find(path, "/", pos + 1);
    SegmentsAfterSlash(path, pos);
    FindBehind(path, '/', pos + 1);
    if f != NPOS { CharAt(path, '/', f); }
    var piece := path[pos + 1..end];
    SplitStep(t, "/");
    if f == NPOS {
      assert t == piece;
      NothingAfterEnd(path);
      assert NonEmpty([piece]) + [] == NonEmpty([piece]);
    } else {
      assert t[..f - pos - 1] == piece && t[f - pos..] == path[f + 1..];
      SegmentsAfterSlash(path, end);
      NonEmptyCons(piece, SplitOn(path[f + 1..], "/"));
    }
  }

  lemma NonEmptyOne(s: string)
    ensures NonEmpty([s]) == if s == "" then [] else [s]
  {
    assert [s][1..] == [];
  }

  lemma FromStart(path: string)
    ensures SegmentsFrom(path, 0) == SegmentsOf(path)
  {
    assert path[0..] == path;
  }

  lemma NonEmptyCons(first: string, rest: seq<string>)
    ensures NonEmpty([first] + rest) == NonEmpty([first]) + NonEmpty(rest)
  {
    assert ([first] + rest)[1..] == rest && [first][1..] == [];
    assert NonEmpty([first]) == (if first == "" then [] else [first]) + NonEmpty([]);
  }

  // ---------------------------------------------------------------- matching

  /** `verb` is the method of the request line, `handler` numbers the handler. */
  datatype Route = Route(verb: string, segments: seq<string>, prefix: bool, rateLimited: bool, handler: nat)

  predicate IsParameter(segment: string) { segment != "" && segment[0] == ':' }

  /** The pattern with its parameters replaced, in order, by `params`. */
  function Fill(pattern: seq<string>, params: seq<string>): Option<seq<string>> {
    if pattern == [] then (if params == [] then Some([]) else None)
    else if IsParameter(pattern[0]) then
      if params == [] then None
      else match Fill(pattern[1..], params[1..])
        case None => None
        case Some(segs) => Some([params[0]] + segs)
    else match Fill(pattern[1..], params)
      case None => None
      case Some(segs) => Some([pattern[0]] + segs)
  }

  /** What the parameters of a pattern capture from as many segments. */
  function Captures(pattern: seq<string>, segs: seq<string>): Option<seq<string>>
    requires |pattern| == |segs|
  {
    if pattern == [] then Some([])
    else if IsParameter(pattern[0]) then
      match Captures(pattern[1..], segs[1..])
      case None => None
      case Some(params) => Some([segs[0]] + params)
    else if pattern[0] == segs[0] then Captures(pattern[1..], segs[1..])
    else None
  }

  /** Matching and filling undo each other: a pattern matches exactly the segments that some
      parameters rebuild, and those parameters are the ones captured. */
  lemma {:induction false} CapturesIffFills(pattern: seq<string>, segs: seq<string>, params: seq<string>)
    requires |pattern| == |segs|
    ensures Captures(pattern, segs) == Some(params) <==> Fill(pattern, params) == Some(segs)
    decreases |pattern|
  {
    if pattern != [] {
      assert segs == [segs[0]] + segs[1..];
      if IsParameter(pattern[0]) {
        if params != [] {
          assert params == [params[0]] + params[1..];
          CapturesIffFills(pattern[1..], segs[1..], params[1..]);
        }
      } else {
        CapturesIffFills(pattern[1..], segs[1..], params);
      }
    }
  }

  lemma {:induction false} FillLength(pattern: seq<string>, params: seq<string>)
    ensures Fill(pattern, params).Some? ==> |Fill(pattern, params).value| == |pattern|
  {
    if pattern != [] {
      FillLength(pattern[1..], params);
      if params != [] { FillLength(pattern[1..], params[1..]); }
    }
  }

  /** Filling the route with `params` rebuilds the segments; the last parameter of a prefix
      route is the rest of the path. */
  predicate Rebuilds(route: Route, params: seq<string>, segs: seq<string>) {
    var n := |route.segments|;
    if !route.prefix then Fill(route.segments, params) == Some(segs)
    else
      && params != [] && n <= |segs|
      && Fill(route.segments, params[..|params| - 1]) == Some(segs[..n])
      && params[|params| - 1] == JoinWith(segs[n..], "/")
  }

  function MatchOf(route: Route, segs: seq<string>): Option<seq<string>> {
    var n := |route.segments|;
    if route.prefix then
      if |segs| < n then None
      else match Captures(route.segments, segs[..n])
        case None => None
        case Some(params) => Some(params + [JoinWith(segs[n..], "/")])
    else if |segs| != n then None
    else Captures(route.segments, segs)
  }

  /** A route matches a path iff filling it rebuilds the path, with unique parameters. */
  lemma MatchIffRebuilds(route: Route, segs: seq<string>, params: seq<string>)
    ensures MatchOf(route, segs) == Some(params) <==> Rebuilds(route, params, segs)
  {
    var n := |route.segments|;
    if !route.prefix {
      FillLength(route.segments, params);
      if |segs| == n { CapturesIffFills(route.segments, segs, params); }
    } else if n <= |segs| && params != [] {
      var init, last := params[..|params| - 1], params[|params| - 1];
      assert params == init + [last];
      CapturesIffFills(route.segments, segs[..n], init);
      var c := Captures(route.segments, segs[..n]);
      if c.Some? && MatchOf(route, segs) == Some(params) {
        assert c.value == (c.value + [JoinWith(segs[n..], "/")])[..|params| - 1] == init;
      }
    }
  }

  /** The rest captured by a prefix route is the same path again: cutting it gives the segments
      it was joined from. */
  lemma PrefixRestRecut(route: Route, segs: seq<string>, params: seq<string>)
    requires route.prefix && AreSegments(segs) && MatchOf(route, segs) == Some(params)
    ensures SegmentsOf("/" + params[|params| - 1]) == segs[|route.segments|..]
  {
    SegmentsOfPath(segs[|route.segments|..]);
  }

  // ---------------------------------------------------------------- dispatch

  datatype Decision =
    | NoRoute
    | WrongMethod
    | Throttled
    | Handle(route: nat, params: seq<string>)

  predicate Answers(route: Route, verb: string, segs: seq<string>) {
    MatchOf(route, segs).Some? && route.verb == verb
  }

  /** The first route for path and method; as many as there are routes when there is none. */
  function FirstRoute(routes: seq<Route>, verb: string, segs: seq<string>): (i: nat)
    ensures i <= |routes|
    ensures forall j :: 0 <= j < i ==> !Answers(routes[j], verb, segs)
    ensures i < |routes| ==> Answers(routes[i], verb, segs)
  {
    if routes == [] || Answers(routes[0], verb, segs) then 0
    else
      var i := FirstRoute(routes[1..], verb, segs);
      assert forall j :: 1 <= j < 1 + i ==> routes[j] == routes[1..][j - 1];
      1 + i
  }

  /** The decision on a request, if the limiter's answer for its client is `allowed`: the first
      route for path and method, unless it is limited and the answer is no; a path known only
      for other methods is told so. */
  function Decide(routes: seq<Route>, verb: string, segs: seq<string>, allowed: bool): (d: Decision)
    ensures d.Handle? ==> d.route < |routes|
  {
    var i := FirstRoute(routes, verb, segs);
    if i == |routes| then
      if exists j :: 0 <= j < |routes| && MatchOf(routes[j], segs).Some? then WrongMethod else NoRoute
    else if routes[i].rateLimited && !allowed then Throttled
    else Handle(i, MatchOf(routes[i], segs).value)
  }

  /** Some parameters make the route into the path. */
  ghost predicate Leads(route: Route, segs: seq<string>) {
    exists params: seq<string> :: Rebuilds(route, params, segs)
  }

  lemma LeadsIffMatches(route: Route, segs: seq<string>)
    ensures Leads(route, segs) <==> MatchOf(route, segs).Some?
  {
    hide Rebuilds, MatchOf;
    if MatchOf(route, segs).Some? {
      MatchIffRebuilds(route, segs, MatchOf(route, segs).value);
    }
    forall params: seq<string> ensures Rebuilds(route, params, segs) ==> MatchOf(route, segs) == Some(params) {
      MatchIffRebuilds(route, segs, params);
    }
  }

  /** The first route that leads to the path for this method. */
  ghost predicate IsFirst(routes: seq<Route>, verb: string, segs: seq<string>, i: nat) {
    && i < |routes| && Leads(routes[i], segs) && routes[i].verb == verb
    && forall j :: 0 <= j < i && Leads(routes[j], segs) ==> routes[j].verb != verb
  }

  lemma FirstRouteIsFirst(routes: seq<Route>, verb: string, segs: seq<string>)
    ensures var i := FirstRoute(routes, verb, segs);
            if i == |routes| then forall j :: 0 <= j < |routes| && Leads(routes[j], segs) ==> routes[j].verb != verb
            else IsFirst(routes, verb, segs, i)
  {
    hide FirstRoute, MatchOf, Leads;
    forall j | 0 <= j < |routes| ensures Leads(routes[j], segs) <==> MatchOf(routes[j], segs).Some? {
      LeadsIffMatches(routes[j], segs);
    }
  }

  lemma OnlyOneFirst(routes: seq<Route>, verb: string, segs: seq<string>, i: nat, j: nat)
    requires IsFirst(routes, verb, segs, i) && IsFirst(routes, verb, segs, j)
    ensures i == j
  {
  }

  /** Each outcome by what the routes and the path are: 404 when no route leads there, 405 when
      some do, but none for this method; otherwise the first one for it decides, which the
      limiter refuses iff it is a limited one and the answer is no. */
  lemma DecisionMeans(routes: seq<Route>, verb: string, segs: seq<string>, allowed: bool)
    ensures var d := Decide(routes, verb, segs, allowed);
            && (d.NoRoute? <==> forall j :: 0 <= j < |routes| ==> !Leads(routes[j], segs))
            && (d.WrongMethod? <==>
                  && (exists j :: 0 <= j < |routes| && Leads(routes[j], segs))
                  && forall j :: 0 <= j < |routes| && Leads(routes[j], segs) ==> routes[j].verb != verb)
            && (d.Throttled? <==> exists i: nat :: IsFirst(routes, verb, segs, i) && routes[i].rateLimited && !allowed)
            && (d.Handle? <==> exists i: nat :: IsFirst(routes, verb, segs, i) && (routes[i].rateLimited ==> allowed))
            && (d.Handle? ==> IsFirst(routes, verb, segs, d.route) && Rebuilds(routes[d.route], d.params, segs))
  {
    hide FirstRoute, MatchOf, Leads, Rebuilds, IsFirst;
    FirstRouteIsFirst(routes, verb, segs);
    forall j | 0 <= j < |routes| ensures Leads(routes[j], segs) <==> MatchOf(routes[j], segs).Some? {
      LeadsIffMatches(routes[j], segs);
    }
    var f := FirstRoute(routes, verb, segs);
    if f < |routes| {
      FirstFacts(routes, verb, segs, f);
      MatchIffRebuilds(routes[f], segs, MatchOf(routes[f], segs).value);
      forall i: nat | IsFirst(routes, verb, segs, i) ensures i == f {
        OnlyOneFirst(routes, verb, segs, i, f);
      }
    } else {
      forall i: nat ensures !IsFirst(routes, verb, segs, i) {
        NoFirst(routes, verb, segs, i);
      }
    }
  }

  lemma FirstFacts(routes: seq<Route>, verb: string, segs: seq<string>, i: nat)
    requires IsFirst(routes, verb, segs, i)
    ensures i < |routes| && Leads(routes[i], segs) && routes[i].verb == verb
  {
  }

  lemma NoFirst(routes: seq<Route>, verb: string, segs: seq<string>, i: nat)
    requires forall j :: 0 <= j < |routes| && Leads(routes[j], segs) ==> routes[j].verb != verb
    ensures !IsFirst(routes, verb, segs, i)
  {
  }

  /** Whether the decision needs the limiter's answer. */
  predicate AsksLimiter(routes: seq<Route>, verb: string, segs: seq<string>) {
    var i := FirstRoute(routes, verb, segs);
    i < |routes| && routes[i].rateLimited
  }

  /** The route that `pattern` describes. */
  function RouteFor(verb: string, pattern: string, handler: nat, rateLimited: bool): Route {
    var n := |pattern|;
    var prefix := n > 2 && pattern[n - 2..] == "/*";
    Route(verb, SegmentsOf(if prefix then pattern[..n - 2] else pattern), prefix, rateLimited, handler)
  }

  method Tokenise(path: string) returns (segs: seq<string>)
    ensures segs == SegmentsOf(path)
  {
    hide Find, SegmentsFrom, SegmentsOf;
    segs := [];
    var pos := 0;
    assert SegmentsFrom(path, 0) == SegmentsOf(path) by { FromStart(path); }
    assert [] + SegmentsOf(path) == SegmentsOf(path);
    while pos < |path|
      invariant pos <= |path|
      invariant segs + SegmentsFrom(path, pos) == SegmentsOf(path)
      decreases |path| - pos
    {
      if path[pos] != '/' {
        SkipOther(path, pos);
        pos := pos + 1;
        continue;
      }
      var found := Find(path, "/", pos + 1);
      var end: nat := if found == NPOS then |path| else found;
      TakeSegment(path, pos, end);
      NonEmptyOne(path[pos + 1..end]);
      if end > pos + 1 {
        segs := segs + [path[pos + 1..end]];
      }
      pos := end;
    }
    NothingAfterEnd(path);
    assert segs + [] == segs;
  }

  /** What the limiter would answer for this key at this time. */
  ghost predicate Allows(limiter: Limits.RateLimiter, key: string, now: real)
    reads limiter
  {
    Limits.WithinWindow(limiter.capacity as real, limiter.refillPerSec, limiter.Admitted(key), now)
  }

  class Router {
    var routes: seq<Route>

    ghost predicate Valid()
      reads this
    {
      forall i :: 0 <= i < |routes| ==> AreSegments(routes[i].segments)
    }

    constructor ()
      ensures Valid() && routes == []
    {
      routes := [];
    }

    method Add(verb: string, pattern: string, handler: nat, rateLimited: bool)
      requires Valid()
      modifies this
      ensures Valid() && routes == old(routes) + [RouteFor(verb, pattern, handler, rateLimited)]
    {
      var p, prefix := pattern, false;
      if |p| > 2 && p[|p| - 2..] == "/*" {
        prefix := true;
        p := p[..|p| - 2];
      }
      var segments := Tokenise(p);
      SegmentsAreProper(p);
      routes := routes + [Route(verb, segments, prefix, rateLimited, handler)];
    }

    method MatchSegments(route: Route, segs: seq<string>) returns (ok: bool, params: seq<string>)
      requires AreSegments(route.segments)
      ensures if ok then MatchOf(route, segs) == Some(params) else MatchOf(route, segs) == None
    {
      params := [];
      var n := |route.segments|;
      if route.prefix {
        if |segs| < n { return false, params; }
        ok, params := MatchEach(route.segments, segs[..n]);
        if !ok { return; }
        var rest := "";
        var i := n;
        while i < |segs|
          invariant n <= i <= |segs|
          invariant rest == JoinWith(segs[n..i], "/")
        {
          JoinSnoc(segs[n..i], segs[i]);
          assert segs[n..i] + [segs[i]] == segs[n..i + 1];
          if i > n { rest := rest + "/"; }
          rest := rest + segs[i];
          i := i + 1;
        }
        assert segs[n..i] == segs[n..];
        params := params + [rest];
        return;
      }
      if |segs| != n { return false, params; }
      ok, params := MatchEach(route.segments, segs);
    }

    method MatchEach(pattern: seq<string>, segs: seq<string>) returns (ok: bool, params: seq<string>)
      requires |pattern| == |segs| && AreSegments(pattern)
      ensures Captures(pattern, segs) == if ok then Some(params) else None
    {
      params := [];
      var i := 0;
      assert pattern[0..] == pattern && segs[0..] == segs;
      PrefixedNone(Captures(pattern, segs));
      while i < |pattern|
        invariant i <= |pattern|
        invariant Captures(pattern, segs) == Prefixed(params, Captures(pattern[i..], segs[i..]))
      {
        assert pattern[i] in pattern;
        assert pattern[i..][1..] == pattern[i + 1..] && segs[i..][1..] == segs[i + 1..];
        if pattern[i][0] == ':' {
          PrefixedSnoc(params, segs[i], Captures(pattern[i + 1..], segs[i + 1..]));
          params := params + [segs[i]];
        } else if pattern[i] != segs[i] {
          return false, params;
        }
        i := i + 1;
      }
      assert params + [] == params;
      ok := true;
    }

    /** The first route for path and method decides, after its rate limit. The limiter is asked
        for a limited route only, and then once. */
    method Dispatch(path: string, verb: string, clientIp: string, limiter: Limits.RateLimiter, now: real, later: real)
      returns (d: Decision)
      requires Valid() && limiter.Valid() && limiter.clock <= now <= later
      modifies limiter
      ensures Valid() && routes == old(routes) && limiter.Valid()
      ensures d == Decide(routes, verb, SegmentsOf(path), old(Allows(limiter, clientIp, now)))
      ensures !AsksLimiter(routes, verb, SegmentsOf(path)) ==> unchanged(limiter)
      ensures AsksLimiter(routes, verb, SegmentsOf(path)) ==>
        && limiter.buckets
           == Limits.BucketsAfter(limiter.capacity as real, limiter.refillPerSec, old(limiter.buckets), clientIp, now, later)
        && limiter.history == if d.Throttled? then old(limiter.history)
                              else old(limiter.history)[clientIp := old(limiter.Admitted(clientIp)) + [now]]
    {
      var segs := Tokenise(path);
      var pathMatched := false;
      var i := 0;
      while i < |routes|
        invariant i <= |routes|
        invariant unchanged(limiter)
        invariant forall j :: 0 <= j < i ==> !Answers(routes[j], verb, segs)
        invariant pathMatched <==> exists j :: 0 <= j < i && MatchOf(routes[j], segs).Some?
      {
        var route := routes[i];
        var ok, params := MatchSegments(route, segs);
        if ok {
          if route.verb != verb {
            pathMatched := true;
          } else {
            FirstIs(routes, verb, segs, i);
            if route.rateLimited {
              var allowed := limiter.Allow(clientIp, now, later);
              if !allowed { return Throttled; }
            }
            return Handle(i, params);
          }
        }
        i := i + 1;
      }
      FirstIs(routes, verb, segs, i);
      return if pathMatched then WrongMethod else NoRoute;
    }
  }

  function Prefixed(params: seq<string>, rest: Option<seq<string>>): Option<seq<string>> {
    match rest
    case None => None
    case Some(more) => Some(params + more)
  }

  lemma PrefixedNone(rest: Option<seq<string>>)
    ensures Prefixed([], rest) == rest
  {
    match rest
    case None =>
    case Some(more) => assert [] + more == more;
  }

  lemma PrefixedSnoc(params: seq<string>, x: string, rest: Option<seq<string>>)
    ensures Prefixed(params, Prefixed([x], rest)) == Prefixed(params + [x], rest)
  {
    match rest
    case None =>
    case Some(more) => assert params + ([x] + more) == params + [x] + more;
  }

  lemma {:induction false} JoinSnoc(parts: seq<string>, last: string)
    ensures JoinWith(parts + [last], "/") == if parts == [] then last else JoinWith(parts, "/") + "/" + last
  {
    if |parts| == 1 {
      assert (parts + [last])[1..] == [last];
    } else if |parts| > 1 {
      assert (parts + [last])[1..] == parts[1..] + [last];
      JoinSnoc(parts[1..], last);
    }
  }

  lemma FirstIs(routes: seq<Route>, verb: string, segs: seq<string>, i: nat)
    requires i <= |routes| && forall j :: 0 <= j < i ==> !Answers(routes[j], verb, segs)
    requires i < |routes| ==> Answers(routes[i], verb, segs)
    ensures FirstRoute(routes, verb, segs) == i
  {
    var f := FirstRoute(routes, verb, segs);
    assert !(f < i) && !(i < f);
  }
}
