/** The server's own route table and handlers, and what a client gets from them: from request
    bytes through parser, router and store to answers. */
module Handlers {
  import opened Text
  import opened HeaderBlock
  import opened HttpRequest
  import opened RequestTheorems
  import opened Connection
  import opened ConnectionTheorems
  import opened HttpResponse
  import opened Replies
  import Chunking
  import R = Router
  import Limits = RateLimiter
  import StaticFiles

  /** The key-value store, and the answers the rate limiter is going to give (none left: yes). */
  datatype App = App(store: map<string, string>, allowances: seq<bool>)

  const HOME: nat := 0
  const ABOUT: nat := 1
  const STATIC: nat := 2
  const KV_PUT: nat := 3
  const KV_GET: nat := 4
  const KV_DELETE: nat := 5
  const KV_LIST: nat := 6
  const ECHO: nat := 7

  function Routes(): seq<R.Route> {
    [ R.Route("GET", [], false, false, HOME),
      R.Route("GET", ["about"], false, false, ABOUT),
      R.Route("GET", ["static"], true, false, STATIC),
      R.Route("PUT", ["kv", ":key"], false, false, KV_PUT),
      R.Route("GET", ["kv", ":key"], false, false, KV_GET),
      R.Route("DELETE", ["kv", ":key"], false, false, KV_DELETE),
      R.Route("GET", ["kv"], false, false, KV_LIST),
      R.Route("POST", ["echo"], false, true, ECHO) ]
  }

  /** A plain pattern describes the segments it is made of. */
  lemma PatternRoute(verb: string, pattern: string, segs: seq<string>, handler: nat, limited: bool)
    requires R.AreSegments(segs) && pattern == R.JoinedPath(segs)
    requires |pattern| <= 2 || pattern[|pattern| - 2..] != "/*"
    ensures R.RouteFor(verb, pattern, handler, limited) == R.Route(verb, segs, false, limited, handler)
  {
    hide R.SegmentsOf;
    R.SegmentsOfPath(segs);
  }

  /** So does the pattern of a prefix route. */
  lemma PrefixRoute(verb: string, pattern: string, segs: seq<string>, handler: nat, limited: bool)
    requires R.AreSegments(segs) && pattern == R.JoinedPath(segs) + "/*"
    ensures R.RouteFor(verb, pattern, handler, limited) == R.Route(verb, segs, true, limited, handler)
  {
    hide R.SegmentsOf;
    R.SegmentsOfPath(segs);
    var n := |pattern| - 2;
    assert pattern[n..] == "/*" && pattern[..n] == R.JoinedPath(segs);
  }

  /** The table, built once by adding the patterns in order. */
  method BuildRouter() returns (router: R.Router)
    ensures router.Valid() && router.routes == Routes() && fresh(router)
  {
    hide R.SegmentsOf, R.RouteFor;
    router := new R.Router();
    PatternRoute("GET", "/", [], HOME, false);
    router.Add("GET", "/", HOME, false);
    PatternRoute("GET", "/about", ["about"], ABOUT, false);
    router.Add("GET", "/about", ABOUT, false);
    PrefixRoute("GET", "/static/*", ["static"], STATIC, false);
    router.Add("GET", "/static/*", STATIC, false);
    AddStoreRoutes(router);
    PatternRoute("POST", "/echo", ["echo"], ECHO, true);
    router.Add("POST", "/echo", ECHO, true);
  }

  /** The part of the table that serves the store. */
  method AddStoreRoutes(router: R.Router)
    requires router.Valid()
    modifies router
    ensures router.Valid() && router.routes == old(router.routes) + Routes()[3..7]
  {
    hide R.SegmentsOf, R.RouteFor;
    PatternRoute("PUT", "/kv/:key", ["kv", ":key"], KV_PUT, false);
    router.Add("PUT", "/kv/:key", KV_PUT, false);
    PatternRoute("GET", "/kv/:key", ["kv", ":key"], KV_GET, false);
    router.Add("GET", "/kv/:key", KV_GET, false);
    PatternRoute("DELETE", "/kv/:key", ["kv", ":key"], KV_DELETE, false);
    router.Add("DELETE", "/kv/:key", KV_DELETE, false);
    PatternRoute("GET", "/kv", ["kv"], KV_LIST, false);
    router.Add("GET", "/kv", KV_LIST, false);
  }

  /** Where static files live, how the store is listed, and what the file system holds. */
  datatype Setup = Setup(
    root: string,
    dump: map<string, string> -> string,
    open: string -> Opened,
    mime: string -> string
  )

  function RunHandler(setup: Setup, app: App, handler: nat, params: seq<string>, request: Request): (App, Reply) {
    if handler == HOME then (app, Page(200, "Hello, World! This is the home page."))
    else if handler == ABOUT then (app, Page(200, "About Us: This is a simple HTTP server."))
    else if handler == STATIC then
      (app, match StaticFiles.FileReplyTo(setup.root, params)
            case NotFound => Page(404, "404 Not Found")
            case Forbidden => Page(403, "403 Forbidden")
            case Serve(path) => StaticFile(path))
    else if handler == KV_LIST then (app, Page(200, setup.dump(app.store)))
    else if handler == ECHO then (app, Page(200, "Received POST data: " + request.body))
    else if params == [] then (app, Page(404, "not found"))
    else if handler == KV_PUT then (app.(store := app.store[params[0] := request.body]), Page(200, "ok"))
    else if params[0] !in app.store then (app, Page(404, "not found"))
    else if handler == KV_GET then (app, Page(200, app.store[params[0]]))
    else (app.(store := app.store - {params[0]}), Page(200, "deleted"))
  }

  /** Routing and handling a request: the first route for path and method, its rate limit, its
      handler; 405 for a path known for other methods only. */
  function HandleRequest(setup: Setup, app: App, request: Request): (App, Reply) {
    var segs := R.SegmentsOf(request.path);
    var left := app.allowances;
    var asked := if left != [] && R.AsksLimiter(Routes(), request.verb, segs) then app.(allowances := left[1..]) else app;
    ReplyTo(setup, asked, request, R.Decide(Routes(), request.verb, segs, left == [] || left[0]))
  }

  /** What becomes of the router's decision. */
  function ReplyTo(setup: Setup, app: App, request: Request, d: R.Decision): (App, Reply)
    requires d.Handle? ==> d.route < |Routes()|
  {
    match d
    case NoRoute => (app, Unrouted)
    case WrongMethod => (app, Page(405, "405 Method Not Allowed: The requested method is not supported."))
    case Throttled => (app, Page(429, "429 Too Many Requests: rate limit exceeded."))
    case Handle(i, params) => RunHandler(setup, app, Routes()[i].handler, params, request)
  }

  /** Serving a request with the router and limiter objects does what `HandleRequest` says when
      the next answer of the limiter is the one it gives. */
  method Serve(setup: Setup, router: R.Router, limiter: Limits.RateLimiter, store: map<string, string>,
               clientIp: string, request: Request, now: real, later: real)
    returns (store': map<string, string>, reply: Reply)
    requires router.Valid() && router.routes == Routes() && limiter.Valid() && limiter.clock <= now <= later
    modifies limiter
    ensures limiter.Valid()
    ensures var (app, r) := HandleRequest(setup, App(store, [old(R.Allows(limiter, clientIp, now))]), request);
            store' == app.store && reply == r
    ensures !R.AsksLimiter(Routes(), request.verb, R.SegmentsOf(request.path)) ==> unchanged(limiter)
  {
    hide R.Decide, R.Allows, R.AsksLimiter, HandleRequest, ReplyTo, Limits.BucketsAfter, Routes;
    ghost var allowed := R.Allows(limiter, clientIp, now);
    OneAnswerLeft(setup, store, request, allowed);
    var d := router.Dispatch(request.path, request.verb, clientIp, limiter, now, later);
    var (app, r) := ReplyTo(setup, App(store, []), request, d);
    store', reply := app.store, r;
  }

  /** Handlers do not look at the answers that the limiter is going to give. */
  lemma HandlersIgnoreAllowances(setup: Setup, store: map<string, string>, more: seq<bool>, handler: nat,
                                 params: seq<string>, request: Request)
    ensures var (app, r) := RunHandler(setup, App(store, more), handler, params, request);
            var (app', r') := RunHandler(setup, App(store, []), handler, params, request);
            app.store == app'.store && r == r'
  {
    hide StaticFiles.FileReplyTo;
  }

  lemma RepliesIgnoreAllowances(setup: Setup, store: map<string, string>, more: seq<bool>, request: Request, d: R.Decision)
    requires d.Handle? ==> d.route < |Routes()|
    ensures var (app, r) := ReplyTo(setup, App(store, more), request, d);
            var (app', r') := ReplyTo(setup, App(store, []), request, d);
            app.store == app'.store && r == r'
  {
    hide Routes, RunHandler;
    if d.Handle? {
      HandlersIgnoreAllowances(setup, store, more, Routes()[d.route].handler, d.params, request);
    }
  }

  /** With the limiter's answer at hand, handling is the router's decision and its handler. */
  lemma OneAnswerLeft(setup: Setup, store: map<string, string>, request: Request, allowed: bool)
    ensures var (app, r) := HandleRequest(setup, App(store, [allowed]), request);
            var (app', r') := ReplyTo(setup, App(store, []), request,
                                      R.Decide(Routes(), request.verb, R.SegmentsOf(request.path), allowed));
            app.store == app'.store && r == r'
  {
    hide R.SegmentsOf, R.Decide, R.AsksLimiter, Routes, ReplyTo;
    assert [allowed][1..] == [];
    RepliesIgnoreAllowances(setup, store, [allowed], request,
                            R.Decide(Routes(), request.verb, R.SegmentsOf(request.path), allowed));
  }

  function Server(setup: Setup): Site<App> {
    Connection.Site.Site((app, request) => HandleRequest(setup, app, request), setup.open, setup.mime)
  }

  // ---------------------------------------------------------------- files

  /** Every file the server is ever asked to open lies behind the static root, by a relative
      path that does not climb, whatever the request. */
  lemma OnlyFilesBelowRoot(setup: Setup, app: App, request: Request, cwd: seq<string>, k: nat)
    requires HandleRequest(setup, app, request).1.StaticFile?
    ensures var path := HandleRequest(setup, app, request).1.path;
            && |setup.root| + 1 < |path| && path[..|setup.root| + 1] == setup.root + "/"
            && var below := SplitOn(path[|setup.root| + 1..], "/");
               && SplitOn(path, "/") == SplitOn(setup.root, "/") + below
               && (k <= |below| ==>
                     StaticFiles.Walk(cwd, SplitOn(setup.root, "/"))
                     <= StaticFiles.Walk(cwd, SplitOn(setup.root, "/") + below[..k]))
  {
    hide R.SegmentsOf, R.FirstRoute, R.MatchOf, StaticFiles.Walk, StaticFiles.Decoded, StaticFiles.Climbs, SplitOn;
    var segs := R.SegmentsOf(request.path);
    var i := R.FirstRoute(Routes(), request.verb, segs);
    var params := R.MatchOf(Routes()[i], segs).value;
    var rel := StaticFiles.Decoded(params[0]);
    var path := HandleRequest(setup, app, request).1.path;
    assert path == setup.root + "/" + rel;
    assert path[|setup.root| + 1..] == rel;
    StaticFiles.ServedStaysBelowRoot(setup.root, params[0], cwd, if k <= |SplitOn(rel, "/")| then k else 0);
  }

  // ---------------------------------------------------------------- the store, from the wire

  predicate IsKey(key: string) { R.IsSegment(key) && NoSpace(key) && '?' !in key }

  function KeyPath(key: string): string { R.JoinedPath(["kv", key]) }

  lemma KeySegments(key: string)
    requires R.IsSegment(key)
    ensures R.SegmentsOf(KeyPath(key)) == ["kv", key]
  {
    R.SegmentsOfPath(["kv", key]);
  }

  lemma KeyMatches(route: R.Route, key: string)
    requires route.segments == ["kv", ":key"] && !route.prefix
    ensures R.MatchOf(route, ["kv", key]) == Some([key])
  {
    var p, s := route.segments, ["kv", key];
    assert p[1..] == [":key"] && s[1..] == [key];
    assert [":key"][1..] == [] && [key][1..] == [];
    assert R.Captures([":key"], [key]) == Some([key] + []);
    assert p[0] == "kv" && !R.IsParameter("kv");
    assert R.Captures(p, s) == R.Captures([":key"], [key]);
    assert [key] + [] == [key];
  }

  lemma KeyRoutes(key: string)
    requires R.IsSegment(key)
    ensures R.FirstRoute(Routes(), "PUT", ["kv", key]) == 3
    ensures R.FirstRoute(Routes(), "GET", ["kv", key]) == 4
    ensures R.MatchOf(Routes()[3], ["kv", key]) == R.MatchOf(Routes()[4], ["kv", key]) == Some([key])
  {
    hide R.FirstRoute;
    var segs := ["kv", key];
    KeyMatches(Routes()[3], key);
    KeyMatches(Routes()[4], key);
    assert R.MatchOf(Routes()[2], segs) == None by {
      assert segs[..1] == ["kv"] && ["static"] != ["kv"];
      assert R.Captures(["static"], ["kv"]) == None;
    }
    R.FirstIs(Routes(), "PUT", segs, 3);
    R.FirstIs(Routes(), "GET", segs, 4);
  }

  // ---------------------------------------------------------------- the whole table

  lemma OneSegment(word: string, segs: seq<string>)
    requires !R.IsParameter(word) && |segs| == 1
    ensures R.Captures([word], segs) == if segs == [word] then Some([]) else None
  {
    assert [word][1..] == [] && segs[1..] == [] && segs == [segs[0]];
  }

  lemma PlainMatches(route: R.Route, word: string, segs: seq<string>)
    requires route.segments == [word] && !route.prefix && !R.IsParameter(word)
    ensures R.MatchOf(route, segs) == if segs == [word] then Some([]) else None
  {
    if |segs| == 1 { OneSegment(word, segs); }
  }

  lemma KeyOrNone(route: R.Route, segs: seq<string>)
    requires route.segments == ["kv", ":key"] && !route.prefix
    ensures R.MatchOf(route, segs) == if |segs| == 2 && segs[0] == "kv" then Some([segs[1]]) else None
  {
    if |segs| == 2 {
      assert segs == [segs[0], segs[1]];
      if segs[0] == "kv" { KeyMatches(route, segs[1]); }
    }
  }

  lemma StaticMatches(route: R.Route, segs: seq<string>)
    requires route.segments == ["static"] && route.prefix
    ensures R.MatchOf(route, segs)
            == if segs != [] && segs[0] == "static" then Some([JoinWith(segs[1..], "/")]) else None
  {
    if segs != [] {
      assert segs[..1] == [segs[0]];
      OneSegment("static", segs[..1]);
      assert [] + [JoinWith(segs[1..], "/")] == [JoinWith(segs[1..], "/")];
    }
  }

  /** Which routes match which paths. */
  lemma TableMatches(segs: seq<string>)
    ensures R.MatchOf(Routes()[0], segs) == if segs == [] then Some([]) else None
    ensures R.MatchOf(Routes()[1], segs) == if segs == ["about"] then Some([]) else None
    ensures R.MatchOf(Routes()[2], segs)
            == if segs != [] && segs[0] == "static" then Some([JoinWith(segs[1..], "/")]) else None
    ensures forall i :: 3 <= i <= 5 ==>
      R.MatchOf(Routes()[i], segs) == if |segs| == 2 && segs[0] == "kv" then Some([segs[1]]) else None
    ensures R.MatchOf(Routes()[6], segs) == if segs == ["kv"] then Some([]) else None
    ensures R.MatchOf(Routes()[7], segs) == if segs == ["echo"] then Some([]) else None
  {
    var t := Routes();
    PlainMatches(t[1], "about", segs);
    StaticMatches(t[2], segs);
    KeyOrNone(t[3], segs);
    KeyOrNone(t[4], segs);
    KeyOrNone(t[5], segs);
    PlainMatches(t[6], "kv", segs);
    PlainMatches(t[7], "echo", segs);
  }

  /** The one route, if any, that answers this method on this path. */
  lemma TableDecides(verb: string, segs: seq<string>, allowed: bool)
    ensures var d := R.Decide(Routes(), verb, segs, allowed);
            var key := |segs| == 2 && segs[0] == "kv";
            if segs == [] then d == (if verb == "GET" then R.Handle(0, []) else R.WrongMethod)
            else if segs == ["about"] then d == (if verb == "GET" then R.Handle(1, []) else R.WrongMethod)
            else if segs[0] == "static" then
              d == (if verb == "GET" then R.Handle(2, [JoinWith(segs[1..], "/")]) else R.WrongMethod)
            else if key then
              d == (if verb == "PUT" then R.Handle(3, [segs[1]]) else if verb == "GET" then R.Handle(4, [segs[1]])
                    else if verb == "DELETE" then R.Handle(5, [segs[1]]) else R.WrongMethod)
            else if segs == ["kv"] then d == (if verb == "GET" then R.Handle(6, []) else R.WrongMethod)
            else if segs == ["echo"] then
              d == (if verb != "POST" then R.WrongMethod else if allowed then R.Handle(7, []) else R.Throttled)
            else d == R.NoRoute
    ensures R.AsksLimiter(Routes(), verb, segs) <==> verb == "POST" && segs == ["echo"]
  {
    hide R.FirstRoute, R.MatchOf;
    TableMatches(segs);
    var i :=
      if segs == [] && verb == "GET" then 0
      else if segs == ["about"] && verb == "GET" then 1
      else if segs != [] && segs[0] == "static" && verb == "GET" then 2
      else if |segs| == 2 && segs[0] == "kv" && verb == "PUT" then 3
      else if |segs| == 2 && segs[0] == "kv" && verb == "GET" then 4
      else if |segs| == 2 && segs[0] == "kv" && verb == "DELETE" then 5
      else if segs == ["kv"] && verb == "GET" then 6
      else if segs == ["echo"] && verb == "POST" then 7
      else 8;
    R.FirstIs(Routes(), verb, segs, i);
    var known :=
      if segs == [] then 0 else if segs == ["about"] then 1 else if segs[0] == "static" then 2
      else if |segs| == 2 && segs[0] == "kv" then 3 else if segs == ["kv"] then 6 else if segs == ["echo"] then 7 else 8;
    if known < 8 {
      assert R.MatchOf(Routes()[known], segs).Some?;
    } else {
      forall j | 0 <= j < |Routes()| ensures R.MatchOf(Routes()[j], segs) == None {
        assert j == 0 || j == 1 || j == 2 || 3 <= j <= 5 || j == 6 || j == 7;
      }
    }
  }

  lemma HandlersByNumber()
    ensures |Routes()| == 8 && forall i :: 0 <= i < 8 ==> Routes()[i].handler == i
  {
  }

  /** The handler behind `/static/`. */
  lemma StaticHandlerDoes(setup: Setup, app: App, param: string, request: Request)
    ensures var rel := StaticFiles.Decoded(param);
            RunHandler(setup, app, STATIC, [param], request)
            == (app, if rel == "" || rel[0] == '/' || StaticFiles.HasTwoDots(rel) then Page(403, "403 Forbidden")
                     else StaticFile(setup.root + "/" + rel))
  {
    hide StaticFiles.Decoded, StaticFiles.Climbs, StaticFiles.HasTwoDots;
    StaticFiles.ClimbsIff(StaticFiles.Decoded(param));
  }

  /** The three handlers of a key. */
  lemma KeyHandlersDo(setup: Setup, app: App, key: string, request: Request)
    ensures RunHandler(setup, app, KV_PUT, [key], request)
            == (app.(store := app.store[key := request.body]), Page(200, "ok"))
    ensures RunHandler(setup, app, KV_GET, [key], request)
            == (app, if key in app.store then Page(200, app.store[key]) else Page(404, "not found"))
    ensures RunHandler(setup, app, KV_DELETE, [key], request)
            == (app.(store := app.store - {key}), if key in app.store then Page(200, "deleted") else Page(404, "not found"))
  {
    if key !in app.store {
      assert app.store - {key} == app.store;
    }
  }

  /** The handlers without a parameter. */
  lemma PlainHandlersDo(setup: Setup, app: App, request: Request)
    ensures forall h :: h == HOME || h == ABOUT ==>
      var (a, r) := RunHandler(setup, app, h, [], request); a == app && r.Page? && r.code == 200
    ensures RunHandler(setup, app, KV_LIST, [], request) == (app, Page(200, setup.dump(app.store)))
    ensures RunHandler(setup, app, ECHO, [], request) == (app, Page(200, "Received POST data: " + request.body))
  {
  }

  /** Under `/kv/` and a key: store, fetch, delete; 404 for a key that is not there. */
  lemma StoreAnswers(setup: Setup, app: App, request: Request)
    requires var segs := R.SegmentsOf(request.path); |segs| == 2 && segs[0] == "kv"
    ensures var (app', reply) := HandleRequest(setup, app, request);
            var verb, segs, store := request.verb, R.SegmentsOf(request.path), app.store;
            var key := segs[1];
            if verb == "PUT" then app' == app.(store := store[key := request.body]) && reply == Page(200, "ok")
            else if verb == "GET" then
              app' == app && reply == if key in store then Page(200, store[key]) else Page(404, "not found")
            else if verb == "DELETE" then
              && app' == app.(store := store - {key})
              && reply == if key in store then Page(200, "deleted") else Page(404, "not found")
            else app' == app && reply.Page? && reply.code == 405
  {
    hide R.SegmentsOf, R.Decide, R.AsksLimiter, StaticFiles.Decoded, StaticFiles.HasTwoDots, JoinWith, Routes, RunHandler;
    var verb, segs, left := request.verb, R.SegmentsOf(request.path), app.allowances;
    TableDecides(verb, segs, left == [] || left[0]);
    HandlersByNumber();
    KeyHandlersDo(setup, app, segs[1], request);
  }

  /** Under `/static/`: the file whose decoded name is the rest of the path, unless that is refused. */
  lemma FilesAnswer(setup: Setup, app: App, request: Request)
    requires var segs := R.SegmentsOf(request.path); segs != [] && segs[0] == "static"
    ensures var (app', reply) := HandleRequest(setup, app, request);
            var verb, segs, store := request.verb, R.SegmentsOf(request.path), app.store;
            var rel := StaticFiles.Decoded(JoinWith(segs[1..], "/"));
            && app' == app
            && if verb != "GET" then reply.Page? && reply.code == 405
               else if rel == "" || rel[0] == '/' || StaticFiles.HasTwoDots(rel) then reply == Page(403, "403 Forbidden")
               else reply == StaticFile(setup.root + "/" + rel)
  {
    hide R.SegmentsOf, R.Decide, R.AsksLimiter, StaticFiles.Decoded, StaticFiles.HasTwoDots, JoinWith, Routes, RunHandler;
    var verb, segs, left := request.verb, R.SegmentsOf(request.path), app.allowances;
    TableDecides(verb, segs, left == [] || left[0]);
    HandlersByNumber();
    StaticHandlerDoes(setup, app, JoinWith(segs[1..], "/"), request);
  }

  /** The echo asks the limiter, for a request with its method only. */
  lemma EchoAnswers(setup: Setup, app: App, request: Request)
    requires R.SegmentsOf(request.path) == ["echo"]
    ensures var (app', reply) := HandleRequest(setup, app, request);
            var verb, segs, store := request.verb, R.SegmentsOf(request.path), app.store;
            if verb != "POST" then app' == app && reply.Page? && reply.code == 405
            else
              && app' == app.(allowances := if app.allowances == [] then [] else app.allowances[1..])
              && if app.allowances == [] || app.allowances[0] then reply == Page(200, "Received POST data: " + request.body)
                 else reply.Page? && reply.code == 429
  {
    hide R.SegmentsOf, R.Decide, R.AsksLimiter, StaticFiles.Decoded, StaticFiles.HasTwoDots, JoinWith, Routes, RunHandler;
    var verb, segs, left := request.verb, R.SegmentsOf(request.path), app.allowances;
    TableDecides(verb, segs, left == [] || left[0]);
    HandlersByNumber();
    PlainHandlersDo(setup, app, request);
    if left != [] {
      PlainHandlersDo(setup, app.(allowances := left[1..]), request);
    }
  }

  /** The pages and the listing of the store. */
  lemma PagesAnswer(setup: Setup, app: App, request: Request)
    requires R.SegmentsOf(request.path) in {[], ["about"], ["kv"]}
    ensures var (app', reply) := HandleRequest(setup, app, request);
            var verb, segs, store := request.verb, R.SegmentsOf(request.path), app.store;
            && app' == app && reply.Page? && reply.code == (if verb == "GET" then 200 else 405)
            && (segs == ["kv"] && verb == "GET" ==> reply.body == setup.dump(store))
  {
    hide R.SegmentsOf, R.Decide, R.AsksLimiter, StaticFiles.Decoded, StaticFiles.HasTwoDots, JoinWith, Routes, RunHandler;
    var verb, segs, left := request.verb, R.SegmentsOf(request.path), app.allowances;
    TableDecides(verb, segs, left == [] || left[0]);
    HandlersByNumber();
    PlainHandlersDo(setup, app, request);
  }

  /** Every other path has no route. */
  lemma NothingElseAnswers(setup: Setup, app: App, request: Request)
    requires var segs := R.SegmentsOf(request.path);
             && segs !in {[], ["about"], ["kv"], ["echo"]} && segs[0] != "static" && !(|segs| == 2 && segs[0] == "kv")
    ensures var (app', reply) := HandleRequest(setup, app, request);
            var verb, segs, store := request.verb, R.SegmentsOf(request.path), app.store;
            app' == app && reply == Unrouted
  {
    hide R.SegmentsOf, R.Decide, R.AsksLimiter, StaticFiles.Decoded, StaticFiles.HasTwoDots, JoinWith, Routes, RunHandler;
    var verb, segs, left := request.verb, R.SegmentsOf(request.path), app.allowances;
    TableDecides(verb, segs, left == [] || left[0]);
    HandlersByNumber();
  }

  /** What the refusals look like on the wire. */
  lemma RefusalsShow<A>(site: Connection.Site<A>, reply: Reply, keepAlive: bool, m: Message)
    requires Shows(site, reply, keepAlive, m)
    ensures reply.Unrouted? ==> m.statusLine == "HTTP/1.1 404 Not Found"
    ensures reply.Page? && reply.code == 405 ==> m.statusLine == "HTTP/1.1 405 Method Not Allowed"
    ensures reply.Page? && reply.code == 429 ==> m.statusLine == "HTTP/1.1 429 Unknown"
  {
    hide Decimal;
    RefusalCodes();
    assert "HTTP/1.1 " + "405" + " " + "Method Not Allowed" == "HTTP/1.1 405 Method Not Allowed";
    assert "HTTP/1.1 " + "429" + " " + "Unknown" == "HTTP/1.1 429 Unknown";
  }

  /** On the wire: 404 when no route leads to the path, 405 when some do but none for the method,
      429 when the first that does is limited and the limiter refuses. */
  lemma StatusOfDecision(setup: Setup, app: App, request: Request, keepAlive: bool, m: Message)
    requires Shows(Server(setup), HandleRequest(setup, app, request).1, keepAlive, m)
    ensures var verb, segs := request.verb, R.SegmentsOf(request.path);
            var allowed := app.allowances == [] || app.allowances[0];
            && ((forall j :: 0 <= j < |Routes()| ==> !R.Leads(Routes()[j], segs)) ==> m.statusLine == "HTTP/1.1 404 Not Found")
            && ((exists j :: 0 <= j < |Routes()| && R.Leads(Routes()[j], segs))
                && (forall j :: 0 <= j < |Routes()| && R.Leads(Routes()[j], segs) ==> Routes()[j].verb != verb)
                ==> m.statusLine == "HTTP/1.1 405 Method Not Allowed")
            && ((exists i: nat :: R.IsFirst(Routes(), verb, segs, i) && Routes()[i].rateLimited && !allowed)
                ==> m.statusLine == "HTTP/1.1 429 Unknown")
  {
    hide R.SegmentsOf, R.Decide, R.AsksLimiter, R.Leads, R.IsFirst, Routes, RunHandler, Shows;
    R.DecisionMeans(Routes(), request.verb, R.SegmentsOf(request.path), app.allowances == [] || app.allowances[0]);
    RefusalsShow(Server(setup), HandleRequest(setup, app, request).1, keepAlive, m);
  }

  lemma RefusalCodes()
    ensures Decimal(405) == "405" && Decimal(429) == "429"
  {
    assert Decimal(4) == "4" && Decimal(40) == "40" && Decimal(42) == "42";
  }

  /** Storing and fetching under any key, among any other contents. */
  lemma PutThenGet(setup: Setup, app: App, key: string, put: Request, get: Request)
    requires R.IsSegment(key) && put.path == get.path == KeyPath(key) && put.verb == "PUT" && get.verb == "GET"
    ensures var (app1, r1) := HandleRequest(setup, app, put);
            && app1 == app.(store := app.store[key := put.body]) && r1 == Page(200, "ok")
            && HandleRequest(setup, app1, get) == (app1, Page(200, put.body))
  {
    hide R.SegmentsOf, R.FirstRoute, R.MatchOf;
    KeySegments(key);
    KeyRoutes(key);
  }

  /** The longest key that a request line for storing it can carry. */
  const MAX_KEY: nat := MAX_REQUEST_LINE - 17

  /** A client's requests to store a value under a key and to fetch it back. */
  function PutDraft(key: string, value: string): Draft {
    Draft("PUT", KeyPath(key), [], "HTTP/1.1", [("Content-Length", Decimal(|value|))], value)
  }

  function GetDraft(key: string): Draft { Draft("GET", KeyPath(key), [], "HTTP/1.1", [], "") }

  lemma KeyPathIsPlain(key: string)
    requires IsKey(key)
    ensures NoSpace(KeyPath(key)) && '?' !in KeyPath(key) && |KeyPath(key)| == |key| + 4
    ensures KeyPath(key) != "" && KeyPath(key)[0] == '/'
  {
    assert ["kv", key][1..] == [key] && JoinWith([key], "/") == key;
    assert JoinWith(["kv", key], "/") == "kv" + "/" + key;
    assert KeyPath(key) == "/kv/" + key;
  }

  lemma DigitsAreClean(n: nat)
    ensures CleanField(("Content-Length", Decimal(n)))
  {
    ConnectionTheorems.DigitsAreClean(n);
  }

  lemma DraftsAreWellFormed(key: string, value: string)
    requires IsKey(key) && |key| <= MAX_KEY && |value| <= MAX_BODY
    ensures WellFormed(PutDraft(key, value)) && WellFormed(GetDraft(key))
    ensures Meaning(PutDraft(key, value)).keepAlive && Meaning(GetDraft(key)).keepAlive
  {
    hide R.JoinedPath, IsKey, Decimal;
    KeyPathIsPlain(key);
    DigitsAreClean(|value|);
    var fields := PutDraft(key, value).fields;
    assert fields[1..] == [];
    assert MapOf(fields, map[]) == map["Content-Length" := Decimal(|value|)];
  }

  function TenTo(k: nat): nat { if k == 0 then 1 else 10 * TenTo(k - 1) }

  lemma {:induction false} DecimalLength(n: nat, k: nat)
    requires k > 0 && n < TenTo(k)
    ensures |Decimal(n)| <= k
    decreases k
  {
    if n >= 10 {
      DecimalLength(n / 10, k - 1);
    }
  }

  lemma BodyLengthDigits(n: nat)
    requires n <= MAX_BODY
    ensures |Decimal(n)| <= 8
  {
    assert TenTo(8) == 100000000 by {
      assert TenTo(4) == 10000;
    }
    DecimalLength(n, 8);
  }

  lemma HeadsAreShort(key: string, value: string)
    requires IsKey(key) && |key| <= MAX_KEY && |value| <= MAX_BODY
    ensures var p, g := PutDraft(key, value), GetDraft(key);
            && |RenderHead(FirstLineOf(p), p.fields)| <= MAX_HEADER_TOTAL
            && |RenderHead(FirstLineOf(g), g.fields)| <= MAX_HEADER_TOTAL
  {
    hide Decimal, R.JoinedPath, IsKey;
    KeyPathIsPlain(key);
    BodyLengthDigits(|value|);
    var p := PutDraft(key, value);
    assert p.fields[1..] == [];
    var lines := FieldLines(p.fields);
    assert lines[1..] == [] && Terminated(lines) == lines[0] + CRLF + Terminated([]);
    assert |lines[0]| <= 14 + 2 + 8;
  }

  /** A rendered keep-alive request in front of a stream is answered first, and harmlessly. */
  lemma RenderedFirst<A>(site: Connection.Site<A>, a: A, d: Draft, rest: string, queued: nat)
    requires WellFormed(d) && Meaning(d).keepAlive && |RenderHead(FirstLineOf(d), d.fields)| <= MAX_HEADER_TOTAL
    ensures var (a1, reply) := site.handle(a, Meaning(d));
            var answer := AnswerTo(site, reply, true);
            var total := queued + Chunking.SegmentCount(answer);
            && Chunking.Ideal(site, a, Render(d) + rest) == Chunking.Then([answer], Chunking.Ideal(site, a1, rest))
            && (total <= MAX_OUT_SEGMENTS && Chunking.Harmless(site, a1, rest, total)
                ==> Chunking.Harmless(site, a, Render(d) + rest, queued))
  {
    hide Meaning, FirstLineOf, RenderHead, AnswerTo, WellFormed, ReadingOf, Find;
    var s := Render(d) + rest;
    var head := RenderHead(FirstLineOf(d), d.fields);
    RoundTrip(d, rest);
    Chunking.CompleteHasBlankLine(s);
    assert s == head + (d.body + rest);
    assert '\r' !in FirstLineOf(d) && CleanFields(d.fields) by { CleanDraft(d); }
    ReadRenderedHead(FirstLineOf(d), d.fields, d.body + rest);
    assert s[|Render(d)|..] == rest;
  }

  lemma CleanDraft(d: Draft)
    requires WellFormed(d)
    ensures '\r' !in FirstLineOf(d) && CleanFields(d.fields)
  {
    FirstLineHasNoCr(d);
  }

  /** From bytes to store and back, however the bytes are cut into read events: storing any
      value under any key and fetching it answers `ok` and the value, on a live connection
      with nothing left over. */
  lemma StoreAndFetch(setup: Setup, app: App, key: string, value: string, events: seq<Event>)
    requires IsKey(key) && |key| <= MAX_KEY && |value| <= MAX_BODY
    requires Chunking.IsCut(Server(setup), app, Render(PutDraft(key, value)) + Render(GetDraft(key)), events)
    ensures Chunking.ResultOf(Life(Server(setup), app, events)) ==
      Chunking.Result([TextPage(200, "ok", true), TextPage(200, value, true)],
                      app.(store := app.store[key := value]), true, "")
  {
    hide Render, Meaning, WellFormed, RenderHead, FirstLineOf, R.JoinedPath, Life, Chunking.IsCut, HandleRequest;
    hide Chunking.Ideal, Chunking.Harmless;
    var site := Server(setup);
    var p, g := PutDraft(key, value), GetDraft(key);
    var app1 := app.(store := app.store[key := value]);
    DraftsAreWellFormed(key, value);
    HeadsAreShort(key, value);
    DraftMeanings(key, value);
    PutThenGet(setup, app, key, Meaning(p), Meaning(g));
    assert Render(g) + "" == Render(g);
    RenderedFirst(site, app, p, Render(g), 0);
    RenderedFirst(site, app1, g, "", 1);
    NothingLeft(site, app1, 2);
    RendersFit(key, value);
    Chunking.HarmlessCut(site, app, Render(p) + Render(g), events);
  }

  lemma DraftMeanings(key: string, value: string)
    ensures var p, g := Meaning(PutDraft(key, value)), Meaning(GetDraft(key));
            && p.verb == "PUT" && p.path == KeyPath(key) && p.body == value
            && g.verb == "GET" && g.path == KeyPath(key)
  {
  }

  lemma NothingLeft<A>(site: Connection.Site<A>, a: A, queued: nat)
    ensures Chunking.Ideal(site, a, "") == Chunking.Live(a, "") && Chunking.Harmless(site, a, "", queued)
  {
  }

  lemma RendersFit(key: string, value: string)
    requires IsKey(key) && |key| <= MAX_KEY && |value| <= MAX_BODY
    ensures |Render(PutDraft(key, value)) + Render(GetDraft(key))| <= MAX_IN_BUFFER
  {
    hide RenderHead;
    HeadsAreShort(key, value);
  }
}
