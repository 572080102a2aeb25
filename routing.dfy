/**
 * Request routing of a worker: the `Router` class that keeps its routes in
 * registration order and dispatches to the first route whose method and
 * path pattern match, its `:param` path matcher, and plain method dispatch.
 * Handlers are opaque values of a type parameter; calling them is outside
 * the model.
 */
module Routing {
  import opened Text

  // ---------------------------------------------------------------------------
  // Path patterns
  // ---------------------------------------------------------------------------

  /** `\w`: ASCII letters, digits and '_'. */
  predicate IsWordChar(c: char) {
    ('a' <= c <= 'z') || ('A' <= c <= 'Z') || ('0' <= c <= '9') || c == '_'
  }

  /** A pattern segment that is a whole `:name` parameter. */
  predicate IsParam(seg: string) {
    |seg| >= 2 && seg[0] == ':' && forall k :: 1 <= k < |seg| ==> IsWordChar(seg[k])
  }

  /** A character with a meaning of its own in a regular expression. */
  predicate IsMeta(c: char) {
    c == '\\' || c == '^' || c == '$' || c == '.' || c == '|' || c == '?' || c == '*' || c == '+'
    || c == '(' || c == ')' || c == '[' || c == ']' || c == '{' || c == '}'
  }

  /** A pattern segment matched literally: no ':' and no regular-expression metacharacter. */
  predicate IsLiteral(seg: string) {
    forall k :: 0 <= k < |seg| ==> seg[k] != ':' && !IsMeta(seg[k])
  }

  /** The patterns the model covers: every segment is a literal or a whole parameter. */
  predicate WellFormedPattern(pattern: string) {
    var segs := Split(pattern, '/');
    forall i :: 0 <= i < |segs| ==> IsParam(segs[i]) || IsLiteral(segs[i])
  }

  /** `([^/]+)` for a parameter, the text itself for a literal. */
  predicate SegMatch(patSeg: string, seg: string) {
    if IsParam(patSeg) then seg != [] else patSeg == seg
  }

  /** The anchored match of the whole path, segment by segment. */
  predicate SegsMatch(p: seq<string>, q: seq<string>) {
    |p| == |q| && forall i :: 0 <= i < |p| ==> SegMatch(p[i], q[i])
  }

  /** `params`: the k-th parameter name bound to the k-th capture; a repeated name keeps the later one. */
  function Captures(p: seq<string>, q: seq<string>): (m: map<string, string>)
    requires |p| == |q|
    ensures forall name :: name in m ==> exists i :: 0 <= i < |p| && IsParam(p[i]) && p[i][1..] == name
  {
    if p == [] then map[]
    else
      var m := Captures(p[..|p| - 1], q[..|q| - 1]);
      if IsParam(p[|p| - 1]) then m[p[|p| - 1][1..] := q[|q| - 1]] else m
  }

  /** What `matchPath` returns: `{ params }` on a match, `null` otherwise. */
  function PathMatch(pathname: string, pattern: string): Option<map<string, string>> {
    var p := Split(pattern, '/');
    var q := Split(pathname, '/');
    if SegsMatch(p, q) then Some(Captures(p, q)) else None
  }

  /** Each captured value is the path segment at that parameter's place, when no later parameter reuses the name. */
  lemma {:induction false} CapturesAt(p: seq<string>, q: seq<string>, i: nat)
    requires |p| == |q| && i < |p| && IsParam(p[i])
    requires forall j :: i < j < |p| && IsParam(p[j]) ==> p[j][1..] != p[i][1..]
    ensures p[i][1..] in Captures(p, q) && Captures(p, q)[p[i][1..]] == q[i]
    decreases |p|
  {
    var n := |p| - 1;
    CapturesStep(p, q, n);
    assert p[..n + 1] == p && q[..n + 1] == q;
    if i < n {
      assert p[..n][i] == p[i];
      assert forall j :: i < j < n && IsParam(p[..n][j]) ==> p[..n][j][1..] != p[i][1..] by {
        forall j | i < j < n
          ensures p[..n][j] == p[j]
        {
        }
      }
      CapturesAt(p[..n], q[..n], i);
      assert q[..n][i] == q[i];
    }
  }

  /** `Captures` over one more segment pair. */
  lemma CapturesStep(p: seq<string>, q: seq<string>, i: nat)
    requires |p| == |q| && i < |p|
    ensures Captures(p[..i + 1], q[..i + 1])
         == if IsParam(p[i]) then Captures(p[..i], q[..i])[p[i][1..] := q[i]] else Captures(p[..i], q[..i])
  {
    assert p[..i + 1][..i] == p[..i] && q[..i + 1][..i] == q[..i];
    assert p[..i + 1][i] == p[i] && q[..i + 1][i] == q[i];
  }

  /** `matchPath`: checks the segments, then fills `params` parameter by parameter. */
  method MatchPath(pathname: string, pattern: string) returns (r: Option<map<string, string>>)
    requires WellFormedPattern(pattern)
    ensures r == PathMatch(pathname, pattern)
  {
    var p := Split(pattern, '/');
    var q := Split(pathname, '/');
    if |p| != |q| {
      return None;
    }
    var i := 0;
    while i < |p|
      invariant i <= |p|
      invariant forall j :: 0 <= j < i ==> SegMatch(p[j], q[j])
    {
      if !SegMatch(p[i], q[i]) {
        return None;
      }
      i := i + 1;
    }
    var params: map<string, string> := map[];
    i := 0;
    while i < |p|
      invariant i <= |p|
      invariant params == Captures(p[..i], q[..i])
    {
      CapturesStep(p, q, i);
      if IsParam(p[i]) {
        params := params[p[i][1..] := q[i]];
      }
      i := i + 1;
    }
    assert p[..i] == p && q[..i] == q;
    r := Some(params);
  }

  lemma JoinThree(a: string, b: string, c: string, sep: string)
    ensures Join([a, b, c], sep) == a + sep + b + sep + c
  {
    assert [b, c] == [b] + [c];
    JoinCons(b, [c], sep);
    assert [a, b, c] == [a] + [b, c];
    JoinCons(a, [b, c], sep);
  }

  lemma JoinFive(a: string, b: string, c: string, d: string, e: string, sep: string)
    ensures Join([a, b, c, d, e], sep) == a + sep + b + sep + c + sep + d + sep + e
  {
    JoinThree(c, d, e, sep);
    assert [b, c, d, e] == [b] + [c, d, e];
    JoinCons(b, [c, d, e], sep);
    assert [a, b, c, d, e] == [a] + [b, c, d, e];
    JoinCons(a, [b, c, d, e], sep);
  }

  /** `/users/:id` is the segments "", "users" and the parameter `id`. */
  lemma UserPatternSegs(pattern: string)
    requires pattern == "/users/:id"
    ensures Split(pattern, '/') == ["", "users", ":id"]
    ensures WellFormedPattern(pattern)
  {
    var p: seq<string> := ["", "users", ":id"];
    JoinThree("", "users", ":id", "/");
    assert Join(p, "/") == pattern;
    SplitJoin(p, '/');
    assert IsParam(p[2]) && IsLiteral(p[1]);
  }

  /** `/users/:id` matches `/users/<id>` for any non-empty, '/'-free `id`, and binds it. */
  lemma UserPattern(pattern: string, id: string)
    requires pattern == "/users/:id" && id != [] && '/' !in id
    ensures PathMatch("/users/" + id, pattern) == Some(map["id" := id])
  {
    UserPatternSegs(pattern);
    var p := Split(pattern, '/');
    var q: seq<string> := ["", "users", id];
    JoinThree("", "users", id, "/");
    assert Join(q, "/") == "/users/" + id;
    SplitJoin(q, '/');
    assert IsParam(p[2]) && !IsParam(p[0]) && !IsParam(p[1]);
    assert SegsMatch(p, q);
    assert Captures(p[..1], q[..1]) == map[];
    assert Captures(p[..2], q[..2]) == map[];
  }

  /** `/users/:id` matches neither `/users/` nor a longer path `/users/<id>/<more>`. */
  lemma UserPatternRejects(pattern: string, id: string, more: string)
    requires pattern == "/users/:id" && '/' !in id && '/' !in more
    ensures PathMatch("/users/", pattern) == None
    ensures PathMatch("/users/" + id + "/" + more, pattern) == None
  {
    UserPatternSegs(pattern);
    var p := Split(pattern, '/');
    var q: seq<string> := ["", "users", ""];
    JoinThree("", "users", "", "/");
    assert Join(q, "/") == "/users/";
    SplitJoin(q, '/');
    assert IsParam(p[2]) && !SegMatch(p[2], q[2]);
    var q2: seq<string> := ["", "users", id, more];
    JoinThree("users", id, more, "/");
    assert [""] + ["users", id, more] == q2;
    JoinCons("", ["users", id, more], "/");
    assert Join(q2, "/") == "/users/" + id + "/" + more;
    SplitJoin(q2, '/');
  }

  /** A parameter segment `:name`. */
  lemma ParamSeg(name: string)
    requires name != [] && forall k :: 0 <= k < |name| ==> IsWordChar(name[k])
    ensures IsParam(":" + name) && (":" + name)[1..] == name && '/' !in ":" + name
  {
    var seg := ":" + name;
    assert forall k :: 1 <= k < |seg| ==> seg[k] == name[k - 1];
    assert forall k :: 0 <= k < |seg| ==> seg[k] != '/';
  }

  /**
   * `/a/:x/b/:y` matches `/a/<v>/b/<w>` and binds `x` to `v` and `y` to `w`
   * (the later one wins when `x` and `y` are the same name); the route
   * `/posts/:postId/comments/:commentId` is one instance.
   */
  lemma TwoParams(a: string, x: string, b: string, y: string, v: string, w: string)
    requires IsLiteral(a) && '/' !in a && IsLiteral(b) && '/' !in b
    requires x != [] && (forall k :: 0 <= k < |x| ==> IsWordChar(x[k]))
    requires y != [] && (forall k :: 0 <= k < |y| ==> IsWordChar(y[k]))
    requires v != [] && '/' !in v && w != [] && '/' !in w
    ensures var pattern := Join(["", a, ":" + x, b, ":" + y], "/");
      && WellFormedPattern(pattern)
      && PathMatch(Join(["", a, v, b, w], "/"), pattern) == Some(map[x := v, y := w])
  {
    ParamSeg(x);
    ParamSeg(y);
    var p: seq<string> := ["", a, ":" + x, b, ":" + y];
    var q: seq<string> := ["", a, v, b, w];
    SplitJoin(p, '/');
    SplitJoin(q, '/');
    assert !IsParam(p[0]) && !IsParam(p[1]) && !IsParam(p[3]);
    assert SegsMatch(p, q);
    CapturesFive(p, q);
  }

  /** The captures of a five-segment pattern whose third and fifth segments are its parameters. */
  lemma CapturesFive(p: seq<string>, q: seq<string>)
    requires |p| == |q| == 5
    requires !IsParam(p[0]) && !IsParam(p[1]) && IsParam(p[2]) && !IsParam(p[3]) && IsParam(p[4])
    ensures Captures(p, q) == map[p[2][1..] := q[2], p[4][1..] := q[4]]
  {
    assert p[..0] == [] && q[..0] == [];
    CapturesStep(p, q, 0);
    CapturesStep(p, q, 1);
    assert Captures(p[..2], q[..2]) == map[];
    CapturesStep(p, q, 2);
    CapturesStep(p, q, 3);
    assert Captures(p[..4], q[..4]) == map[p[2][1..] := q[2]];
    CapturesStep(p, q, 4);
    assert p[..5] == p && q[..5] == q;
  }

  // ---------------------------------------------------------------------------
  // The router
  // ---------------------------------------------------------------------------

  datatype Route<H> = Route(verb: string, pattern: string, handler: H)

  /** The handler to call with its `params`, or the router's 404 'Not Found'. */
  datatype Dispatch<H> = Handled(handler: H, params: map<string, string>) | NoRoute

  predicate Hits<H>(route: Route<H>, path: string, verb: string) {
    route.verb == verb && PathMatch(path, route.pattern).Some?
  }

  /** The first route, in registration order, whose method and pattern match. */
  function FirstMatch<H>(routes: seq<Route<H>>, path: string, verb: string): Dispatch<H> {
    if routes == [] then NoRoute
    else if Hits(routes[0], path, verb) then Handled(routes[0].handler, PathMatch(path, routes[0].pattern).value)
    else FirstMatch(routes[1..], path, verb)
  }

  /** `handle` answers with the first hitting route and its captures; 404 exactly when no route hits. */
  lemma {:induction false} FirstMatchIsFirst<H>(routes: seq<Route<H>>, path: string, verb: string)
    ensures var d := FirstMatch(routes, path, verb);
      && (d.NoRoute? <==> forall i :: 0 <= i < |routes| ==> !Hits(routes[i], path, verb))
      && (d.Handled? ==>
            exists i :: 0 <= i < |routes| && Hits(routes[i], path, verb)
              && (forall j :: 0 <= j < i ==> !Hits(routes[j], path, verb))
              && d == Handled(routes[i].handler, PathMatch(path, routes[i].pattern).value))
  {
    if routes != [] && !Hits(routes[0], path, verb) {
      FirstMatchIsFirst(routes[1..], path, verb);
      var d := FirstMatch(routes, path, verb);
      if d.Handled? {
        var i :| 0 <= i < |routes[1..]| && Hits(routes[1..][i], path, verb)
          && (forall j :: 0 <= j < i ==> !Hits(routes[1..][j], path, verb))
          && d == Handled(routes[1..][i].handler, PathMatch(path, routes[1..][i].pattern).value);
        assert forall j :: 0 <= j < i + 1 ==> !Hits(routes[j], path, verb) by {
          forall j | 0 < j < i + 1 ensures !Hits(routes[j], path, verb) {
            assert routes[j] == routes[1..][j - 1];
          }
        }
        assert routes[i + 1] == routes[1..][i];
      } else {
        forall i | 0 < i < |routes| ensures !Hits(routes[i], path, verb) {
          assert routes[i] == routes[1..][i - 1];
        }
      }
    }
  }

  /** A route registered later never takes a request from an earlier one. */
  lemma {:induction false} FirstMatchAppend<H>(routes: seq<Route<H>>, route: Route<H>, path: string, verb: string)
    ensures FirstMatch(routes + [route], path, verb)
      == if FirstMatch(routes, path, verb).Handled? then FirstMatch(routes, path, verb) else FirstMatch([route], path, verb)
  {
    if routes != [] {
      assert (routes + [route])[0] == routes[0];
      assert (routes + [route])[1..] == routes[1..] + [route];
      FirstMatchAppend(routes[1..], route, path, verb);
    } else {
      assert routes + [route] == [route];
    }
  }

  class Router<H> {
    var routes: seq<Route<H>>

    /** Every registered pattern is one the matcher covers. */
    ghost predicate Valid()
      reads this
    {
      forall i :: 0 <= i < |routes| ==> WellFormedPattern(routes[i].pattern)
    }

    constructor()
      ensures routes == [] && Valid()
    {
      routes := [];
    }

    method Get(pattern: string, handler: H)
      requires Valid() && WellFormedPattern(pattern)
      modifies this
      ensures routes == old(routes) + [Route("GET", pattern, handler)] && Valid()
    {
      routes := routes + [Route("GET", pattern, handler)];
    }

    method Post(pattern: string, handler: H)
      requires Valid() && WellFormedPattern(pattern)
      modifies this
      ensures routes == old(routes) + [Route("POST", pattern, handler)] && Valid()
    {
      routes := routes + [Route("POST", pattern, handler)];
    }

    method Put(pattern: string, handler: H)
      requires Valid() && WellFormedPattern(pattern)
      modifies this
      ensures routes == old(routes) + [Route("PUT", pattern, handler)] && Valid()
    {
      routes := routes + [Route("PUT", pattern, handler)];
    }

    method Delete(pattern: string, handler: H)
      requires Valid() && WellFormedPattern(pattern)
      modifies this
      ensures routes == old(routes) + [Route("DELETE", pattern, handler)] && Valid()
    {
      routes := routes + [Route("DELETE", pattern, handler)];
    }

    /** `handle`: scans the routes in order, skipping other methods, and stops at the first match. */
    method Handle(path: string, verb: string) returns (d: Dispatch<H>)
      requires Valid()
      ensures d == FirstMatch(routes, path, verb)
    {
      var i := 0;
      while i < |routes|
        invariant i <= |routes|
        invariant FirstMatch(routes, path, verb) == FirstMatch(routes[i..], path, verb)
      {
        var route := routes[i];
        assert routes[i..][1..] == routes[i + 1..];
        if route.verb != verb {
          i := i + 1;
          continue;
        }
        var m := MatchPath(path, route.pattern);
        if m.Some? {
          return Handled(route.handler, m.value);
        }
        i := i + 1;
      }
      d := NoRoute;
    }
  }

  // ---------------------------------------------------------------------------
  // Method dispatch
  // ---------------------------------------------------------------------------

  datatype MethodHandler = GetHandler | PostHandler | PutHandler | DeleteHandler | CorsPreflight | MethodNotAllowed

  /** The `switch` on the request method; anything unlisted is 405 'Method Not Allowed'. */
  function MethodRoute(verb: string): (h: MethodHandler)
    ensures h == GetHandler <==> verb == "GET"
    ensures h == PostHandler <==> verb == "POST"
    ensures h == PutHandler <==> verb == "PUT"
    ensures h == DeleteHandler <==> verb == "DELETE"
    ensures h == CorsPreflight <==> verb == "OPTIONS"
    ensures h == MethodNotAllowed <==> verb !in {"GET", "POST", "PUT", "DELETE", "OPTIONS"}
  {
    if verb == "GET" then GetHandler
    else if verb == "POST" then PostHandler
    else if verb == "PUT" then PutHandler
    else if verb == "DELETE" then DeleteHandler
    else if verb == "OPTIONS" then CorsPreflight
    else MethodNotAllowed
  }
}
