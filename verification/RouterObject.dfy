/** The router: one trie for each HTTP method, and handlers filed under method and pattern. */
module RouterObject {
  import opened Options
  import T = Trie
  import R = Router
  import O = TrieObject

  /** The methods for which routes are registered. */
  predicate IsVerb(v: string) {
    v in {"GET", "POST", "PUT", "DELETE", "PATCH", "HEAD", "OPTIONS"}
  }

  lemma {:induction false} VerbsPlain(v: string)
    requires IsVerb(v)
    ensures '/' !in v
  {
  }

  /** A call of `addRoute`; handlers are told apart by a number. */
  datatype Registration = Registration(verb: string, pattern: string, handler: int)

  /** The routes registered for a method, in order. */
  function RoutesFor(regs: seq<Registration>, verb: string): seq<T.Parts> {
    if regs == [] then []
    else
      var n := |regs| - 1;
      RoutesFor(regs[..n], verb) + (if regs[n].verb == verb then [R.Parse(regs[n].pattern)] else [])
  }

  /** The handler registered last for a method and a route. */
  function LastHandler(regs: seq<Registration>, verb: string, route: T.Parts): Option<int> {
    if regs == [] then None
    else
      var n := |regs| - 1;
      if regs[n].verb == verb && R.Parse(regs[n].pattern) == route then Some(regs[n].handler)
      else LastHandler(regs[..n], verb, route)
  }

  function Key(verb: string, route: T.Parts): string {
    verb + "-" + T.Canonical(route)
  }

  function Filed(regs: seq<Registration>): map<string, int> {
    if regs == [] then map[]
    else
      var n := |regs| - 1;
      Filed(regs[..n])[Key(regs[n].verb, R.Parse(regs[n].pattern)) := regs[n].handler]
  }

  lemma {:induction false} RoutesAreRoutes(regs: seq<Registration>, verb: string)
    ensures forall i :: 0 <= i < |RoutesFor(regs, verb)| ==> T.Route(RoutesFor(regs, verb)[i]) && R.NoSlash(RoutesFor(regs, verb)[i])
  {
    if regs != [] {
      var n := |regs| - 1;
      RoutesAreRoutes(regs[..n], verb);
      R.ParseRoute(regs[n].pattern);
    }
  }

  /** What comes before the first slash. */
  function Head(s: string): string {
    if s == "" || s[0] == '/' then "" else [s[0]] + Head(s[1..])
  }

  lemma {:induction false} HeadIs(v: string, rest: string)
    requires '/' !in v
    ensures Head(v + "/" + rest) == v
  {
    if v == "" {
      assert v + "/" + rest == "/" + rest;
    } else {
      assert (v + "/" + rest)[1..] == v[1..] + "/" + rest;
      HeadIs(v[1..], rest);
    }
  }

  /** Keys of method names without a slash are told apart: the first slash starts the pattern. */
  lemma {:induction false} KeyInjective(v: string, r: T.Parts, w: string, q: T.Parts)
    requires '/' !in v && '/' !in w && Key(v, r) == Key(w, q)
    requires T.Route(r) && R.NoSlash(r) && T.Route(q) && R.NoSlash(q)
    ensures v == w && r == q
  {
    hide T.Join;
    var k := Key(v, r);
    assert k == (v + "-") + "/" + T.Join(r) && k == (w + "-") + "/" + T.Join(q);
    HeadIs(v + "-", T.Join(r));
    HeadIs(w + "-", T.Join(q));
    assert v == (v + "-")[..|v|] && w == (w + "-")[..|w|];
    assert T.Canonical(r) == k[|v| + 1..] == T.Canonical(q);
    R.CanonicalInjective(r, q);
  }

  /** Registering a pattern again in another spelling replaces its handler, and no other registration
      does: the handler filed for a route is the one registered last for that method and those parts. */
  lemma {:induction false} FiledIsLast(regs: seq<Registration>, verb: string, route: T.Parts)
    requires T.Route(route) && R.NoSlash(route) && '/' !in verb
    requires forall i :: 0 <= i < |regs| ==> '/' !in regs[i].verb
    ensures LastHandler(regs, verb, route) ==
            if Key(verb, route) in Filed(regs) then Some(Filed(regs)[Key(verb, route)]) else None
  {
    if regs != [] {
      var n := |regs| - 1;
      FiledIsLast(regs[..n], verb, route);
      R.ParseRoute(regs[n].pattern);
      hide R.Parse, Key;
      var q := R.Parse(regs[n].pattern);
      if Key(verb, route) == Key(regs[n].verb, q) {
        KeyInjective(verb, route, regs[n].verb, q);
      }
    }
  }

  lemma {:induction false} RoutesHaveHandlers(regs: seq<Registration>, verb: string, route: T.Parts)
    ensures route in RoutesFor(regs, verb) <==> LastHandler(regs, verb, route).Some?
  {
    if regs != [] {
      RoutesHaveHandlers(regs[..|regs| - 1], verb, route);
    }
  }

  /** What serving a request comes to. */
  datatype Outcome = NotFound | Call(handler: int, params: map<string, string>)

  ghost predicate Serves(regs: seq<Registration>, verb: string, path: string, o: Outcome) {
    var routes, segs := RoutesFor(regs, verb), R.Parse(path);
    match o
    case NotFound => forall r :: r in routes ==> !T.Matches(r, segs)
    case Call(handler, params) =>
      exists r :: r in routes && T.Route(r) && T.Matches(r, segs)
        && (forall q :: q in routes && T.Matches(q, segs) ==> r == q || T.Preferred(routes, segs, 0, r, q))
        && LastHandler(regs, verb, r) == Some(handler)
        && params == R.Params(r, segs)
  }

  lemma {:induction false} BuildMore(rs: seq<T.Parts>, r: T.Parts)
    ensures T.Build([]) == T.ROOT
    ensures T.Build(rs + [r]) == T.Insert(T.Build(rs), T.Canonical(r), r, 0)
  {
    hide T.Insert, T.Canonical;
    assert (rs + [r])[..|rs|] == rs;
  }

  function Opened(trees: map<string, T.Node>, verb: string): map<string, T.Node> {
    if verb in trees then trees else trees[verb := T.ROOT]
  }

  /** What the tries and the handlers hold after a list of registrations. */
  ghost predicate Registered(trees: map<string, T.Node>, handlers: map<string, int>, regs: seq<Registration>) {
    && (forall v :: v in trees ==> trees[v] == T.Build(RoutesFor(regs, v)))
    && (forall v :: v !in trees ==> RoutesFor(regs, v) == [])
    && handlers == Filed(regs)
    && (forall i :: 0 <= i < |regs| ==> IsVerb(regs[i].verb))
  }

  lemma {:induction false} RegisteredMore(trees: map<string, T.Node>, handlers: map<string, int>, regs: seq<Registration>, reg: Registration)
    requires Registered(trees, handlers, regs) && IsVerb(reg.verb)
    ensures var parts, ts := R.Parse(reg.pattern), Opened(trees, reg.verb);
            Registered(ts[reg.verb := T.Insert(ts[reg.verb], T.Canonical(parts), parts, 0)],
                       handlers[reg.verb + "-" + T.Canonical(parts) := reg.handler],
                       regs + [reg])
  {
    BuildMore(RoutesFor(regs, reg.verb), R.Parse(reg.pattern));
    RegisterMore(regs, reg);
    hide T.Build, R.Parse, T.Insert, T.Canonical, RoutesFor, Filed;
  }

  lemma {:induction false} RegisterMore(regs: seq<Registration>, reg: Registration)
    ensures Filed(regs + [reg]) == Filed(regs)[Key(reg.verb, R.Parse(reg.pattern)) := reg.handler]
    ensures forall v :: RoutesFor(regs + [reg], v) == if reg.verb == v then RoutesFor(regs, v) + [R.Parse(reg.pattern)] else RoutesFor(regs, v)
  {
    assert (regs + [reg])[..|regs|] == regs;
  }

  /** The node found carries the pattern of one route that is preferred to all others. */
  lemma {:induction false} FoundRoute(rs: seq<T.Parts>, segs: T.Parts) returns (r: T.Parts)
    requires forall i :: 0 <= i < |rs| ==> T.Route(rs[i]) && R.NoSlash(rs[i])
    requires T.Search(T.Build(rs), segs, 0).Some?
    ensures r in rs && T.Route(r) && R.NoSlash(r) && T.Matches(r, segs)
    ensures T.Search(T.Build(rs), segs, 0).value.pattern == T.Canonical(r)
    ensures forall q :: q in rs && T.Matches(q, segs) ==> r == q || T.Preferred(rs, segs, 0, r, q)
  {
    hide T.Build, T.Search, T.Preferred, T.Canonical, T.Matches, T.Route;
    T.SearchSoundComplete(rs, segs);
    r :| r in rs && T.Matches(r, segs) && T.Search(T.Build(rs), segs, 0).value.pattern == T.Canonical(r);
    forall q | q in rs && T.Matches(q, segs) ensures r == q || T.Preferred(rs, segs, 0, r, q) {
      T.SearchPrefers(rs, segs, q);
      var s :| s in rs && T.Matches(s, segs) && T.Search(T.Build(rs), segs, 0).value.pattern == T.Canonical(s)
        && (s == q || T.Preferred(rs, segs, 0, s, q));
      R.CanonicalInjective(r, s);
    }
  }

  class Router {
    var roots: map<string, O.Node>
    var handlers: map<string, int>
    ghost var regs: seq<Registration>
    ghost var Repr: set<O.Node>

    /** The tries share no node. */
    ghost predicate Tries()
      reads this`roots, this`Repr, Repr
    {
      && (forall v :: v in roots ==> roots[v] in Repr && roots[v] in roots[v].Repr && roots[v].Repr <= Repr && roots[v].Valid())
      && (forall v, w :: v in roots && w in roots && v != w ==> roots[v].Repr !! roots[w].Repr)
    }

    ghost function Trees(): map<string, T.Node>
      reads this`roots, this`Repr, Repr
      requires Tries()
    {
      map v | v in roots :: roots[v].tree
    }

    ghost predicate Valid()
      reads this, Repr
    {
      Tries() && Registered(Trees(), handlers, regs)
    }

    constructor ()
      ensures Valid() && regs == [] && Repr == {}
    {
      roots, handlers, regs, Repr := map[], map[], [], {};
    }

    method AddRoute(verb: string, pattern: string, handler: int)
      requires Valid() && IsVerb(verb)
      modifies this, Repr
      ensures Valid() && fresh(Repr - old(Repr)) && regs == old(regs) + [Registration(verb, pattern, handler)]
    {
      hide T.Build, R.Parse, T.Insert, T.Canonical, T.Join, T.Route, R.NoSlash, Opened, R.Take, R.Split, Registered, Tries, O.Node.Valid, Trees;
      var parts := R.ParsePattern(pattern);
      R.ParseRoute(pattern);
      RegisteredMore(Trees(), handlers, regs, Registration(verb, pattern, handler));
      OpenRoot(verb);
      var canonical := T.Canonical(parts);
      InsertAt(verb, canonical, parts);
      handlers := handlers[verb + "-" + canonical := handler];
      regs := regs + [Registration(verb, pattern, handler)];
    }

    /** Makes sure that the method has a trie. */
    method OpenRoot(verb: string)
      requires Tries()
      modifies this`roots, this`Repr
      ensures Tries() && fresh(Repr - old(Repr))
      ensures Trees() == Opened(old(Trees()), verb) && verb in Trees()
    {
      hide O.Node.Valid, T.Build, T.Insert;
      if verb !in roots {
        var root := new O.Node("", false);
        AddRoot(verb, root);
      }
    }

    method AddRoot(verb: string, root: O.Node)
      requires Tries() && verb !in roots && root.Valid() && root in root.Repr && root.Repr !! Repr
      modifies this`roots, this`Repr
      ensures Tries() && Repr == old(Repr) + root.Repr
      ensures Trees() == old(Trees())[verb := root.tree]
    {
      hide O.Node.Valid;
      roots := roots[verb := root];
      Repr := Repr + root.Repr;
    }

    method InsertAt(verb: string, canonical: string, parts: T.Parts)
      requires Tries() && verb in Trees() && T.Route(parts)
      modifies Repr, this`Repr
      ensures Tries() && fresh(Repr - old(Repr))
      ensures Trees() == old(Trees())[verb := T.Insert(old(Trees())[verb], canonical, parts, 0)]
    {
      hide T.Insert, O.Node.Valid;
      var root := roots[verb];
      root.Insert(canonical, parts, 0);
      Repr := Repr + root.Repr;
    }

    /** The route for a request, with its parameters. */
    method GetRoute(verb: string, path: string) returns (n: O.Node?, params: map<string, string>)
      requires Valid()
      ensures n == null ==> Serves(regs, verb, path, NotFound)
      ensures n != null ==>
                && verb + "-" + n.pattern in handlers
                && Serves(regs, verb, path, Call(handlers[verb + "-" + n.pattern], params))
    {
      hide T.Build, R.Parse, T.Search, RoutesFor, Filed, T.Canonical, LastHandler, IsVerb, O.Node.Valid, T.Route, R.NoSlash,
           T.Matches, T.Preferred, Serves;
      var segs := R.ParsePattern(path);
      params := map[];
      if verb !in roots {
        NothingServed(regs, verb, path);
        return null, params;
      }
      n := roots[verb].Search(segs, 0);
      if n == null {
        NothingServed(regs, verb, path);
        return;
      }
      n.Facts();
      ghost var r := RouteServed(regs, verb, path);
      R.ParseCanonical(r);
      var parts := R.ParsePattern(n.pattern);
      params := R.ReadParams(parts, segs);
      assert Key(verb, r) == verb + "-" + n.pattern;
    }
  }

  lemma {:induction false} NothingServed(regs: seq<Registration>, verb: string, path: string)
    requires T.Search(T.Build(RoutesFor(regs, verb)), R.Parse(path), 0).None? || RoutesFor(regs, verb) == []
    ensures Serves(regs, verb, path, NotFound)
  {
    RoutesAreRoutes(regs, verb);
    T.SearchSoundComplete(RoutesFor(regs, verb), R.Parse(path));
    hide T.Build, R.Parse, T.Search, RoutesFor, T.Route, R.NoSlash, T.Matches;
  }

  /** The route of the node that is found, with the handler filed for it. */
  lemma {:induction false} RouteServed(regs: seq<Registration>, verb: string, path: string) returns (r: T.Parts)
    requires forall i :: 0 <= i < |regs| ==> IsVerb(regs[i].verb)
    requires T.Search(T.Build(RoutesFor(regs, verb)), R.Parse(path), 0).Some?
    ensures T.Route(r) && R.NoSlash(r) && T.Matches(r, R.Parse(path))
    ensures T.Search(T.Build(RoutesFor(regs, verb)), R.Parse(path), 0).value.pattern == T.Canonical(r)
    ensures Key(verb, r) in Filed(regs)
    ensures Serves(regs, verb, path, Call(Filed(regs)[Key(verb, r)], R.Params(r, R.Parse(path))))
  {
    RoutesAreRoutes(regs, verb);
    hide T.Build, R.Parse, T.Search, RoutesFor, Filed, T.Canonical, LastHandler, IsVerb, T.Route, R.NoSlash, T.Matches, T.Preferred, R.Params;
    r := FoundRoute(RoutesFor(regs, verb), R.Parse(path));
    HandlerFound(regs, verb, r);
  }

  lemma {:induction false} HandlerFound(regs: seq<Registration>, verb: string, r: T.Parts)
    requires forall i :: 0 <= i < |regs| ==> IsVerb(regs[i].verb)
    requires r in RoutesFor(regs, verb) && T.Route(r) && R.NoSlash(r)
    ensures Key(verb, r) in Filed(regs) && LastHandler(regs, verb, r) == Some(Filed(regs)[Key(verb, r)])
  {
    RoutesHaveHandlers(regs, verb, r);
    VerbRegistered(regs, verb);
    forall i | 0 <= i < |regs| ensures '/' !in regs[i].verb {
      VerbsPlain(regs[i].verb);
    }
    hide IsVerb, Key, Filed, LastHandler, RoutesFor, T.Route, R.NoSlash;
    FiledIsLast(regs, verb, r);
  }

  lemma {:induction false} VerbRegistered(regs: seq<Registration>, verb: string)
    requires RoutesFor(regs, verb) != []
    ensures exists i :: 0 <= i < |regs| && regs[i].verb == verb
  {
    var n := |regs| - 1;
    if regs[n].verb != verb {
      VerbRegistered(regs[..n], verb);
    }
  }
}
