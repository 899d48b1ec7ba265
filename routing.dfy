/**
 * Route conventions: a controller name and a route key become an HTTP verb
 * and a path; a set of controllers is bound onto a router; each bound action
 * is wrapped so that its outcome is dispatched through the result registry.
 */
module Routing {
  import opened Js
  import opened Text
  import Kebab
  import opened Tables
  import opened Handling

  datatype Route = Route(verb: string, path: string)

  /** A parsed route, or the error `parseExplicitRoute` throws. */
  datatype Parsed = Parsed(route: Route) | Unparsable(error: Value)

  const CrudKeys: set<string> := {"create", "update", "list", "view", "remove"}

  /** The templates of the five CRUD route keys; `&` stands for the resource name. */
  function CrudTemplate(key: string): Option<string> {
    if key == "create" then Some("post /&")
    else if key == "update" then Some("put /&/:id")
    else if key == "list" then Some("get /&")
    else if key == "view" then Some("get /&/:id")
    else if key == "remove" then Some("delete /&/:id")
    else None
  }

  /** `parseRoute(controllerName, routeOrMethodName)`. */
  function ParseRoute(controllerName: string, key: string): Parsed {
    ParseExplicitRoute(controllerName, Template(key))
  }

  /** The template with its first `&` replaced by the kebab-case controller name. */
  function Resolved(controllerName: string, template: string): string {
    ReplaceFirst(template, '&', Kebab.KebabCase(controllerName))
  }

  /** `parseExplicitRoute(controllerName, route)`. */
  function ParseExplicitRoute(controllerName: string, template: string): Parsed {
    Tokens(Resolved(controllerName, template))
  }

  /** The verb and path of a resolved route: one word is a `get` path, two are verb and path. */
  function Tokens(route: string): Parsed {
    var parts := Split(route, ' ');
    if |parts| == 1 then Parsed(Route("get", parts[0]))
    else if |parts| == 2 then Parsed(Route(ToLower(parts[0]), parts[1]))
    else Unparsable(ErrorObject("Error", "Can not parse route \"" + route + "\"!"))
  }

  /** Substituting the resource name adds no space: the spaces of the result are the template's. */
  lemma ResolvedSpaces(controllerName: string, template: string)
    ensures Count(Resolved(controllerName, template), ' ') == Count(template, ' ')
    ensures '&' !in template ==> Resolved(controllerName, template) == template
  {
    var name := Kebab.KebabCase(controllerName);
    Kebab.KebabCaseChars(controllerName);
    if '&' !in template {
      ReplaceFirstAbsent(template, '&', name);
    }
    ReplaceFirstCount(template, '&', name, ' ');
  }

  /** With the template's first `&` at `i`, that `&` becomes the kebab-case name and any later `&` stays. */
  lemma FirstAmpersandOnly(controllerName: string, template: string, i: nat)
    requires i < |template| && template[i] == '&' && '&' !in template[..i]
    ensures Resolved(controllerName, template) == template[..i] + Kebab.KebabCase(controllerName) + template[i + 1..]
  {
    ReplaceFirstAt(template, '&', Kebab.KebabCase(controllerName), i);
  }

  /** A route with exactly one space, at `i`, is the lower-cased verb before it and the path after it. */
  lemma TokensOne(route: string, i: nat)
    requires i < |route| && route[i] == ' ' && ' ' !in route[..i] && ' ' !in route[i + 1..]
    ensures Tokens(route) == Parsed(Route(ToLower(route[..i]), route[i + 1..]))
  {
    SplitOne(route, ' ', i);
  }

  /** A template without a space is a `get` of the whole resolved template. */
  lemma OneToken(controllerName: string, template: string)
    requires ' ' !in template
    ensures ParseExplicitRoute(controllerName, template) == Parsed(Route("get", Resolved(controllerName, template)))
  {
    ResolvedSpaces(controllerName, template);
    CountZero(template, ' ');
    CountZero(Resolved(controllerName, template), ' ');
    SplitNone(Resolved(controllerName, template), ' ');
  }

  /** A route with exactly one space splits at it. */
  lemma TokensTwo(route: string)
    requires Count(route, ' ') == 1
    ensures var parts := Split(route, ' ');
      route == parts[0] + " " + parts[1] && Tokens(route) == Parsed(Route(ToLower(parts[0]), parts[1]))
  {
    var parts := Split(route, ' ');
    JoinSplit(route, ' ');
    assert Join(parts[1..], ' ') == parts[1];
  }

  /** A template with exactly one space is a lower-cased verb and a path, separated by that space. */
  lemma TwoTokens(controllerName: string, template: string)
    requires Count(template, ' ') == 1
    ensures exists verb, path ::
      && ' ' !in verb && ' ' !in path
      && Resolved(controllerName, template) == verb + " " + path
      && ParseExplicitRoute(controllerName, template) == Parsed(Route(ToLower(verb), path))
  {
    var route := Resolved(controllerName, template);
    ResolvedSpaces(controllerName, template);
    TokensTwo(route);
    var parts := Split(route, ' ');
    assert ' ' !in parts[0] && ' ' !in parts[1];
  }

  /** Two or more spaces (a three-word template, a doubled space) make the parse throw. */
  lemma TooManyTokens(controllerName: string, template: string)
    requires Count(template, ' ') >= 2
    ensures ParseExplicitRoute(controllerName, template)
      == Unparsable(ErrorObject("Error", "Can not parse route \"" + Resolved(controllerName, template) + "\"!"))
  {
    ResolvedSpaces(controllerName, template);
  }

  /** A route parses exactly when its template has at most one space. */
  lemma ParsesIff(controllerName: string, template: string)
    ensures ParseExplicitRoute(controllerName, template).Parsed? <==> Count(template, ' ') <= 1
  {
    ResolvedSpaces(controllerName, template);
  }

  /** A two-word template without `&` is the lower-cased verb and the path as written. */
  lemma VerbAndPath(controllerName: string, template: string, verb: string, path: string)
    requires template == verb + " " + path
    requires ' ' !in verb && '&' !in verb && ' ' !in path && '&' !in path
    ensures ParseExplicitRoute(controllerName, template) == Parsed(Route(ToLower(verb), path))
  {
    assert '&' !in template;
    ResolvedSpaces(controllerName, template);
    assert template[|verb|] == ' ' && template[..|verb|] == verb && template[|verb| + 1..] == path;
    TokensOne(template, |verb|);
  }

  /** A two-word template with `&` in its path has the kebab-case controller name in the first `&`'s place. */
  lemma VerbAndNamedPath(controllerName: string, template: string, verb: string, pre: string, post: string)
    requires template == verb + " " + pre + "&" + post
    requires ' ' !in verb && '&' !in verb && ' ' !in pre && '&' !in pre && ' ' !in post
    ensures ParseExplicitRoute(controllerName, template)
      == Parsed(Route(ToLower(verb), pre + Kebab.KebabCase(controllerName) + post))
  {
    var name := Kebab.KebabCase(controllerName);
    Kebab.KebabCaseChars(controllerName);
    var amp := |verb| + 1 + |pre|;
    assert template[amp] == '&';
    assert template[..amp] == verb + " " + pre;
    assert '&' !in template[..amp];
    assert template[amp + 1..] == post;
    FirstAmpersandOnly(controllerName, template, amp);
    var path := pre + name + post;
    var route := verb + " " + path;
    assert Resolved(controllerName, template) == route;
    assert ' ' !in path;
    assert route[|verb|] == ' ' && route[..|verb|] == verb && route[|verb| + 1..] == path;
    TokensOne(route, |verb|);
  }

  /** The template a route key stands for: its CRUD template, or the key itself. */
  function Template(key: string): (t: string)
    ensures key !in CrudKeys ==> t == key
    ensures key in CrudKeys ==> CrudTemplate(key) == Some(t)
  {
    match CrudTemplate(key) case Some(t) => t case None => key
  }

  /** A route key whose template is a verb and a path with `&` in it. */
  lemma NamedRoute(controllerName: string, key: string, verb: string, pre: string, post: string,
                   lowered: string, name: string, path: string)
    requires Template(key) == verb + " " + pre + "&" + post
    requires ' ' !in verb && '&' !in verb && ' ' !in pre && '&' !in pre && ' ' !in post
    requires ToLower(verb) == lowered && Kebab.KebabCase(controllerName) == name && pre + name + post == path
    ensures ParseRoute(controllerName, key) == Parsed(Route(lowered, path))
  {
    VerbAndNamedPath(controllerName, Template(key), verb, pre, post);
  }

  /** A route key whose template is a verb and a path without `&`. */
  lemma PlainRoute(controllerName: string, key: string, verb: string, path: string, lowered: string)
    requires Template(key) == verb + " " + path
    requires ' ' !in verb && '&' !in verb && ' ' !in path && '&' !in path
    requires ToLower(verb) == lowered
    ensures ParseRoute(controllerName, key) == Parsed(Route(lowered, path))
  {
    VerbAndPath(controllerName, Template(key), verb, path);
  }

  lemma CreateRoute(controllerName: string)
    ensures ParseRoute(controllerName, "create") == Parsed(Route("post", "/" + Kebab.KebabCase(controllerName)))
  {
    var name := Kebab.KebabCase(controllerName);
    NamedRoute(controllerName, "create", "post", "/", "", "post", name, "/" + name);
  }

  lemma UpdateRoute(controllerName: string)
    ensures ParseRoute(controllerName, "update") == Parsed(Route("put", "/" + Kebab.KebabCase(controllerName) + "/:id"))
  {
    var name := Kebab.KebabCase(controllerName);
    NamedRoute(controllerName, "update", "put", "/", "/:id", "put", name, "/" + name + "/:id");
  }

  lemma ListRoute(controllerName: string)
    ensures ParseRoute(controllerName, "list") == Parsed(Route("get", "/" + Kebab.KebabCase(controllerName)))
  {
    var name := Kebab.KebabCase(controllerName);
    NamedRoute(controllerName, "list", "get", "/", "", "get", name, "/" + name);
  }

  lemma ViewRoute(controllerName: string)
    ensures ParseRoute(controllerName, "view") == Parsed(Route("get", "/" + Kebab.KebabCase(controllerName) + "/:id"))
  {
    var name := Kebab.KebabCase(controllerName);
    NamedRoute(controllerName, "view", "get", "/", "/:id", "get", name, "/" + name + "/:id");
  }

  lemma RemoveRoute(controllerName: string)
    ensures ParseRoute(controllerName, "remove") == Parsed(Route("delete", "/" + Kebab.KebabCase(controllerName) + "/:id"))
  {
    var name := Kebab.KebabCase(controllerName);
    NamedRoute(controllerName, "remove", "delete", "/", "/:id", "delete", name, "/" + name + "/:id");
  }

  /** The five CRUD keys, with the leading slash their templates carry. */
  lemma CrudRoutes(controllerName: string)
    ensures var name := Kebab.KebabCase(controllerName);
      && ParseRoute(controllerName, "create") == Parsed(Route("post", "/" + name))
      && ParseRoute(controllerName, "update") == Parsed(Route("put", "/" + name + "/:id"))
      && ParseRoute(controllerName, "list") == Parsed(Route("get", "/" + name))
      && ParseRoute(controllerName, "view") == Parsed(Route("get", "/" + name + "/:id"))
      && ParseRoute(controllerName, "remove") == Parsed(Route("delete", "/" + name + "/:id"))
  {
    CreateRoute(controllerName);
    UpdateRoute(controllerName);
    ListRoute(controllerName);
    ViewRoute(controllerName);
    RemoveRoute(controllerName);
  }

  /** Every other key is its own template. */
  lemma ExplicitRoutes(controllerName: string, key: string)
    requires key !in CrudKeys
    ensures ParseRoute(controllerName, key) == ParseExplicitRoute(controllerName, key)
  {
  }

  /** A fixed route without `&` is parsed as written, whatever the controller. */
  lemma TestedPatchRoute(controllerName: string)
    ensures ParseRoute(controllerName, "patch /my-entity/:id") == Parsed(Route("patch", "/my-entity/:id"))
  {
    PlainRoute(controllerName, "patch /my-entity/:id", "patch", "/my-entity/:id", "patch");
  }

  /** `head /&/:id` is not a CRUD key, so it is its own template, a verb and a path around `&`. */
  lemma HeadTemplate()
    ensures Template("head /&/:id") == "head" + " " + "/" + "&" + "/:id"
  {
  }

  lemma HeadPieces()
    ensures ' ' !in "head" && '&' !in "head" && ' ' !in "/" && '&' !in "/" && ' ' !in "/:id"
    ensures ToLower("head") == "head" && "/" + "my-controller-2" + "/:id" == "/my-controller-2/:id"
  {
  }

  /** `&` in an explicit route is the kebab-case controller name (`my-controller-2` for itself). */
  lemma TestedHeadRoute(controllerName: string)
    requires Kebab.KebabCase(controllerName) == "my-controller-2"
    ensures ParseRoute(controllerName, "head /&/:id") == Parsed(Route("head", "/my-controller-2/:id"))
  {
    HeadTemplate();
    HeadPieces();
    NamedRoute(controllerName, "head /&/:id", "head", "/", "/:id", "head", "my-controller-2", "/my-controller-2/:id");
  }

  /** The verb of an explicit route is lower-cased. */
  lemma TestedDeleteRoute(controllerName: string)
    ensures ParseRoute(controllerName, "DELETE /my-stuff/:id") == Parsed(Route("delete", "/my-stuff/:id"))
  {
    PlainRoute(controllerName, "DELETE /my-stuff/:id", "DELETE", "/my-stuff/:id", "delete");
  }

  /** A path without leading slash stays without one (`myController2` is `my-controller-2` in kebab case). */
  lemma TestedCamelRoute(controllerName: string)
    requires Kebab.KebabCase(controllerName) == "my-controller-2"
    ensures ParseRoute(controllerName, "GET &/:id") == Parsed(Route("get", "my-controller-2/:id"))
  {
    NamedRoute(controllerName, "GET &/:id", "GET", "", "/:id", "get", "my-controller-2", "my-controller-2/:id");
  }

  // Binding controllers onto a router.

  /** A controller: its name and its actions keyed by route key, in iteration order. */
  datatype Controller<H> = Controller(name: string, actions: seq<(string, H)>)

  /** One action of one controller. */
  datatype Action<H> = Action(controller: string, key: string, handler: H)

  /** A route registration: verb, path and the action its wrapped handler runs. */
  datatype Binding<H> = Binding(verb: string, path: string, handler: H)

  function ActionsOf<H>(name: string, actions: seq<(string, H)>): (r: seq<Action<H>>)
    ensures |r| == |actions|
    ensures forall i :: 0 <= i < |actions| ==> r[i] == Action(name, actions[i].0, actions[i].1)
  {
    seq(|actions|, i requires 0 <= i < |actions| => Action(name, actions[i].0, actions[i].1))
  }

  /** Every action of every controller, in iteration order. */
  function Flatten<H>(controllers: seq<Controller<H>>): seq<Action<H>>
    decreases |controllers|
  {
    if controllers == [] then []
    else
      var last := controllers[|controllers| - 1];
      Flatten(controllers[..|controllers| - 1]) + ActionsOf(last.name, last.actions)
  }

  /** The registrations made, and the error that stopped binding, if one did. */
  datatype Bound<H> = Bound(bindings: seq<Binding<H>>, error: Option<Value>)

  /**
   * Binding actions in order with the route parser `parse` (`parseRoute` in the
   * router); the first action whose route does not parse stops it.
   */
  function Bind<H>(parse: (string, string) -> Parsed, actions: seq<Action<H>>): Bound<H>
    decreases |actions|
  {
    if actions == [] then Bound([], None)
    else
      var prev := Bind(parse, actions[..|actions| - 1]);
      var a := actions[|actions| - 1];
      if prev.error.Some? then prev
      else match parse(a.controller, a.key)
        case Parsed(r) => Bound(prev.bindings + [Binding(r.verb, r.path, a.handler)], None)
        case Unparsable(e) => Bound(prev.bindings, Some(e))
  }

  /**
   * Binding registers the k-th action at its parsed route for every k up to
   * the first action that does not parse; it registers all of them exactly when
   * none fails, and otherwise reports the failing action's error.
   */
  lemma {:induction false} BindSpec<H>(parse: (string, string) -> Parsed, actions: seq<Action<H>>)
    ensures var b := Bind(parse, actions);
      && |b.bindings| <= |actions|
      && (forall k :: 0 <= k < |b.bindings| ==>
            parse(actions[k].controller, actions[k].key) == Parsed(Route(b.bindings[k].verb, b.bindings[k].path))
            && b.bindings[k].handler == actions[k].handler)
      && (b.error.None? ==> |b.bindings| == |actions|)
      && (b.error.Some? ==>
            && |b.bindings| < |actions|
            && parse(actions[|b.bindings|].controller, actions[|b.bindings|].key) == Unparsable(b.error.value))
    decreases |actions|
  {
    if actions != [] {
      var init := actions[..|actions| - 1];
      BindSpec(parse, init);
      assert forall k :: 0 <= k < |init| ==> init[k] == actions[k];
    }
  }

  /** Once binding has failed, later actions change nothing. */
  lemma {:induction false} BindStaysFailed<H>(parse: (string, string) -> Parsed, actions: seq<Action<H>>, j: nat)
    requires j <= |actions| && Bind(parse, actions[..j]).error.Some?
    ensures Bind(parse, actions) == Bind(parse, actions[..j])
    decreases |actions|
  {
    if j < |actions| {
      var init := actions[..|actions| - 1];
      assert init[..j] == actions[..j];
      BindStaysFailed(parse, init, j);
    } else {
      assert actions[..j] == actions;
    }
  }

  /** The host router: an append-only list of registrations. */
  class Router<H> {
    var routes: seq<Binding<H>>

    constructor ()
      ensures routes == []
    {
      routes := [];
    }

    /** `router[method](path, handler)`. */
    method Add(verb: string, path: string, handler: H)
      modifies this
      ensures routes == old(routes) + [Binding(verb, path, handler)]
    {
      routes := routes + [Binding(verb, path, handler)];
    }
  }

  /** The actions of the first `i + 1` controllers: those of the first `i`, then the `i`-th controller's. */
  lemma FlattenNext<H>(controllers: seq<Controller<H>>, i: nat)
    requires i < |controllers|
    ensures Flatten(controllers[..i + 1]) == Flatten(controllers[..i]) + ActionsOf(controllers[i].name, controllers[i].actions)
  {
    assert controllers[..i + 1][..i] == controllers[..i];
  }

  /** The actions of the first `n` controllers come first. */
  lemma {:induction false} FlattenPrefix<H>(controllers: seq<Controller<H>>, n: nat)
    requires n <= |controllers|
    ensures Flatten(controllers[..n]) <= Flatten(controllers)
    decreases |controllers|
  {
    if n < |controllers| {
      var init := controllers[..|controllers| - 1];
      assert init[..n] == controllers[..n];
      FlattenPrefix(init, n);
    } else {
      assert controllers[..n] == controllers;
    }
  }

  /** Action `j` of controller `i` sits right after the actions of the controllers before it. */
  lemma FlattenAt<H>(controllers: seq<Controller<H>>, i: nat, j: nat)
    requires i < |controllers| && j < |controllers[i].actions|
    ensures |Flatten(controllers[..i])| + j < |Flatten(controllers)|
    ensures Flatten(controllers)[|Flatten(controllers[..i])| + j]
      == Action(controllers[i].name, controllers[i].actions[j].0, controllers[i].actions[j].1)
  {
    FlattenNext(controllers, i);
    FlattenPrefix(controllers, i + 1);
  }

  lemma TakeOneMore<T>(s: seq<T>, n: nat)
    requires n < |s|
    ensures s[..n + 1] == s[..n] + [s[n]]
  {
  }

  /** Binding one more action after a successful prefix. */
  lemma BindNext<H>(parse: (string, string) -> Parsed, prev: seq<Action<H>>, a: Action<H>)
    requires Bind(parse, prev).error.None?
    ensures Bind(parse, prev + [a]) == match parse(a.controller, a.key)
      case Parsed(r) => Bound(Bind(parse, prev).bindings + [Binding(r.verb, r.path, a.handler)], None)
      case Unparsable(e) => Bound(Bind(parse, prev).bindings, Some(e))
  {
    assert (prev + [a])[..|prev|] == prev;
  }

  /** One step of the binding loop, after the first `n` actions bound without error. */
  lemma BindStep<H>(parse: (string, string) -> Parsed, actions: seq<Action<H>>, n: nat, routes: seq<Binding<H>>)
    requires n < |actions| && Bind(parse, actions[..n]) == Bound(routes, None)
    ensures var a := actions[n];
      match parse(a.controller, a.key)
      case Parsed(r) => Bind(parse, actions[..n + 1]) == Bound(routes + [Binding(r.verb, r.path, a.handler)], None)
      case Unparsable(e) => Bind(parse, actions) == Bound(routes, Some(e))
  {
    TakeOneMore(actions, n);
    BindNext(parse, actions[..n], actions[n]);
    if parse(actions[n].controller, actions[n].key).Unparsable? {
      BindStaysFailed(parse, actions, n + 1);
    }
  }

  /**
   * The binding loop of `createRouter`, for a route parser `parse`: registers
   * every action of every controller at its parsed route. A route that does not
   * parse stops the binding with its error; the routes registered before it stay
   * on the router.
   */
  method BindControllers<H>(parse: (string, string) -> Parsed, controllers: seq<Controller<H>>)
    returns (router: Router<H>, error: Option<Value>)
    ensures fresh(router)
    ensures router.routes == Bind(parse, Flatten(controllers)).bindings
    ensures error == Bind(parse, Flatten(controllers)).error
  {
    router := new Router();
    ghost var flat := Flatten(controllers);
    ghost var n := 0;
    var i := 0;
    while i < |controllers|
      invariant i <= |controllers| && n == |Flatten(controllers[..i])| && n <= |flat|
      invariant Bind(parse, flat[..n]) == Bound(router.routes, None)
    {
      FlattenNext(controllers, i);
      FlattenPrefix(controllers, i + 1);
      var name := controllers[i].name;
      var actions := controllers[i].actions;
      var j := 0;
      while j < |actions|
        invariant j <= |actions| && n == |Flatten(controllers[..i])| + j
        invariant Bind(parse, flat[..n]) == Bound(router.routes, None)
      {
        var (key, handler) := actions[j];
        FlattenAt(controllers, i, j);
        BindStep(parse, flat, n, router.routes);
        var parsed := parse(name, key);
        if parsed.Unparsable? {
          error := Some(parsed.error);
          return;
        }
        router.Add(parsed.route.verb, parsed.route.path, handler);
        j := j + 1;
        n := n + 1;
      }
      i := i + 1;
    }
    assert controllers[..i] == controllers;
    assert flat[..n] == flat;
    error := None;
  }

  /** `createRouter(controllers)`: the binding loop with `parseRoute`. */
  method CreateRouter<H>(controllers: seq<Controller<H>>) returns (router: Router<H>, error: Option<Value>)
    ensures fresh(router)
    ensures router.routes == Bind(ParseRoute, Flatten(controllers)).bindings
    ensures error == Bind(ParseRoute, Flatten(controllers)).error
  {
    router, error := BindControllers(ParseRoute, controllers);
  }

  /** When every action's route parses, every action is registered, in order, and nothing fails. */
  lemma {:induction false} BindAllParsed<H>(parse: (string, string) -> Parsed, actions: seq<Action<H>>, routes: seq<Route>)
    requires |routes| == |actions|
    requires forall k :: 0 <= k < |actions| ==> parse(actions[k].controller, actions[k].key) == Parsed(routes[k])
    ensures Bind(parse, actions)
      == Bound(seq(|actions|, k requires 0 <= k < |actions| => Binding(routes[k].verb, routes[k].path, actions[k].handler)), None)
    decreases |actions|
  {
    if actions != [] {
      var m := |actions| - 1;
      BindAllParsed(parse, actions[..m], routes[..m]);
      assert actions[..m] + [actions[m]] == actions;
      BindNext(parse, actions[..m], actions[m]);
    }
  }

  /** A single controller's actions are its pairs, in order. */
  lemma FlattenOne<H>(c: Controller<H>)
    ensures Flatten([c]) == ActionsOf(c.name, c.actions)
  {
    assert [c][..0] == [];
  }

  /** The explicit route of the router test. */
  lemma StarRoute(controllerName: string)
    ensures ParseRoute(controllerName, "PUT &/:id/star") == Parsed(Route("put", Kebab.KebabCase(controllerName) + "/:id/star"))
  {
    var name := Kebab.KebabCase(controllerName);
    NamedRoute(controllerName, "PUT &/:id/star", "PUT", "", "/:id/star", "put", name, name + "/:id/star");
  }

  /**
   * The router test: the five CRUD actions and one explicit route of a controller
   * are bound in iteration order, each at its route, for any controller name
   * (`Kebab.KebabOfCamel` gives the test's `myController1` the name `my-controller-1`).
   */
  lemma TestedRouter<H>(controllerName: string, h: seq<H>)
    requires |h| == 6
    ensures var c := [Controller(controllerName, [("create", h[0]), ("list", h[1]), ("view", h[2]),
                                                  ("update", h[3]), ("remove", h[4]), ("PUT &/:id/star", h[5])])];
      var b := Bind(ParseRoute, Flatten(c));
      var name := Kebab.KebabCase(controllerName);
      && b.error == None && |b.bindings| == 6
      && b.bindings[0] == Binding("post", "/" + name, h[0])
      && b.bindings[1] == Binding("get", "/" + name, h[1])
      && b.bindings[2] == Binding("get", "/" + name + "/:id", h[2])
      && b.bindings[3] == Binding("put", "/" + name + "/:id", h[3])
      && b.bindings[4] == Binding("delete", "/" + name + "/:id", h[4])
      && b.bindings[5] == Binding("put", name + "/:id/star", h[5])
  {
    var name := Kebab.KebabCase(controllerName);
    var acts := [("create", h[0]), ("list", h[1]), ("view", h[2]), ("update", h[3]), ("remove", h[4]), ("PUT &/:id/star", h[5])];
    var routes := [Route("post", "/" + name), Route("get", "/" + name), Route("get", "/" + name + "/:id"),
                   Route("put", "/" + name + "/:id"), Route("delete", "/" + name + "/:id"), Route("put", name + "/:id/star")];
    FlattenOne(Controller(controllerName, acts));
    var flat := ActionsOf(controllerName, acts);
    forall k | 0 <= k < |flat| ensures ParseRoute(flat[k].controller, flat[k].key) == Parsed(routes[k]) {
      CrudRoutes(controllerName);
      StarRoute(controllerName);
      assert flat[k] == Action(controllerName, acts[k].0, acts[k].1);
      if k == 0 { assert acts[k].0 == "create"; }
      else if k == 1 { assert acts[k].0 == "list"; }
      else if k == 2 { assert acts[k].0 == "view"; }
      else if k == 3 { assert acts[k].0 == "update"; }
      else if k == 4 { assert acts[k].0 == "remove"; }
      else { assert acts[k].0 == "PUT &/:id/star"; }
    }
    BindAllParsed(ParseRoute, flat, routes);
  }

  // The per-route wrapper.

  /** What a controller action did: returned a value (or resolved to one), or threw (or rejected). */
  datatype Outcome = Returned(value: Value) | Threw(error: Value)

  /** `_.extend({}, req.files, req.query, req.params, req.body)`: later sources win. */
  function MergeParams(req: Request): (params: Table)
    ensures params.Keys == req.files.Keys + req.query.Keys + req.params.Keys + req.body.Keys
    ensures forall k :: k in req.body ==> params[k] == req.body[k]
    ensures forall k :: k in req.params && k !in req.body ==> params[k] == req.params[k]
    ensures forall k :: k in req.query && k !in req.params && k !in req.body ==> params[k] == req.query[k]
    ensures forall k :: k in req.files && k !in req.query && k !in req.params && k !in req.body ==>
      params[k] == req.files[k]
  {
    req.files + req.query + req.params + req.body
  }

  /**
   * The handler `createHandler(action)` returns, run on one request: the action
   * is called with the context and the merged parameters; a returned value goes
   * to `handleResult`, and anything thrown on the way (by the action, or by the
   * result handler) goes to `handleException`. What `handleException` throws is
   * left unhandled.
   */
  function Serve<H>(registry: Registry, invoke: (H, Table, Table, Request) -> Outcome, action: H, req: Request): (d: Dispatch)
    reads registry
    // a failing action reaches the exception handler only
    ensures invoke(action, registry.BuildContext(req), MergeParams(req), req).Threw?
      ==> d == registry.HandleException(invoke(action, registry.BuildContext(req), MergeParams(req), req).error)
    // with the built-in exception handler nothing is ever left unhandled
    ensures Lookup(registry.handlers, "exception") == Fun(OnException) ==> d.thrown.None?
    // with it, a failing action yields status 500 and nothing else
    ensures Lookup(registry.handlers, "exception") == Fun(OnException)
      && invoke(action, registry.BuildContext(req), MergeParams(req), req).Threw?
      ==> d == Dispatch([StatusSet(500), Ended], None)
  {
    var context := registry.BuildContext(req);
    var params := MergeParams(req);
    match invoke(action, context, params, req)
    case Returned(value) =>
      var handled := registry.HandleResult(value);
      if handled.thrown.None? then handled
      else
        var recovered := registry.HandleException(handled.thrown.value);
        Dispatch(handled.events + recovered.events, recovered.thrown)
    case Threw(error) => registry.HandleException(error)
  }

  /** A value returned and handled without error is dispatched once, and the exception handler is not run. */
  lemma ServeSuccess<H>(registry: Registry, invoke: (H, Table, Table, Request) -> Outcome, action: H, req: Request, v: Value)
    requires invoke(action, registry.BuildContext(req), MergeParams(req), req) == Returned(v)
    requires registry.HandleResult(v).thrown.None?
    ensures Serve(registry, invoke, action, req) == registry.HandleResult(v)
  {
  }

  /**
   * A result handler that throws after writing to the response keeps what it
   * wrote, and the exception handler's output follows it: both reach the response.
   */
  lemma ServeHandlerThrows<H>(registry: Registry, invoke: (H, Table, Table, Request) -> Outcome, action: H, req: Request,
                              v: Value, e: Value)
    requires invoke(action, registry.BuildContext(req), MergeParams(req), req) == Returned(v)
    requires registry.HandleResult(v).thrown == Some(e)
    ensures Serve(registry, invoke, action, req)
      == Dispatch(registry.HandleResult(v).events + registry.HandleException(e).events, registry.HandleException(e).thrown)
  {
  }

  /**
   * With the built-in handlers, a stream descriptor whose stream cannot be piped
   * sets its headers, then the exception handler answers 500.
   */
  lemma ServeBrokenStream<H>(registry: Registry, invoke: (H, Table, Table, Request) -> Outcome, action: H, req: Request,
                             stream: Value, contentType: Value)
    requires Lookup(registry.handlers, "stream") == Fun(OnStream) && Lookup(registry.handlers, "exception") == Fun(OnException)
    requires !stream.Host? && Truthy(contentType)
    requires invoke(action, registry.BuildContext(req), MergeParams(req), req) == Returned(Stream(stream, contentType, Undefined))
    ensures Serve(registry, invoke, action, req) == Dispatch([HeaderSet("Content-Type", contentType), StatusSet(500), Ended], None)
  {
    var v := Stream(stream, contentType, Undefined);
    StreamRoundTrip(registry, stream, contentType, Undefined);
    assert registry.HandleResult(v) == Dispatch([HeaderSet("Content-Type", contentType)], Some(TypeError)) by {
      assert Prop(v, "stream") == stream && Prop(v, "contentType") == contentType && Prop(v, "contentDisposition") == Undefined;
    }
    ServeHandlerThrows(registry, invoke, action, req, v, TypeError);
  }

  /** An action returning `json(v)` under the built-in handlers sends `v` as JSON once. */
  lemma ServeJson<H>(registry: Registry, invoke: (H, Table, Table, Request) -> Outcome, action: H, req: Request, v: Value)
    requires Lookup(registry.handlers, "json") == Fun(OnJson)
    requires invoke(action, registry.BuildContext(req), MergeParams(req), req) == Returned(Json(v))
    ensures Serve(registry, invoke, action, req) == Dispatch([SentJson(v)], None)
  {
    JsonRoundTrip(registry, v);
  }

  /**
   * A returned descriptor whose string type has no handler makes `handleResult`
   * throw; the wrapper passes that to the exception handler, so the response is a 500.
   */
  lemma ServeUnregisteredType<H>(registry: Registry, invoke: (H, Table, Table, Request) -> Outcome, action: H, req: Request, v: Value)
    requires Lookup(registry.handlers, "exception") == Fun(OnException)
    requires Prop(v, "type").Str? && Prop(v, "type").s != "" && Prop(v, "type").s !in registry.handlers
    requires invoke(action, registry.BuildContext(req), MergeParams(req), req) == Returned(v)
    ensures Serve(registry, invoke, action, req) == Dispatch([StatusSet(500), Ended], None)
  {
  }
}
