/**
 * The result registry: two string-keyed tables, `results` (result
 * constructors, exposed to controller actions through the request context)
 * and `handlers` (functions that turn a result descriptor into calls on the
 * response), their registration, and dispatch of results and exceptions.
 * The response is observed as the log of calls made on it.
 */
module Handling {
  import opened Js
  import opened Tables

  /** The request fields the layer reads: the user and the four parameter sources. */
  datatype Request = Request(user: Value, files: Table, query: Table, params: Table, body: Table)

  /** A call made on the response object. */
  datatype Event =
    | Rendered(view: Value, data: Value)     // res.render(view, data)
    | Redirected(url: Value)                 // res.redirect(url)
    | SentJson(body: Value)                  // res.json(body)
    | HeaderSet(name: string, value: Value)  // res.set(name, value)
    | Piped(stream: Value)                   // stream.pipe(res)
    | StatusSet(code: int)                   // res.status(code)
    | Ended                                  // .end()
    | Called(fn: nat, arg: Value)            // the application's function `fn` called with (req, res, arg)

  /** The calls a handler made on the response, and what it threw, if it threw. */
  datatype Dispatch = Dispatch(events: seq<Event>, thrown: Option<Value>)

  // The built-in result constructors.

  /** `view(view, data)`: a descriptor tagged `view`; falsy data becomes `{}`. */
  function View(view: Value, data: Value): (r: Value)
    ensures r.Obj? && r.fields.Keys == {"type", "name", "data"}
    ensures Prop(r, "type") == Str("view") && Prop(r, "name") == view
    ensures Truthy(data) ==> Prop(r, "data") == data
    ensures !Truthy(data) ==> Prop(r, "data") == EmptyObject
  {
    Obj(map["type" := Str("view"), "name" := view, "data" := if Truthy(data) then data else EmptyObject])
  }

  /** `redirect(url)`: a descriptor tagged `redirect` carrying the url. */
  function Redirect(url: Value): (r: Value)
    ensures r.Obj? && r.fields.Keys == {"type", "url"}
    ensures Prop(r, "type") == Str("redirect") && Prop(r, "url") == url
  {
    Obj(map["type" := Str("redirect"), "url" := url])
  }

  /** `empty()`: a descriptor carrying nothing but its tag. */
  function Empty(): (r: Value)
    ensures r.Obj? && r.fields.Keys == {"type"} && Prop(r, "type") == Str("empty")
  {
    Obj(map["type" := Str("empty")])
  }

  /** `json(pojo)`: a descriptor tagged `json` carrying the value as `pojo`. */
  function Json(pojo: Value): (r: Value)
    ensures r.Obj? && r.fields.Keys == {"type", "pojo"}
    ensures Prop(r, "type") == Str("json") && Prop(r, "pojo") == pojo
  {
    Obj(map["type" := Str("json"), "pojo" := pojo])
  }

  /** `stream(stream, contentType, contentDisposition)`: a descriptor tagged `stream` with all three. */
  function Stream(stream: Value, contentType: Value, contentDisposition: Value): (r: Value)
    ensures r.Obj? && r.fields.Keys == {"type", "stream", "contentType", "contentDisposition"}
    ensures Prop(r, "type") == Str("stream") && Prop(r, "stream") == stream
    ensures Prop(r, "contentType") == contentType && Prop(r, "contentDisposition") == contentDisposition
  {
    Obj(map["type" := Str("stream"), "stream" := stream, "contentType" := contentType,
            "contentDisposition" := contentDisposition])
  }

  predicate IsResultConstructor(fn: Fn) {
    fn.MakeView? || fn.MakeRedirect? || fn.MakeEmpty? || fn.MakeJson? || fn.MakeStream?
  }

  /** The i-th positional argument of a call; a missing one is `undefined`. */
  function Arg(args: seq<Value>, i: nat): Value {
    if i < |args| then args[i] else Undefined
  }

  /** Calling a built-in result constructor, as a controller action does through its context. */
  function Construct(fn: Fn, args: seq<Value>): Value
    requires IsResultConstructor(fn)
  {
    match fn
    case MakeView => View(Arg(args, 0), Arg(args, 1))
    case MakeRedirect => Redirect(Arg(args, 0))
    case MakeEmpty => Empty()
    case MakeJson => Json(Arg(args, 0))
    case MakeStream => Stream(Arg(args, 0), Arg(args, 1), Arg(args, 2))
  }

  // The built-in handlers.

  /** The stream handler: optional headers, then the stream piped into the response. */
  function StreamOut(result: Value): Dispatch {
    var contentType := Prop(result, "contentType");
    var contentDisposition := Prop(result, "contentDisposition");
    var headers :=
      (if Truthy(contentType) then [HeaderSet("Content-Type", contentType)] else [])
      + (if Truthy(contentDisposition) then [HeaderSet("Content-Disposition", contentDisposition)] else []);
    var stream := Prop(result, "stream");
    if stream.Host? then Dispatch(headers + [Piped(stream)], None)
    else Dispatch(headers, Some(TypeError))
  }

  /** Calling function `fn` as a handler with `arg` as its third argument. */
  function Call(fn: Fn, arg: Value): Dispatch {
    match fn
    case OnView => Dispatch([Rendered(Prop(arg, "name"), Prop(arg, "data"))], None)
    case OnRedirect => Dispatch([Redirected(Prop(arg, "url"))], None)
    case OnJson => Dispatch([SentJson(Prop(arg, "pojo"))], None)
    case OnException => Dispatch([StatusSet(500), Ended], None)
    case OnEmpty => Dispatch([StatusSet(200), Ended], None)
    case OnStream => StreamOut(arg)
    case OnUndefined => Dispatch([StatusSet(404), Ended], None)
    case User(id) => Dispatch([Called(id, arg)], None)
    // a result constructor called as a handler only builds a value nobody reads
    case _ => Dispatch([], None)
  }

  /** Calling a table entry: anything but a function throws a TypeError before touching the response. */
  function Invoke(entry: Value, arg: Value): Dispatch {
    if entry.Fun? then Call(entry.fn, arg) else Dispatch([], Some(TypeError))
  }

  const BuiltinResults: Table := map[
    "view" := Fun(MakeView), "redirect" := Fun(MakeRedirect), "empty" := Fun(MakeEmpty),
    "json" := Fun(MakeJson), "stream" := Fun(MakeStream)]

  const BuiltinHandlers: Table := map[
    "view" := Fun(OnView), "redirect" := Fun(OnRedirect), "json" := Fun(OnJson),
    "exception" := Fun(OnException), "empty" := Fun(OnEmpty), "stream" := Fun(OnStream),
    "undefined" := Fun(OnUndefined)]

  /** The handler name for a result: its truthy `type`, else `undefined`. */
  function HandlerName(result: Value): (name: string)
    ensures !Truthy(result) || !Truthy(Prop(result, "type")) ==> name == "undefined"
    ensures Prop(result, "type").Str? && Prop(result, "type").s != "" ==> name == Prop(result, "type").s
  {
    if Truthy(result) && Truthy(Prop(result, "type")) then PropertyKey(Prop(result, "type")) else "undefined"
  }

  /** The pairs a registration writes: `{name: fn}` for one name, the object itself otherwise. */
  function RegisteredPairs(name: Name, fn: Value): seq<(string, Value)> {
    match name
    case Key(k) => [(k, fn)]
    case Pairs(ps) => ps
  }

  /** The overwrite flag: the fourth argument, or the third when the names come as an object. */
  function OverwriteFlag(name: Name, fn: Value, overwrite: Value): bool {
    match name
    case Key(_) => Truthy(overwrite)
    case Pairs(_) => Truthy(fn)
  }

  function OverwriteError(kind: string, name: string): Value {
    ErrorObject("Error", "Can not overwrite " + kind + " \"" + name + "\"!")
  }

  /** `register(kind, name, fn, overwrite)` on the table `kind` chooses. */
  function Registration(t: Table, name: Name, fn: Value, overwrite: Value): Insertion {
    Insert(t, RegisteredPairs(name, fn), OverwriteFlag(name, fn, overwrite))
  }

  /** The error a registration ends with. */
  function RegistrationError(kind: string, u: Insertion): Option<Value> {
    if u.blocked.Some? then Some(OverwriteError(kind, u.blocked.value)) else None
  }

  class Registry {
    var results: Table
    var handlers: Table

    constructor ()
      ensures results == BuiltinResults && handlers == BuiltinHandlers
    {
      results := BuiltinResults;
      handlers := BuiltinHandlers;
    }

    /** The table a registration of this kind writes into. */
    function Dictionary(kind: string): Table
      reads this
    {
      if kind == "result" then results else handlers
    }

    /**
     * `register(kind, name, fn, overwrite)`: writes the pairs into the chosen
     * table one by one and stops at the first name already holding a truthy
     * entry unless overwriting, leaving the pairs before it written.
     */
    method Register(kind: string, name: Name, fn: Value, overwrite: Value) returns (error: Option<Value>)
      modifies this
      ensures var u := Registration(old(Dictionary(kind)), name, fn, overwrite);
        Dictionary(kind) == u.table && error == RegistrationError(kind, u)
      ensures kind == "result" ==> handlers == old(handlers)
      ensures kind != "result" ==> results == old(results)
    {
      ghost var start := Dictionary(kind);
      var pairs := RegisteredPairs(name, fn);
      var ow := OverwriteFlag(name, fn, overwrite);
      var i := 0;
      while i < |pairs|
        invariant i <= |pairs|
        invariant Insert(start, pairs[..i], ow) == Insertion(Dictionary(kind), i, None)
        invariant kind == "result" ==> handlers == old(handlers)
        invariant kind != "result" ==> results == old(results)
      {
        var (k, v) := pairs[i];
        InsertStep(start, pairs, ow, i, Dictionary(kind));
        if Occupied(Dictionary(kind), k) && !ow {
          error := Some(OverwriteError(kind, k));
          return;
        }
        Store(kind, k, v);
        i := i + 1;
      }
      assert pairs[..i] == pairs;
      error := None;
    }

    /** `dictionary[name] = fn` on the table `kind` chooses. */
    method Store(kind: string, k: string, v: Value)
      modifies this
      ensures Dictionary(kind) == old(Dictionary(kind))[k := v]
      ensures kind == "result" ==> handlers == old(handlers)
      ensures kind != "result" ==> results == old(results)
    {
      if kind == "result" {
        results := results[k := v];
      } else {
        handlers := handlers[k := v];
      }
    }

    /** `handleResult(req, res, result)`: calls the handler the result names, once. */
    function HandleResult(result: Value): (d: Dispatch)
      reads this
      // no result, or one without a truthy type, goes to the `undefined` handler: 404 and end
      ensures (!Truthy(result) || !Truthy(Prop(result, "type"))) && Lookup(handlers, "undefined") == Fun(OnUndefined)
        ==> d == Dispatch([StatusSet(404), Ended], None)
      // an application handler registered under the type is called exactly once, with the result itself
      ensures var t := Prop(result, "type");
        t.Str? && t.s != "" && Lookup(handlers, t.s).Fun? && Lookup(handlers, t.s).fn.User?
        ==> d == Dispatch([Called(Lookup(handlers, t.s).fn.id, result)], None)
      // a truthy type with no function registered under it throws, and nothing reaches the response
      ensures var t := Prop(result, "type");
        t.Str? && t.s != "" && !Lookup(handlers, t.s).Fun? ==> d == Dispatch([], Some(TypeError))
    {
      Invoke(Lookup(handlers, HandlerName(result)), result)
    }

    /** `handleException(req, res, exception)`: always the `exception` handler. */
    function HandleException(exception: Value): (d: Dispatch)
      reads this
      ensures Lookup(handlers, "exception") == Fun(OnException) ==> d == Dispatch([StatusSet(500), Ended], None)
      ensures Lookup(handlers, "exception").Fun? && Lookup(handlers, "exception").fn.User?
        ==> d == Dispatch([Called(Lookup(handlers, "exception").fn.id, exception)], None)
    {
      Invoke(Lookup(handlers, "exception"), exception)
    }

    /** `buildContext(req)`: the user of the request, then every result constructor registered now. */
    function BuildContext(req: Request): (context: Table)
      reads this
      ensures context.Keys == {"user"} + results.Keys
      ensures forall k :: k in results ==> context[k] == results[k]
      ensures "user" !in results ==> context["user"] == req.user
    {
      map["user" := req.user] + results
    }
  }

  // A result built by a built-in constructor is handled by the built-in handler of its kind.

  lemma ViewRoundTrip(registry: Registry, view: Value, data: Value)
    requires Lookup(registry.handlers, "view") == Fun(OnView)
    ensures registry.HandleResult(View(view, data)) == Dispatch([Rendered(view, if Truthy(data) then data else EmptyObject)], None)
  {
    assert HandlerName(View(view, data)) == "view";
  }

  lemma RedirectRoundTrip(registry: Registry, url: Value)
    requires Lookup(registry.handlers, "redirect") == Fun(OnRedirect)
    ensures registry.HandleResult(Redirect(url)) == Dispatch([Redirected(url)], None)
  {
    assert HandlerName(Redirect(url)) == "redirect";
  }

  lemma JsonRoundTrip(registry: Registry, pojo: Value)
    requires Lookup(registry.handlers, "json") == Fun(OnJson)
    ensures registry.HandleResult(Json(pojo)) == Dispatch([SentJson(pojo)], None)
  {
    assert HandlerName(Json(pojo)) == "json";
  }

  lemma EmptyRoundTrip(registry: Registry)
    requires Lookup(registry.handlers, "empty") == Fun(OnEmpty)
    ensures registry.HandleResult(Empty()) == Dispatch([StatusSet(200), Ended], None)
  {
    assert HandlerName(Empty()) == "empty";
  }

  lemma StreamRoundTrip(registry: Registry, stream: Value, contentType: Value, contentDisposition: Value)
    requires Lookup(registry.handlers, "stream") == Fun(OnStream)
    ensures registry.HandleResult(Stream(stream, contentType, contentDisposition))
      == StreamOut(Stream(stream, contentType, contentDisposition))
  {
    assert HandlerName(Stream(stream, contentType, contentDisposition)) == "stream";
  }

  /** The built-in handler table holds each built-in handler under its kind. */
  lemma BuiltinHandlerEntries()
    ensures Lookup(BuiltinHandlers, "view") == Fun(OnView) && Lookup(BuiltinHandlers, "redirect") == Fun(OnRedirect)
    ensures Lookup(BuiltinHandlers, "json") == Fun(OnJson) && Lookup(BuiltinHandlers, "empty") == Fun(OnEmpty)
    ensures Lookup(BuiltinHandlers, "stream") == Fun(OnStream) && Lookup(BuiltinHandlers, "exception") == Fun(OnException)
    ensures Lookup(BuiltinHandlers, "undefined") == Fun(OnUndefined)
  {
  }

  /** The stream handler sets the headers given, in order, then pipes a stream; anything else makes it throw. */
  lemma StreamHandling(stream: Value, contentType: Value, contentDisposition: Value)
    ensures var d := StreamOut(Stream(stream, contentType, contentDisposition));
      && (HeaderSet("Content-Type", contentType) in d.events <==> Truthy(contentType))
      && (HeaderSet("Content-Disposition", contentDisposition) in d.events <==> Truthy(contentDisposition))
      && (d.thrown.None? <==> stream.Host?)
      && (stream.Host? ==> d.events[|d.events| - 1] == Piped(stream))
      // `Content-Type` is set first, then `Content-Disposition`
      && (Truthy(contentType) ==> d.events[0] == HeaderSet("Content-Type", contentType))
      && (Truthy(contentType) && Truthy(contentDisposition) ==> d.events[1] == HeaderSet("Content-Disposition", contentDisposition))
      && (!Truthy(contentType) && Truthy(contentDisposition) ==> d.events[0] == HeaderSet("Content-Disposition", contentDisposition))
  {
  }

  /** Under the built-in results the context offers the constructors by name, next to the user. */
  lemma ContextConstructors(registry: Registry, req: Request)
    requires registry.results == BuiltinResults
    ensures var context := registry.BuildContext(req);
      && context.Keys == {"user", "view", "redirect", "empty", "json", "stream"}
      && context["view"] == Fun(MakeView) && context["redirect"] == Fun(MakeRedirect)
      && context["empty"] == Fun(MakeEmpty) && context["json"] == Fun(MakeJson)
      && context["stream"] == Fun(MakeStream) && context["user"] == req.user
  {
    assert "user"[0] != "view"[0] && "user"[0] != "json"[0];
  }

  /** A constructor called with fewer arguments sees the missing ones as `undefined`. */
  lemma ConstructorArguments(a: Value, b: Value)
    ensures Construct(MakeView, [a, b]) == View(a, b) && Construct(MakeView, [a]) == View(a, Undefined)
    ensures Construct(MakeView, [a]) == View(a, EmptyObject)
    ensures Construct(MakeRedirect, [a]) == Redirect(a) && Construct(MakeJson, []) == Json(Undefined)
    ensures Construct(MakeStream, [a]) == Stream(a, Undefined, Undefined)
  {
  }

  // Registration.

  /**
   * One name is refused exactly when it holds a truthy entry and `overwrite`
   * is falsy; otherwise its entry is set, replacing any earlier one.
   */
  lemma RegisterName(kind: string, t: Table, k: string, fn: Value, overwrite: Value)
    ensures Registration(t, Key(k), fn, overwrite) ==
      if Occupied(t, k) && !Truthy(overwrite) then Insertion(t, 0, Some(k)) else Insertion(t[k := fn], 1, None)
    ensures RegistrationError(kind, Registration(t, Key(k), fn, overwrite)) ==
      if Occupied(t, k) && !Truthy(overwrite) then Some(OverwriteError(kind, k)) else None
  {
    InsertOne(t, k, fn, Truthy(overwrite));
  }

  /** In the map form the third argument is the overwrite flag: a truthy one writes every pair, and the fourth is ignored. */
  lemma RegisterMapOverwriting(t: Table, ps: seq<(string, Value)>, flag: Value, overwrite: Value)
    requires Truthy(flag)
    ensures Registration(t, Pairs(ps), flag, overwrite) == Insertion(Updated(t, ps), |ps|, None)
  {
    OverwriteNeverBlocks(t, ps);
  }

  /** In the map form, pairs under free and distinct names are all written, whatever the flag. */
  lemma RegisterMapFresh(t: Table, ps: seq<(string, Value)>, flag: Value, overwrite: Value, i: nat)
    requires forall j :: 0 <= j < |ps| ==> !Occupied(t, ps[j].0)
    requires forall j, l :: 0 <= j < l < |ps| ==> ps[j].0 != ps[l].0
    requires i < |ps|
    ensures var u := Registration(t, Pairs(ps), flag, overwrite);
      u.blocked == None && ps[i].0 in u.table && u.table[ps[i].0] == ps[i].1
  {
    InsertFresh(t, ps, Truthy(flag), i);
  }

  /**
   * A registration refused partway keeps the pairs before the refused one,
   * and throws `Can not overwrite <kind> "<name>"!` for that name.
   */
  lemma RegisterStopped(kind: string, t: Table, name: Name, fn: Value, overwrite: Value)
    requires Registration(t, name, fn, overwrite).blocked.Some?
    ensures var u := Registration(t, name, fn, overwrite);
      var ps := RegisteredPairs(name, fn);
      && !OverwriteFlag(name, fn, overwrite)
      && u.done < |ps| && u.table == Updated(t, ps[..u.done])
      && Occupied(u.table, ps[u.done].0)
      && RegistrationError(kind, u) == Some(OverwriteError(kind, ps[u.done].0))
  {
    var ps := RegisteredPairs(name, fn);
    InsertPrefix(t, ps, OverwriteFlag(name, fn, overwrite));
    InsertBlocked(t, ps, OverwriteFlag(name, fn, overwrite));
  }

  /** A registration never touches a name it was not given. */
  lemma RegisterFrame(t: Table, name: Name, fn: Value, overwrite: Value, k: string)
    requires forall j :: 0 <= j < |RegisteredPairs(name, fn)| ==> RegisteredPairs(name, fn)[j].0 != k
    ensures k in Registration(t, name, fn, overwrite).table <==> k in t
    ensures k in t ==> Registration(t, name, fn, overwrite).table[k] == t[k]
  {
    var ps := RegisteredPairs(name, fn);
    var u := Registration(t, name, fn, overwrite);
    InsertPrefix(t, ps, OverwriteFlag(name, fn, overwrite));
    UpdatedFrame(t, ps[..u.done], k);
  }
}
