# bex convention layer, modelled in Dafny

bex is a thin convention layer over Express. This project models its three
core modules:

- **Routing** (`routing.js`). A controller name and an action's route key give
  an HTTP verb and a path. The keys `create`, `update`, `list`, `view` and
  `remove` stand for CRUD templates, and any other key is its own template.
  `&` stands for the kebab-case controller name. `createRouter` binds every
  action of every controller onto a router. `createHandler` wraps an action:
  the action is called with the request context and the merged parameters,
  what it returns goes to `handleResult`, and what it throws goes to
  `handleException`.
- **Handling** (`handling.js`). The result registry has two tables:
  - `results`: result constructors, offered to actions through the request
    context;
  - `handlers`: functions that turn a result descriptor into calls on the
    response.

  The module also covers registration into those tables (a name already
  holding a truthy value is refused unless overwriting is asked; a falsy entry
  is replaced) and dispatch of results and exceptions.
- **Globals** (`globals.js`). `init` installs lodash, Bluebird and a fresh `$`
  object on the global object, and refuses if any of those names already
  holds a truthy value. `register` adds values to `$` and never replaces a
  truthy value; a falsy entry is overwritten. The global object is a
  parameter of the model. On a runtime whose global object already carries a
  native `Promise`, `init` over the real global throws
  `Can not overwrite "Promise"!` (`Globals.InitFailsIff`).

The files:

| file | module | what it holds |
|---|---|---|
| `js.dfy` | `Js` | JavaScript values (`Value`), truthiness, property reads, property-key conversion, and error objects. |
| `text.dfy` | `Text` | `toLowerCase` on ASCII, `replace` with a one-character pattern, and `split`/`join` on one character, with their laws. |
| `kebab.dfy` | `Kebab` | `_.kebabCase` on ASCII names: word splitting, lower-casing and joining with `-`. |
| `tables.dfy` | `Tables` | The no-overwrite insertion loop both registries share (`Insert`), and the search `init` performs (`FirstOccupied`). |
| `handling.dfy` | `Handling` | The result constructors and built-in handlers, and the class `Registry`, whose methods update `results` and `handlers` in place. |
| `routing.dfy` | `Routing` | `parseRoute` and `parseExplicitRoute`; the class `Router` with the `createRouter` binding loop; `createHandler`'s parameter merge and dispatch (`Serve`). |
| `globals.dfy` | `Globals` | The class `GlobalScope`, with the global object and the contents of `$` as fields, and its `Init` and `Register` methods. |

How the model represents the system:

- **Tables.** JavaScript objects used as dictionaries are
  `map<string, Value>`. A name counts as taken in the source's sense
  (`if (dictionary[name])`) when it is present with a truthy value
  (`Tables.Occupied`).
- **The response** is observed as the log of calls made on it (`Handling.Event`).
  A handler's effect is a `Dispatch`: the calls it made, and what it threw.
- **Registration methods** (`Registry.Register`, `GlobalScope.Register`).
  Each is a `while` loop that writes one pair at a time into the field it
  updates. It returns at the first refused name, with the pairs before that
  name already written. Each method is proved against the pure fold
  `Tables.Insert`, which is defined by its last pair. The lemmas about
  `Insert` state what the source promises.
- **The binding loop** of `createRouter` is the nested loop
  `Routing.BindControllers`. It appends to `Router.routes` through
  `Router.Add`. It is proved against the pure function `Routing.Bind`, and
  `BindSpec` characterizes that function pointwise.
  - `BindControllers` takes the route parser as a parameter.
  - `CreateRouter` is `BindControllers` applied to `ParseRoute`.
- **Callables.** The layer's own functions are named values (`Js.Fn`). An
  application's function is `User(id)`. A controller action is an abstract
  handler `H`, whose behaviour on a request is the parameter `invoke` of
  `Serve`.

Where the repository's tests and its code disagree, the model follows the code:

- **Leading slash.** The CRUD templates in `routing.js:7-11` start with `/`,
  so `create` on `my-controller` is `post /my-controller`. The route tests
  (`tests/routing.js:8-35`, `tests/routing.js:73-101`) expect paths without
  the slash. `Routing.CrudRoutes` and `Routing.TestedRouter` state the paths
  the code produces.

Where the code differs from the fallback its handler table suggests:

- **Unregistered result type.** The `undefined` handler (`handling.js:48-50`)
  answers 404, and it reads like the fallback for any result without a
  handler. The code uses it only for a missing result or a falsy `type`
  (`handling.js:73`). A result whose truthy type has no entry does not reach
  it: `handlers[type]` is `undefined`, so calling it throws a `TypeError`
  (`handling.js:73-74`). The `.catch` at `routing.js:59` hands that error to
  the exception handler, so the response is a 500
  (`Routing.ServeUnregisteredType`). No test of the repository covers this case.
- **A handler that throws after writing.** `handleResult` and
  `handleException` both act on the same response. A result handler that
  throws after writing keeps what it wrote, and then the exception handler's
  500 is also sent. For example, a stream result with a content type but no
  pipeable stream sets the `Content-Type` header before the 500
  (`Routing.ServeHandlerThrows`, `Routing.ServeBrokenStream`).

## Model

| member | source | states |
|---|---|---|
| Text.ToLower | routing.js:30 | The verb is lower-cased character by character: same length, each upper-case ASCII letter mapped to its lower-case letter, every other character unchanged. |
| Text.ReplaceFirst | routing.js:20 | `route.replace('&', name)` with a one-character pattern: only the first `&` is replaced. Its laws are `Text.ReplaceFirstAbsent` (no `&`, no change), `Text.ReplaceFirstAt` (the first `&` only) and `Text.ReplaceFirstCount` (spaces are preserved). |
| Text.ReplaceFirstAbsent | routing.js:20 | `replace` leaves a string without `&` unchanged. |
| Text.ReplaceFirstAt | routing.js:20 | `replace` substitutes only the first `&`: the text before it and everything after it, including later `&`s, is kept verbatim. |
| Text.ReplaceFirstCount | routing.js:20-21 | Substituting a name without spaces leaves the number of spaces, and so the number of `split` pieces, unchanged. |
| Text.Split | routing.js:21 | `split(' ')` yields one piece more than the string has spaces, and no piece contains a space. |
| Text.SplitJoin | routing.js:21 | Splitting the join of space-free pieces gives the pieces back. |
| Text.JoinSplit | routing.js:21 | Joining the pieces of a split with the separator gives the original string back. |
| Text.SplitNone | routing.js:21-27 | A string without a space splits into itself alone. |
| Text.SplitOne | routing.js:21-32 | A string with exactly one space splits into the text before it and the text after it. |
| Kebab.KebabCase | routing.js:20 | `_.kebabCase(controllerName)`: the name's words, lower-cased and joined with `-`. Its laws are `Kebab.KebabCaseChars` (only lower-case letters, digits and `-`), `Kebab.KebabCaseIdempotent` and the test instances `Kebab.KebabOfCamelDigit` and `Kebab.KebabOfKebab`. |
| Kebab.Words | routing.js:20 | Every word `_.kebabCase` cuts a name into is non-empty and is all letters or all digits. |
| Kebab.KebabCaseChars | routing.js:20 | A kebab-case name holds only lower-case letters, digits and `-`, so substituting it adds no space, `&` or `$` to a route. |
| Kebab.WordsOfJoin | routing.js:20 | Lower-case segments joined with `-` are cut back into the same segments. |
| Kebab.WordsCoverName | routing.js:20 | The words, run together, are exactly the name's letters and digits in order; the splitter drops only separators. |
| Kebab.KebabCaseKeepsLetters | routing.js:20 | With its hyphens removed, the kebab-case name is the original name's letters and digits, lower-cased, in order. |
| Kebab.KebabCaseIdempotent | routing.js:20 | Converting a name to kebab case twice gives the same result as converting it once. |
| Kebab.KebabOfAcronym | routing.js:20 | `XMLHttp` becomes `xml-http`: a block of capitals ends before the capital that starts a lower-case word. |
| Kebab.KebabOfCamelDigit | tests/routing.js:55-60 | For every digit `d`, `myController<d>` becomes `my-controller-<d>`: three words cut at the capital and before the digit. |
| Kebab.KebabOfKebab | tests/routing.js:43-48 | For every digit `d`, `my-controller-<d>` is already in kebab case. |
| Kebab.KebabOfCamel | tests/routing.js:55-72 | `myController2` becomes `my-controller-2` and `myController1` becomes `my-controller-1`, the names the route and router tests use. |
| Tables.Insert | handling.js:64-69 | `_.each(pairs, …)` with the truthy-entry guard: pairs are written in order until one names an entry holding a truthy value while overwriting is off. Its laws are `Tables.InsertPrefix`, `Tables.InsertStep`, `Tables.InsertBlocked`, `Tables.InsertWritesFreeNames`, `Tables.InsertStaysBlocked`, `Tables.OverwriteNeverBlocks`, `Tables.InsertOne` and `Tables.InsertFresh`. |
| Tables.Updated | handling.js:68 | Plain assignment of pairs one after another, the write both registration loops perform. Its laws are `Tables.UpdatedFrame` (names not written keep their values), `Tables.UpdatedLastWins` and `Tables.UpdatedKeys`. |
| Tables.FirstOccupied | globals.js:7-11 | It finds the first of the given names holding a truthy value. It finds none exactly when no name does, and all names before the one it finds are free. |
| Tables.InsertPrefix | handling.js:64-69 | A registration writes a prefix of its pairs, in order, and writes all of them exactly when nothing stopped it. |
| Tables.InsertStep | handling.js:64-69 | One pass of the loop: after a clean prefix, the next pair is either refused, ending the registration, or written. |
| Tables.InsertBlocked | handling.js:65-67 | A registration is stopped only when overwriting is off. The name that stops it is the next pair's, and that name is taken. |
| Tables.InsertWritesFreeNames | handling.js:65-68 | Every pair that was written found its name free, unless overwriting was on. |
| Tables.InsertStaysBlocked | handling.js:64-69 | Once a registration is stopped, the pairs after the blocking one change nothing. |
| Tables.OverwriteNeverBlocks | handling.js:65-68 | With overwriting on, every pair is written in order. |
| Tables.InsertOne | handling.js:61-68 | A single pair is refused exactly when its name holds a truthy value and overwriting is off; otherwise it is set. |
| Tables.InsertFresh | handling.js:64-69 | When all names are distinct and free, every pair is written and each name holds its own value. |
| Tables.UpdatedFrame | handling.js:68 | Writing pairs leaves every name none of them carries as it was, present or absent. |
| Tables.UpdatedLastWins | handling.js:68 | After writing pairs, each name holds the value of the last pair carrying it. |
| Tables.UpdatedKeys | handling.js:68 | Writing pairs adds exactly their names to the table's keys. |
| Handling.View | handling.js:6-8 | `view(name, data)` is `{type:'view', name, data}`, and falsy data becomes `{}`. |
| Handling.Redirect | handling.js:9-11 | `redirect(url)` is `{type:'redirect', url}`. |
| Handling.Empty | handling.js:12-14 | `empty()` is `{type:'empty'}`. |
| Handling.Json | handling.js:15-17 | `json(pojo)` is `{type:'json', pojo}`. |
| Handling.Stream | handling.js:18-20 | `stream(stream, contentType, contentDisposition)` carries all three under their names. |
| Handling.Construct | handling.js:6-20 | A built-in result constructor called with positional arguments, a missing one reading as `undefined`. Its law is `Handling.ConstructorArguments`. |
| Handling.StreamOut | handling.js:39-47 | The stream handler: `Content-Type` and `Content-Disposition` are set when truthy, in that order, then the stream is piped. Its law is `Handling.StreamHandling`: each header is set exactly when truthy, in that order, and the handler throws exactly when the stream is not a host value. |
| Handling.Call | handling.js:23-51 | What each built-in handler does on the response: render, redirect, JSON, status 500 or 200 or 404 then end, or the stream handler. Its laws are `Handling.BuiltinHandlerEntries` and the round-trip lemmas `Handling.ViewRoundTrip` … `Handling.StreamRoundTrip`. |
| Handling.Invoke | handling.js:73-74 | `handler(req, res, result)`: a table entry that is not a function throws a `TypeError` before touching the response. Its laws are stated through `Handling.Registry.HandleResult` and `Routing.ServeUnregisteredType`. |
| Handling.HandlerName | handling.js:73 | A missing result, or one with a falsy `type`, is handled under `undefined`. A non-empty string `type` is handled under its own name. |
| Handling.RegisteredPairs | handling.js:56-62 | The pairs a registration writes: the object itself, or `_.zipObject([name], [fn])` for a single name. Its laws are `Handling.RegisterName` and `Handling.RegisterMapFresh`. |
| Handling.OverwriteFlag | handling.js:57-59 | In the object form the third argument is the overwrite flag; otherwise the fourth is. Its law is `Handling.RegisterMapOverwriting`. |
| Handling.Registration | handling.js:53-70 | `register(kind, name, fn, overwrite)` on a table: `Tables.Insert` of the registered pairs under the overwrite flag. Its laws are `Handling.RegisterName`, `Handling.RegisterMapOverwriting`, `Handling.RegisterMapFresh`, `Handling.RegisterStopped` and `Handling.RegisterFrame`, and `Handling.Registry.Register` is proved against it. |
| Handling.Registry.constructor | handling.js:5-51 | The registry starts with the five built-in result constructors and the seven built-in handlers. |
| Handling.Registry.Register | handling.js:53-70 | The chosen table becomes the pair-by-pair registration of its old contents. The error is `Can not overwrite <kind> "<name>"!` for the name that stopped it. The other table is unchanged. |
| Handling.Registry.Dictionary | handling.js:54 | `kind == 'result' ? results : handlers`: the table a registration works on. Its laws are stated through `Handling.Registry.Store` and `Handling.Registry.Register`, whose ensures keep the other table unchanged. |
| Handling.Registry.Store | handling.js:54-68 | `dictionary[name] = fn` writes into `results` when the kind is `result`, and into `handlers` for any other kind. The other table is unchanged. |
| Handling.Registry.HandleResult | handling.js:72-75 | A missing result or falsy type gives the `undefined` handler's 404 and end. An application handler registered under the type is called exactly once, with the result. A string type with no function registered throws before touching the response. |
| Handling.Registry.HandleException | handling.js:77-79 | The built-in exception handler gives status 500 then end. An application exception handler is called once, with the exception. |
| Handling.Registry.BuildContext | handling.js:81-83 | The context has exactly `user` plus the registered result names. Every registered result is copied, so one named `user` wins, and otherwise `user` is the request's user. |
| Handling.BuiltinHandlerEntries | handling.js:23-51 | The built-in handler table holds each built-in handler under its kind. |
| Handling.ViewRoundTrip | handling.js:24-26 | Handling `view(name, data)` under the built-in handler renders `name` with the defaulted data, once, and nothing else. |
| Handling.RedirectRoundTrip | handling.js:27-29 | Handling `redirect(url)` redirects to `url`, once. |
| Handling.JsonRoundTrip | handling.js:30-32 | Handling `json(v)` sends `v` as JSON, once. |
| Handling.EmptyRoundTrip | handling.js:36-38 | Handling `empty()` sets status 200, then ends. |
| Handling.StreamRoundTrip | handling.js:39-47 | A `stream(...)` descriptor reaches the stream handler. |
| Handling.StreamHandling | handling.js:39-47 | Each header is set exactly when its value is truthy, `Content-Type` before `Content-Disposition`. A host stream is piped last. Anything else makes the handler throw. |
| Handling.ContextConstructors | handling.js:81-83 | Under the built-in results, the context offers exactly `user`, `view`, `redirect`, `empty`, `json` and `stream`, with the request's user. |
| Handling.ConstructorArguments | handling.js:6-20 | A constructor called with fewer arguments sees the missing ones as `undefined`, so `view(name)` has data `{}`. |
| Handling.RegisterName | handling.js:60-68 | One name is refused, with the table unchanged and the overwrite error, exactly when it holds a truthy entry and `overwrite` is falsy. Otherwise it is set, replacing any earlier entry. |
| Handling.RegisterMapOverwriting | handling.js:57-59 | In the map form the third argument is the overwrite flag. A truthy one writes every pair, and the fourth argument is ignored. |
| Handling.RegisterMapFresh | handling.js:57-69 | In the map form, pairs under distinct, free names are all written, whatever the flag. |
| Handling.RegisterStopped | handling.js:64-69 | A refused registration had overwriting off. It keeps exactly the pairs before the refused one and throws for that name. |
| Handling.RegisterFrame | handling.js:64-69 | A registration never touches a name it was not given. |
| Routing.ParseRoute | routing.js:14-17 | `parseRoute`: a CRUD key is parsed through its template and any other key as written. Its laws are `Routing.CrudRoutes`, `Routing.ExplicitRoutes`, `Routing.NamedRoute` and `Routing.PlainRoute`. |
| Routing.ParseExplicitRoute | routing.js:19-35 | `parseExplicitRoute`: substitute the name, split on spaces, and read one piece as a `get` path, two as verb and path, more as an error. Its laws are `Routing.ParsesIff`, `Routing.OneToken`, `Routing.TwoTokens`, `Routing.TooManyTokens`, `Routing.VerbAndPath` and `Routing.VerbAndNamedPath`. |
| Routing.Resolved | routing.js:20 | The template with its first `&` replaced by the kebab-case controller name. Its laws are `Routing.ResolvedSpaces` and `Routing.FirstAmpersandOnly`. |
| Routing.Tokens | routing.js:21-35 | The `switch (parts.length)` on the resolved route, with the error message `Can not parse route "<route>"!`. Its laws are `Routing.TokensOne`, `Routing.TokensTwo` and `Routing.TooManyTokens`. |
| Routing.CrudTemplate | routing.js:6-12 | The `crudMethods` table: the five CRUD keys and their templates. Its laws, through `Routing.Template`, are `Routing.CrudRoutes` and the five per-key lemmas `Routing.CreateRoute` … `Routing.RemoveRoute`. |
| Routing.Template | routing.js:6-15 | The five CRUD keys stand for their templates, and every other key is its own template. |
| Routing.ResolvedSpaces | routing.js:20 | Substituting the controller name leaves the template's space count unchanged. A template without `&` is left as written. |
| Routing.FirstAmpersandOnly | routing.js:20 | The first `&` becomes the kebab-case controller name, and later `&`s stay. |
| Routing.TokensOne | routing.js:21-32 | A route with one space is the lower-cased text before it as the verb, and the text after it as the path. |
| Routing.OneToken | routing.js:22-27 | A template without spaces is a `get` route whose path is the resolved template. |
| Routing.TokensTwo | routing.js:28-32 | A route with one space is its two pieces around that space, parsed as lower-cased verb and path. |
| Routing.TwoTokens | routing.js:28-32 | A template with one space parses to the lower-cased first word as the verb and the second word, verbatim, as the path. |
| Routing.TooManyTokens | routing.js:33-34 | Two or more spaces, whether three words or a doubled space, throw `Can not parse route "<route>"!` with the resolved route. |
| Routing.ParsesIff | routing.js:19-35 | A route parses exactly when its template has at most one space. |
| Routing.VerbAndPath | routing.js:19-32 | A two-word template without `&` parses to its lower-cased verb and its path, as written. |
| Routing.VerbAndNamedPath | routing.js:19-32 | A two-word template with `&` in its path has the kebab-case controller name in place of the first `&`. |
| Routing.NamedRoute | routing.js:14-17 | A key whose template has `&` in its path parses to the lower-cased verb and the path with the name in place of the `&`. |
| Routing.PlainRoute | routing.js:14-17 | A key whose template is a verb and an `&`-free path parses to the lower-cased verb and that path. |
| Routing.CreateRoute | routing.js:7 | `create` is `post /<name>`. |
| Routing.UpdateRoute | routing.js:8 | `update` is `put /<name>/:id`. |
| Routing.ListRoute | routing.js:9 | `list` is `get /<name>`. |
| Routing.ViewRoute | routing.js:10 | `view` is `get /<name>/:id`. |
| Routing.RemoveRoute | routing.js:11 | `remove` is `delete /<name>/:id`. |
| Routing.CrudRoutes | routing.js:6-16 | The five CRUD keys of any controller, with the leading slash their templates carry. |
| Routing.ExplicitRoutes | routing.js:15 | A non-CRUD key is parsed as an explicit route. |
| Routing.TestedPatchRoute | tests/routing.js:37-42 | `patch /my-entity/:id` is parsed as written, whatever the controller. |
| Routing.TestedHeadRoute | tests/routing.js:43-48 | `head /&/:id` on `my-controller-2` is `head /my-controller-2/:id`. |
| Routing.TestedDeleteRoute | tests/routing.js:49-54 | `DELETE /my-stuff/:id` has its verb lower-cased. |
| Routing.TestedCamelRoute | tests/routing.js:55-60 | `GET &/:id` on `myController2` is `get my-controller-2/:id`, with no leading slash. |
| Routing.Flatten | routing.js:41-42 | The outer and inner `_.each` as one list: every action of every controller, in iteration order. Its laws are `Routing.FlattenPrefix` and `Routing.FlattenAt`. |
| Routing.Bind | routing.js:41-46 | The binding loop as a fold: each action in order is registered at its parsed route, and the first one that does not parse stops it with its error. Its laws are `Routing.BindSpec`, `Routing.BindStaysFailed` and `Routing.BindAllParsed`, and `Routing.BindControllers` is proved against it. |
| Routing.FlattenPrefix | routing.js:41-42 | The actions of the first `n` controllers come first, before those of the later ones. |
| Routing.FlattenAt | routing.js:41-42 | Action `j` of controller `i` comes right after all actions of the controllers before it. |
| Routing.ActionsOf | routing.js:42 | A controller's actions are its key/handler pairs, in order, each tagged with the controller's name. |
| Routing.BindSpec | routing.js:41-46 | Binding registers action k at its parsed route, with its handler, for every k up to the first action that does not parse. It registers all of them exactly when none fails, and otherwise reports the failing action's error. |
| Routing.BindStaysFailed | routing.js:41-46 | Once binding has thrown, later actions add nothing. |
| Routing.Router.constructor | routing.js:40 | A new router has no routes. |
| Routing.Router.Add | routing.js:44 | `router[method](path, handler)` appends exactly one registration. |
| Routing.BindNext | routing.js:43-44 | After a clean prefix, the next action appends its route or stops binding with its parse error. |
| Routing.BindStep | routing.js:43-44 | One pass of the inner loop, stated over the whole action list. |
| Routing.BindControllers | routing.js:41-46 | The nested loop leaves on the fresh router exactly the registrations `Bind` specifies, in iteration order. It returns the parse error that stopped it, with the earlier registrations kept. |
| Routing.CreateRouter | routing.js:38-48 | `createRouter` is the binding loop with `parseRoute`. |
| Routing.BindAllParsed | routing.js:41-46 | When every route parses, every action is registered in order at its route and nothing fails. |
| Routing.StarRoute | tests/routing.js:70 | `PUT &/:id/star` is `put <name>/:id/star`. |
| Routing.TestedRouter | tests/routing.js:62-102 | For any controller with the actions of the router test, the six routes are bound in order, at the paths and with the handlers given. It holds for every controller name; that the test's `myController1` has the name `my-controller-1` is `Kebab.KebabOfCamel`. |
| Routing.MergeParams | routing.js:55 | The parameters are the union of files, query, route params and body. On a collision body beats params, params beat query, and query beats files. |
| Routing.Serve | routing.js:50-60 | A throwing action reaches only the exception handler. With the built-in exception handler nothing escapes, and a throwing action yields status 500 then end. |
| Routing.ServeSuccess | routing.js:56-58 | A returned value that handles cleanly is dispatched once, and the exception handler is not run. |
| Routing.ServeHandlerThrows | routing.js:56-59 | A result handler that throws keeps the events it wrote, and the exception handler's events follow them. The outcome is whatever the exception handler throws, if anything. |
| Routing.ServeBrokenStream | routing.js:56-59 | A returned stream result with a content type but no host stream sets `Content-Type`, then gets status 500 and end, with nothing left unhandled. |
| Routing.ServeJson | routing.js:56-58 | An action returning `json(v)` sends `v` as JSON once. |
| Routing.ServeUnregisteredType | routing.js:58-59 | A returned type with no handler throws in `handleResult`, and the `.catch` turns that into a 500. |
| Globals.Initialized | globals.js:5-16 | `init` on a global object: the first reserved name holding a truthy value stops it before any write, and otherwise the three names are assigned. Its laws are `Globals.InitFailsIff`, `Globals.InitFailure`, `Globals.InitSuccess` and `Globals.InitTwice`, and `Globals.GlobalScope.Init` is proved against it. |
| Globals.Subject | globals.js:19-21 | The pairs `register` writes: an object given without a value entry by entry, otherwise `_.zipObject([name], [value])`. Its laws are `Globals.RegisterKey`, `Globals.RegisterObjectWithValue` and `Globals.RegisterObject`. |
| Globals.Registered | globals.js:22-27 | `register` on the contents of `$`: `Tables.Insert` of the subject with overwriting off. Its laws are `Globals.RegisterKey`, `Globals.RegisterObject`, `Globals.RegisterStopped`, `Globals.RegisterFrame` and `Globals.RegisterTwice`, and `Globals.GlobalScope.Register` is proved against it. |
| Globals.GlobalScope.constructor | globals.js:1 | The module is built over a given global object. |
| Globals.GlobalScope.Init | globals.js:5-16 | If a reserved name holds a truthy value, the first one found gives `Can not overwrite "<key>"!` and nothing changes. Otherwise `_`, `Promise` and `$` are written and `$` is a fresh empty object. |
| Globals.GlobalScope.Register | globals.js:18-28 | `$` becomes the pair-by-pair no-overwrite registration of the subject into its old contents, with `"<key>" already registered!` for the name that stopped it. The global object is unchanged. |
| Globals.InitFailsIff | globals.js:6-11 | `init` throws exactly when one of `_`, `Promise` and `$` is already truthy. |
| Globals.InitFailure | globals.js:7-11 | A failing `init` names the first reserved name holding a truthy value and writes nothing. |
| Globals.InitSuccess | globals.js:12-15 | A successful `init` sets the three names and leaves every other name as it was. |
| Globals.InitTwice | globals.js:5-16 | After a successful `init`, a second one throws on `_`. |
| Globals.RegisterKey | globals.js:19-26 | `register(name, value)` with a string name fails exactly when `$[name]` is truthy. Otherwise it sets `$[name] = value`. |
| Globals.RegisterObjectWithValue | globals.js:19-21 | An object given together with a defined value is registered under the single key `[object Object]`. |
| Globals.RegisterObject | globals.js:19-27 | `register(obj)` with distinct, free names puts every entry of `obj` into `$` and does not throw. |
| Globals.RegisterStopped | globals.js:22-27 | A refused registration keeps exactly the pairs before the refused name, and throws `"<key>" already registered!` for it. |
| Globals.RegisterFrame | globals.js:22-27 | A registration, complete or stopped, never touches a name outside its subject. |
| Globals.RegisterTwice | tests/globals.js:43-48 | After registering a truthy value under a name, registering that name again fails and the first value stays. |

## Left out

- `index.js` (`createApp`, `normalizeParams`) is Express application setup and path plumbing over foreign calls, so it is not part of this model.
- Loading controllers from a directory with `requireAll` (routing.js:39) is file-system I/O. `createRouter` is modelled on in-memory controllers only.
- Express's router is an append-only list of (verb, path, handler) registrations. How Express validates a verb or handler is not modelled.
- Bluebird's asynchronous scheduling in `createHandler` is concurrency. The action's outcome is a synchronous returned-or-thrown value (`Routing.Outcome`), and a rejected promise counts as thrown.
- Streams and library namespaces are opaque host objects (`Js.Host`); `pipe` is the `Piped` event.
- Handling.StreamOut: pipes every host value and throws `TypeError` on every other value. The source duck-types `result.stream.pipe`, so a plain object carrying a `pipe` function would be piped, and a host object without `pipe` would throw; neither case is modelled.
- The response object is the log of calls made on it. Chained calls such as `res.status(500).end()` are two events.
- The engine's `TypeError` messages are not modelled; every such error is the single value `Js.TypeError`.
- Property lookups through the prototype chain are not modelled. Tables are own-key maps, so keys such as `constructor` or `toString` are treated as absent. In the source, `crudMethods[key]` and `dictionary[name]` would find inherited members for them.
- Registration names are strings or plain objects. A number or other primitive passed as a name, which `_.zipObject` would turn into a string key, is not modelled.
- Objects enumerate their keys in a fixed order. An object passed to `register` is the sequence of its entries in that order, and a controller map is the sequence of its controllers.
- Numbers are integers; floating point is not modelled.
- What an application's action or handler does on the response is abstract: it is one `Called` event or the outcome returned by `invoke`.
- Handling.Call: an application-registered result handler (`User`) never throws; it is one `Called` event. So the path where such a handler throws inside `handleResult` and `createHandler`'s `.catch` (routing.js:59) passes that error to `handleException` is not modelled. Only a built-in handler throwing (the stream handler on a non-stream) or a missing handler reaches that `.catch` in the model.
- Kebab.KebabCase: models lodash's word splitting for ASCII names only. Unicode letters, apostrophes and lodash's full list of word patterns are not modelled.
- Text.ToLower: lower-cases ASCII letters only; Unicode case mapping is not modelled.
- Globals.GlobalScope.Init: models only the module built over the real global object (globals.js:37). There the free variable `$` that `register` reads and writes (globals.js:23, globals.js:26) is the `$` property `init` installs, so `Init` resetting the `dollar` field to an empty table is exact. For a module built by `__buildModule` over another object (as `index.js` does), `init` installs `$` on that object while `register` keeps writing the ambient global `$`. The model does not capture this split.
- Globals.GlobalScope.Register: writes into the `dollar` field, the contents of the global `$` that `init` installed on the real global object. Calling `register` before any `init` (a `ReferenceError` when no global `$` exists), after the global `$` has been replaced, or on a module built over an object other than the real global, is not modelled.
- Routing.Serve: its own ensures cover only a throwing action and the built-in exception handler. The other cases are stated by separate lemmas: a value that is returned and handled cleanly by `Routing.ServeSuccess`, and a value whose result handler throws by `Routing.ServeHandlerThrows`.
