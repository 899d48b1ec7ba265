/**
 * The global namespace the layer installs: `init` puts lodash, Bluebird and a
 * fresh empty `$` object on the global object, refusing if any of those names
 * already holds a truthy value, and `register` adds application values to `$`,
 * never replacing a truthy value (a falsy entry is overwritten).
 */
module Globals {
  import opened Js
  import opened Tables

  /** The names `init` claims on the global object, in the order it checks and writes them. */
  const ReservedKeys: seq<string> := ["_", "Promise", "$"]

  /** The lodash namespace, the Bluebird constructor and the object `init` creates for `$`. */
  const Lodash: Value := Host(0)
  const Bluebird: Value := Host(1)
  const DollarObject: Value := Host(2)

  /** What `init` writes: each reserved name with its value. */
  const ReservedPairs: seq<(string, Value)> := [("_", Lodash), ("Promise", Bluebird), ("$", DollarObject)]

  function CanNotOverwrite(key: string): Value {
    ErrorObject("Error", "Can not overwrite \"" + key + "\"!")
  }

  function AlreadyRegistered(key: string): Value {
    ErrorObject("Error", "\"" + key + "\" already registered!")
  }

  /** The outcome of `init` on a global object: the object afterwards and the error thrown, if any. */
  datatype Initialization = Initialization(globalObj: Table, error: Option<Value>)

  /** `init()`: the first reserved name already holding a truthy value stops it before any write. */
  function Initialized(g: Table): Initialization {
    match FirstOccupied(g, ReservedKeys)
    case Some(i) => Initialization(g, Some(CanNotOverwrite(ReservedKeys[i])))
    case None => Initialization(Updated(g, ReservedPairs), None)
  }

  /**
   * The pairs `register(name, value)` writes into `$`: an object given without
   * a value is registered entry by entry; otherwise `_.zipObject([name], [value])`
   * makes the single pair, an object name turning into the key `[object Object]`.
   */
  function Subject(name: Name, value: Value): seq<(string, Value)> {
    match name
    case Key(k) => [(k, value)]
    case Pairs(ps) => if value == Undefined then ps else [("[object Object]", value)]
  }

  /** The outcome of `register(name, value)` on the contents of `$`. */
  function Registered(dollar: Table, name: Name, value: Value): Insertion {
    Insert(dollar, Subject(name, value), false)
  }

  /** The error a registration ends with. */
  function RegisterError(u: Insertion): Option<Value> {
    if u.blocked.Some? then Some(AlreadyRegistered(u.blocked.value)) else None
  }

  /**
   * The state `globals.js` works on, for the module built over the real global
   * object: that object, and the contents of the global `$` registrations
   * write into, which is the `$` property `init` installs on it.
   */
  class GlobalScope {
    var globalObj: Table
    var dollar: Table

    constructor (globalObj: Table)
      ensures this.globalObj == globalObj && dollar == map[]
    {
      this.globalObj := globalObj;
      dollar := map[];
    }

    /**
     * `init()`: checks every reserved name first and throws on the first one
     * already holding a truthy value; only then writes all three, `$` becoming a
     * fresh empty object.
     */
    method Init() returns (error: Option<Value>)
      modifies this
      ensures globalObj == Initialized(old(globalObj)).globalObj
      ensures error == Initialized(old(globalObj)).error
      ensures dollar == if error.None? then map[] else old(dollar)
    {
      var i := 0;
      while i < |ReservedKeys|
        invariant i <= |ReservedKeys|
        invariant forall j :: 0 <= j < i ==> !Occupied(globalObj, ReservedKeys[j])
        invariant globalObj == old(globalObj) && dollar == old(dollar)
      {
        var key := ReservedKeys[i];
        if Occupied(globalObj, key) {
          error := Some(CanNotOverwrite(key));
          return;
        }
        i := i + 1;
      }
      var values := [Lodash, Bluebird, DollarObject];
      i := 0;
      while i < |ReservedKeys|
        invariant i <= |ReservedKeys|
        invariant globalObj == Updated(old(globalObj), ReservedPairs[..i])
      {
        assert ReservedPairs[..i + 1][..i] == ReservedPairs[..i];
        globalObj := globalObj[ReservedKeys[i] := values[i]];
        i := i + 1;
      }
      assert ReservedPairs[..i] == ReservedPairs;
      dollar := map[];
      error := None;
    }

    /**
     * `register(name, value)`: writes the subject's pairs into `$` one by one
     * and throws at the first name already holding a truthy value, keeping the
     * pairs written before it.
     */
    method Register(name: Name, value: Value) returns (error: Option<Value>)
      modifies this
      ensures dollar == Registered(old(dollar), name, value).table
      ensures error == RegisterError(Registered(old(dollar), name, value))
      ensures globalObj == old(globalObj)
    {
      var subject := Subject(name, value);
      var i := 0;
      while i < |subject|
        invariant i <= |subject|
        invariant Insert(old(dollar), subject[..i], false) == Insertion(dollar, i, None)
        invariant globalObj == old(globalObj)
      {
        var (k, v) := subject[i];
        InsertStep(old(dollar), subject, false, i, dollar);
        if Occupied(dollar, k) {
          error := Some(AlreadyRegistered(k));
          return;
        }
        dollar := dollar[k := v];
        i := i + 1;
      }
      assert subject[..i] == subject;
      error := None;
    }
  }

  /** `init` fails exactly when one of the reserved names is already truthy. */
  lemma InitFailsIff(g: Table)
    ensures Initialized(g).error.Some? <==> exists i :: 0 <= i < |ReservedKeys| && Occupied(g, ReservedKeys[i])
  {
  }

  /** A failing `init` names the first reserved name holding a truthy value and writes nothing. */
  lemma InitFailure(g: Table, i: nat)
    requires i < |ReservedKeys| && Occupied(g, ReservedKeys[i])
    requires forall j :: 0 <= j < i ==> !Occupied(g, ReservedKeys[j])
    ensures Initialized(g) == Initialization(g, Some(CanNotOverwrite(ReservedKeys[i])))
  {
    var r := FirstOccupied(g, ReservedKeys);
    assert r.Some? && r.value == i;
  }

  /** A successful `init` sets the three names and leaves every other name as it was. */
  lemma InitSuccess(g: Table)
    requires forall i :: 0 <= i < |ReservedKeys| ==> !Occupied(g, ReservedKeys[i])
    ensures Initialized(g) == Initialization(g["_" := Lodash]["Promise" := Bluebird]["$" := DollarObject], None)
  {
    var ps := ReservedPairs;
    assert ps[..1][..0] == [] && ps[..2][..1] == ps[..1] && ps[..3][..2] == ps[..2] && ps[..3] == ps;
    assert Updated(g, ps[..1]) == g["_" := Lodash];
    assert Updated(g, ps[..2]) == g["_" := Lodash]["Promise" := Bluebird];
  }

  /** A second `init` always fails, on `_`. */
  lemma InitTwice(g: Table)
    requires Initialized(g).error.None?
    ensures Initialized(Initialized(g).globalObj).error == Some(CanNotOverwrite("_"))
  {
    InitFailsIff(g);
    InitSuccess(g);
    var h := Initialized(g).globalObj;
    assert Occupied(h, ReservedKeys[0]);
    InitFailure(h, 0);
  }

  /** One key fails exactly when it is already truthy in `$`; otherwise it is set. */
  lemma RegisterKey(dollar: Table, k: string, value: Value)
    ensures Registered(dollar, Key(k), value) ==
      if Occupied(dollar, k) then Insertion(dollar, 0, Some(k)) else Insertion(dollar[k := value], 1, None)
    ensures RegisterError(Registered(dollar, Key(k), value)).Some? <==> Occupied(dollar, k)
  {
    InsertOne(dollar, k, value, false);
  }

  /** An object given together with a value is registered under the single key `[object Object]`. */
  lemma RegisterObjectWithValue(dollar: Table, ps: seq<(string, Value)>, value: Value)
    requires value != Undefined
    ensures Registered(dollar, Pairs(ps), value) == Registered(dollar, Key("[object Object]"), value)
  {
  }

  /**
   * An object given alone is registered entry by entry: with no entry's name
   * holding a truthy value (nor repeated), every entry ends up in `$`.
   */
  lemma RegisterObject(dollar: Table, ps: seq<(string, Value)>, i: nat)
    requires forall j :: 0 <= j < |ps| ==> !Occupied(dollar, ps[j].0)
    requires forall j, l :: 0 <= j < l < |ps| ==> ps[j].0 != ps[l].0
    requires i < |ps|
    ensures RegisterError(Registered(dollar, Pairs(ps), Undefined)) == None
    ensures ps[i].0 in Registered(dollar, Pairs(ps), Undefined).table
    ensures Registered(dollar, Pairs(ps), Undefined).table[ps[i].0] == ps[i].1
  {
    InsertFresh(dollar, ps, false, i);
  }

  /**
   * A registration stopped by a name holding a truthy value keeps the pairs before it,
   * leaves that name as it was, and throws `"name" already registered!`.
   */
  lemma RegisterStopped(dollar: Table, name: Name, value: Value)
    requires Registered(dollar, name, value).blocked.Some?
    ensures var u := Registered(dollar, name, value);
      var s := Subject(name, value);
      && u.done < |s|
      && u.table == Updated(dollar, s[..u.done])
      && Occupied(u.table, s[u.done].0)
      && RegisterError(u) == Some(AlreadyRegistered(s[u.done].0))
  {
    var s := Subject(name, value);
    InsertPrefix(dollar, s, false);
    InsertBlocked(dollar, s, false);
  }

  /** A registration, whether it completes or not, never touches a name outside its subject. */
  lemma RegisterFrame(dollar: Table, name: Name, value: Value, k: string)
    requires forall j :: 0 <= j < |Subject(name, value)| ==> Subject(name, value)[j].0 != k
    ensures k in Registered(dollar, name, value).table <==> k in dollar
    ensures k in dollar ==> Registered(dollar, name, value).table[k] == dollar[k]
  {
    var s := Subject(name, value);
    var u := Insert(dollar, s, false);
    InsertPrefix(dollar, s, false);
    UpdatedFrame(dollar, s[..u.done], k);
  }

  /** Registering a name twice fails the second time and keeps the first value. */
  lemma RegisterTwice(dollar: Table, k: string, first: Value, second: Value)
    requires !Occupied(dollar, k) && Truthy(first)
    ensures var d := Registered(dollar, Key(k), first).table;
      && d == dollar[k := first]
      && Registered(d, Key(k), second) == Insertion(d, 0, Some(k))
      && RegisterError(Registered(d, Key(k), second)) == Some(AlreadyRegistered(k))
  {
    RegisterKey(dollar, k, first);
    RegisterKey(dollar[k := first], k, second);
  }
}
