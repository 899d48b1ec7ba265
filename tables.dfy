/**
 * The no-overwrite insertion both registries use: the names of a
 * registration are written into a string-keyed table one after another, and
 * the first name already holding a truthy value stops the registration
 * (unless overwriting is allowed), leaving the names written before it in place.
 */
module Tables {
  import opened Js

  type Table = map<string, Value>

  /** What a registration is given as its subject: one name, or an object of name/value pairs. */
  datatype Name = Key(key: string) | Pairs(pairs: seq<(string, Value)>)

  /** `t[k]`: a missing name reads as `undefined`. */
  function Lookup(t: Table, k: string): Value {
    if k in t then t[k] else Undefined
  }

  /** `t[k]` is truthy. */
  predicate Occupied(t: Table, k: string) {
    k in t && Truthy(t[k])
  }

  /** The table after assigning the pairs one after another. */
  function Updated(t: Table, ps: seq<(string, Value)>): Table
    decreases |ps|
  {
    if ps == [] then t else Updated(t, ps[..|ps| - 1])[ps[|ps| - 1].0 := ps[|ps| - 1].1]
  }

  /** The outcome of a registration: the table, how many pairs were written, and the name that stopped it. */
  datatype Insertion = Insertion(table: Table, done: nat, blocked: Option<string>)

  /** The registration loop of the source, pair by pair. */
  function Insert(t: Table, ps: seq<(string, Value)>, overwrite: bool): Insertion
    decreases |ps|
  {
    if ps == [] then Insertion(t, 0, None)
    else
      var prev := Insert(t, ps[..|ps| - 1], overwrite);
      var (k, v) := ps[|ps| - 1];
      if prev.blocked.Some? then prev
      else if Occupied(prev.table, k) && !overwrite then Insertion(prev.table, prev.done, Some(k))
      else Insertion(prev.table[k := v], prev.done + 1, None)
  }

  /** A registration writes a prefix of its pairs, and all of them exactly when it is not blocked. */
  lemma {:induction false} InsertPrefix(t: Table, ps: seq<(string, Value)>, overwrite: bool)
    ensures Insert(t, ps, overwrite).done <= |ps|
    ensures Insert(t, ps, overwrite).table == Updated(t, ps[..Insert(t, ps, overwrite).done])
    ensures Insert(t, ps, overwrite).blocked.None? <==> Insert(t, ps, overwrite).done == |ps|
    decreases |ps|
  {
    if ps != [] {
      var n := |ps| - 1;
      var init := ps[..n];
      InsertPrefix(t, init, overwrite);
      var prev := Insert(t, init, overwrite);
      assert ps[..prev.done] == init[..prev.done];
      if prev.blocked.None? {
        assert ps[..n + 1] == ps;
      }
    }
  }

  /** One step of a registration that has written its first `i` pairs: the next pair is refused or written. */
  lemma InsertStep(t: Table, ps: seq<(string, Value)>, overwrite: bool, i: nat, d: Table)
    requires i < |ps| && Insert(t, ps[..i], overwrite) == Insertion(d, i, None)
    ensures Occupied(d, ps[i].0) && !overwrite ==> Insert(t, ps, overwrite) == Insertion(d, i, Some(ps[i].0))
    ensures !(Occupied(d, ps[i].0) && !overwrite) ==> Insert(t, ps[..i + 1], overwrite) == Insertion(d[ps[i].0 := ps[i].1], i + 1, None)
  {
    assert ps[..i + 1][..i] == ps[..i];
    if Occupied(d, ps[i].0) && !overwrite {
      InsertStaysBlocked(t, ps, i + 1, overwrite);
    }
  }

  /** Only a registration without overwrite is blocked, and by an occupied name: the next pair's. */
  lemma {:induction false} InsertBlocked(t: Table, ps: seq<(string, Value)>, overwrite: bool)
    requires Insert(t, ps, overwrite).blocked.Some?
    ensures var u := Insert(t, ps, overwrite);
      && !overwrite && u.done < |ps| && u.blocked.value == ps[u.done].0 && Occupied(u.table, ps[u.done].0)
    decreases |ps|
  {
    InsertPrefix(t, ps, overwrite);
    var n := |ps| - 1;
    var init := ps[..n];
    var prev := Insert(t, init, overwrite);
    if prev.blocked.Some? {
      InsertBlocked(t, init, overwrite);
    } else {
      InsertPrefix(t, init, overwrite);
    }
  }

  /** Every pair a registration wrote found its name free, or overwriting on. */
  lemma {:induction false} InsertWritesFreeNames(t: Table, ps: seq<(string, Value)>, overwrite: bool, i: nat)
    requires i < |ps| && i < Insert(t, ps, overwrite).done
    ensures overwrite || !Occupied(Updated(t, ps[..i]), ps[i].0)
    decreases |ps|
  {
    InsertPrefix(t, ps, overwrite);
    var n := |ps| - 1;
    var init := ps[..n];
    InsertPrefix(t, init, overwrite);
    var prev := Insert(t, init, overwrite);
    assert init[..i] == ps[..i] by { assert i <= n; }
    if i < prev.done {
      InsertWritesFreeNames(t, init, overwrite, i);
    } else {
      assert ps[..n] == init;
    }
  }

  /** Once blocked, a registration ignores the pairs after the blocking one. */
  lemma {:induction false} InsertStaysBlocked(t: Table, ps: seq<(string, Value)>, j: nat, overwrite: bool)
    requires j <= |ps| && Insert(t, ps[..j], overwrite).blocked.Some?
    ensures Insert(t, ps, overwrite) == Insert(t, ps[..j], overwrite)
    decreases |ps|
  {
    if j < |ps| {
      var init := ps[..|ps| - 1];
      assert init[..j] == ps[..j];
      InsertStaysBlocked(t, init, j, overwrite);
    } else {
      assert ps[..j] == ps;
    }
  }

  /** Overwriting registrations are never blocked. */
  lemma OverwriteNeverBlocks(t: Table, ps: seq<(string, Value)>)
    ensures Insert(t, ps, true) == Insertion(Updated(t, ps), |ps|, None)
  {
    InsertPrefix(t, ps, true);
    if Insert(t, ps, true).blocked.Some? {
      InsertBlocked(t, ps, true);
    }
    assert ps[..|ps|] == ps;
  }

  /** A one-pair registration fails exactly when the name is occupied and overwriting is off. */
  lemma InsertOne(t: Table, k: string, v: Value, overwrite: bool)
    ensures Insert(t, [(k, v)], overwrite) ==
      if Occupied(t, k) && !overwrite then Insertion(t, 0, Some(k)) else Insertion(t[k := v], 1, None)
  {
    assert [(k, v)][..0] == [];
  }

  /** Assigning pairs leaves every name none of them carries as it was. */
  lemma {:induction false} UpdatedFrame(t: Table, ps: seq<(string, Value)>, k: string)
    requires forall i :: 0 <= i < |ps| ==> ps[i].0 != k
    ensures k in Updated(t, ps) <==> k in t
    ensures k in t ==> Updated(t, ps)[k] == t[k]
    decreases |ps|
  {
    if ps != [] {
      UpdatedFrame(t, ps[..|ps| - 1], k);
    }
  }

  /** Assigning pairs gives each name the value of the last pair that carries it. */
  lemma {:induction false} UpdatedLastWins(t: Table, ps: seq<(string, Value)>, i: nat)
    requires i < |ps|
    requires forall j :: i < j < |ps| ==> ps[j].0 != ps[i].0
    ensures ps[i].0 in Updated(t, ps) && Updated(t, ps)[ps[i].0] == ps[i].1
    decreases |ps|
  {
    if i < |ps| - 1 {
      UpdatedLastWins(t, ps[..|ps| - 1], i);
    }
  }

  /** Assigning pairs adds exactly their names to the table's keys. */
  lemma {:induction false} UpdatedKeys(t: Table, ps: seq<(string, Value)>)
    ensures Updated(t, ps).Keys == t.Keys + set i | 0 <= i < |ps| :: ps[i].0
    decreases |ps|
  {
    if ps != [] {
      var init := ps[..|ps| - 1];
      UpdatedKeys(t, init);
      assert (set i | 0 <= i < |ps| :: ps[i].0) == (set i | 0 <= i < |init| :: init[i].0) + {ps[|ps| - 1].0};
    }
  }

  /** With all names free and distinct, a registration writes every pair and each name gets its value. */
  lemma InsertFresh(t: Table, ps: seq<(string, Value)>, overwrite: bool, i: nat)
    requires forall j :: 0 <= j < |ps| ==> !Occupied(t, ps[j].0)
    requires forall j, l :: 0 <= j < l < |ps| ==> ps[j].0 != ps[l].0
    requires i < |ps|
    ensures Insert(t, ps, overwrite) == Insertion(Updated(t, ps), |ps|, None)
    ensures ps[i].0 in Updated(t, ps) && Updated(t, ps)[ps[i].0] == ps[i].1
  {
    var u := Insert(t, ps, overwrite);
    InsertPrefix(t, ps, overwrite);
    if u.blocked.Some? {
      InsertBlocked(t, ps, overwrite);
      var b := u.done;
      var seen := ps[..b];
      assert forall j :: 0 <= j < |seen| ==> seen[j].0 != ps[b].0;
      UpdatedFrame(t, seen, ps[b].0);
      assert false;
    }
    assert ps[..|ps|] == ps;
    UpdatedLastWins(t, ps, i);
  }

  /** The first of `keys` that is occupied in `t`. */
  function FirstOccupied(t: Table, keys: seq<string>): (r: Option<nat>)
    ensures r.None? <==> forall i :: 0 <= i < |keys| ==> !Occupied(t, keys[i])
    ensures r.Some? ==> r.value < |keys| && Occupied(t, keys[r.value])
    ensures r.Some? ==> forall i :: 0 <= i < r.value ==> !Occupied(t, keys[i])
    decreases |keys|
  {
    if keys == [] then None
    else if Occupied(t, keys[0]) then Some(0)
    else match FirstOccupied(t, keys[1..])
      case None => None
      case Some(i) => Some(i + 1)
  }
}
