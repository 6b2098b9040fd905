/**
 * The per-row edit forms that every table component keeps beside its list of records, and
 * the list operations those components share.
 *
 * A component's `rowForms` dictionary maps a record's key (its id as a string) to a form. A
 * form is its current value and whether the user has touched it: `setValue` on an existing
 * form keeps its touched state, a newly built form is untouched.
 */
module RowForms {
  import opened Wrappers

  datatype RowForm<V> = RowForm(value: V, touched: bool)

  type Forms<V> = map<string, RowForm<V>>

  /** The keys the records carry; records without an id have none. */
  function KeysOf<R>(records: seq<R>, key: R -> Option<string>): set<string> {
    if records == [] then {}
    else
      var last := records[|records| - 1];
      KeysOf(records[..|records| - 1], key) + (if key(last).Some? then {key(last).value} else {})
  }

  /** The form value of the last record that carries key k. */
  function LastValue<R, V>(records: seq<R>, key: R -> Option<string>, value: R -> V, k: string): V
    requires k in KeysOf(records, key)
  {
    var last := records[|records| - 1];
    if key(last) == Some(k) then value(last) else LastValue(records[..|records| - 1], key, value, k)
  }

  /** A key is carried exactly when some record carries it. */
  lemma {:induction false} KeysOfSpec<R>(records: seq<R>, key: R -> Option<string>)
    ensures forall k :: k in KeysOf(records, key) <==> exists i :: 0 <= i < |records| && key(records[i]) == Some(k)
  {
    if records != [] {
      var init := records[..|records| - 1];
      KeysOfSpec(init, key);
      forall k ensures k in KeysOf(records, key) <==> exists i :: 0 <= i < |records| && key(records[i]) == Some(k) {
        if k in KeysOf(init, key) {
          var i :| 0 <= i < |init| && key(init[i]) == Some(k);
          assert key(records[i]) == Some(k);
        }
        if exists i :: 0 <= i < |records| && key(records[i]) == Some(k) {
          var i :| 0 <= i < |records| && key(records[i]) == Some(k);
          if i < |init| {
            assert key(init[i]) == Some(k);
          }
        }
      }
    }
  }

  /** The carried keys as a set comprehension over the records. */
  lemma KeysOfAsSet<R>(records: seq<R>, key: R -> Option<string>)
    ensures KeysOf(records, key) == set x | x in records && key(x).Some? :: key(x).value
  {
    KeysOfSpec(records, key);
    forall k | k in (set x | x in records && key(x).Some? :: key(x).value)
      ensures k in KeysOf(records, key)
    {
      var x :| x in records && key(x).Some? && key(x).value == k;
      var i :| 0 <= i < |records| && records[i] == x;
    }
  }

  /** When only one record carries k, the form value for k is that record's. */
  lemma {:induction false} LastValueOfUniqueKey<R, V>(records: seq<R>, key: R -> Option<string>, value: R -> V, j: nat)
    requires j < |records| && key(records[j]).Some?
    requires forall i | 0 <= i < |records| && i != j :: key(records[i]) != key(records[j])
    ensures key(records[j]).value in KeysOf(records, key)
    ensures LastValue(records, key, value, key(records[j]).value) == value(records[j])
  {
    KeysOfSpec(records, key);
    var k := key(records[j]).value;
    if j < |records| - 1 {
      var init := records[..|records| - 1];
      assert init[j] == records[j];
      forall i | 0 <= i < |init| && i != j ensures key(init[i]) != key(init[j]) {
        assert init[i] == records[i];
      }
      LastValueOfUniqueKey(init, key, value, j);
    }
  }

  /** `ensureRowForm` as the syncs use it: an existing form gets the new value and keeps its
      touched state, a missing one is created untouched; other forms are not affected. */
  function Upsert<V>(forms: Forms<V>, k: string, v: V): (r: Forms<V>)
    ensures r.Keys == forms.Keys + {k}
    ensures r[k] == RowForm(v, k in forms && forms[k].touched)
    ensures forall j | j in forms && j != k :: r[j] == forms[j]
  {
    if k in forms then forms[k := RowForm(v, forms[k].touched)] else forms[k := RowForm(v, false)]
  }

  /** `ensureRowForm` in the panels that only create: an existing form is left as it is. */
  function EnsurePresent<V>(forms: Forms<V>, k: string, v: V): (r: Forms<V>)
    ensures r.Keys == forms.Keys + {k}
    ensures k in forms ==> r[k] == forms[k]
    ensures k !in forms ==> r[k] == RowForm(v, false)
    ensures forall j | j in forms && j != k :: r[j] == forms[j]
  {
    if k in forms then forms else forms[k := RowForm(v, false)]
  }

  /** `patchValue` on the form under k, when there is one. */
  function Patch<V>(forms: Forms<V>, k: string, v: V): (r: Forms<V>)
    ensures r.Keys == forms.Keys
    ensures k in forms ==> r[k] == RowForm(v, forms[k].touched)
    ensures forall j | j in forms && j != k :: r[j] == forms[j]
  {
    if k in forms then forms[k := RowForm(v, forms[k].touched)] else forms
  }

  /** The registry after `syncRowForms(records)`: one form per carried key, holding the value
      of the last record with that key, touched only if it already existed and was touched. */
  function Synced<R, V>(forms: Forms<V>, records: seq<R>, key: R -> Option<string>, value: R -> V): Forms<V> {
    map k | k in KeysOf(records, key) :: RowForm(LastValue(records, key, value, k), k in forms && forms[k].touched)
  }

  /** After a sync the keys are exactly the records' ids; syncing again changes nothing. */
  lemma SyncedSpec<R, V>(forms: Forms<V>, records: seq<R>, key: R -> Option<string>, value: R -> V)
    ensures Synced(forms, records, key, value).Keys == KeysOf(records, key)
    ensures Synced(Synced(forms, records, key, value), records, key, value) == Synced(forms, records, key, value)
    ensures forall k | k in forms && k !in KeysOf(records, key) :: k !in Synced(forms, records, key, value)
  {
  }

  /** The registry part-way through the first loop of a sync: the first n records have
      been ensured, the other forms are as they were. */
  ghost predicate SyncedUpTo<R, V>(r: Forms<V>, forms: Forms<V>, records: seq<R>, key: R -> Option<string>, value: R -> V, n: nat)
    requires n <= |records|
  {
    var done := KeysOf(records[..n], key);
    && r.Keys == forms.Keys + done
    && (forall k | k in done :: r[k] == RowForm(LastValue(records[..n], key, value, k), k in forms && forms[k].touched))
    && (forall k | k in r && k !in done :: r[k] == forms[k])
  }

  /** Ensuring the form of record n extends the synced prefix by one record. */
  lemma SyncStep<R, V>(r: Forms<V>, forms: Forms<V>, records: seq<R>, key: R -> Option<string>, value: R -> V, n: nat)
    requires n < |records| && SyncedUpTo(r, forms, records, key, value, n)
    ensures key(records[n]).Some? ==> SyncedUpTo(Upsert(r, key(records[n]).value, value(records[n])), forms, records, key, value, n + 1)
    ensures key(records[n]).None? ==> SyncedUpTo(r, forms, records, key, value, n + 1)
  {
    assert records[..n + 1][..n] == records[..n];
  }

  /** `syncRowForms(records)`: remembers the known keys, ensures a form for every record with
      an id while forgetting its key, then deletes the forms of the keys left over. */
  method Sync<R, V>(forms: Forms<V>, records: seq<R>, key: R -> Option<string>, value: R -> V)
    returns (r: Forms<V>)
    ensures r == Synced(forms, records, key, value)
  {
    var known := forms.Keys;
    r := forms;
    var i := 0;
    assert records[..0] == [];
    while i < |records|
      invariant 0 <= i <= |records|
      invariant known == forms.Keys - KeysOf(records[..i], key)
      invariant SyncedUpTo(r, forms, records, key, value, i)
    {
      SyncStep(r, forms, records, key, value, i);
      assert records[..i + 1][..i] == records[..i];
      var id := key(records[i]);
      if id.Some? {
        known := known - {id.value};
        r := Upsert(r, id.value, value(records[i]));
      }
      i := i + 1;
    }
    assert records[..|records|] == records;
    SyncFinish(r, forms, records, key, value);
    r := DeleteKeys(r, known);
  }

  /** Once every record is ensured, dropping the keys no record carries gives the synced registry. */
  lemma SyncFinish<R, V>(r: Forms<V>, forms: Forms<V>, records: seq<R>, key: R -> Option<string>, value: R -> V)
    requires SyncedUpTo(r, forms, records, key, value, |records|)
    ensures r - (forms.Keys - KeysOf(records, key)) == Synced(forms, records, key, value)
  {
    assert records[..|records|] == records;
  }

  /** `keys.forEach(id => delete forms[id])` */
  method DeleteKeys<V>(forms: Forms<V>, keys: set<string>) returns (r: Forms<V>)
    ensures r == forms - keys
  {
    r := forms;
    var rest := keys;
    while rest != {}
      invariant rest <= keys
      invariant r == forms - (keys - rest)
      decreases |rest|
    {
      var id :| id in rest;
      rest := rest - {id};
      r := r - {id};
    }
  }

  // ---------------------------------------------------------------------------
  // List maintenance
  // ---------------------------------------------------------------------------

  /** `records.filter(r => key(r) !== id)`: every record with that id goes, all others stay
      (with their multiplicities). */
  function RemoveWhere<R(!new), K(==)>(records: seq<R>, key: R -> K, id: K): (r: seq<R>)
    ensures |r| <= |records|
    ensures forall x | x in r :: key(x) != id
    ensures forall x :: multiset(r)[x] == if key(x) == id then 0 else multiset(records)[x]
  {
    if records == [] then []
    else
      var rest := RemoveWhere(records[1..], key, id);
      assert records == [records[0]] + records[1..];
      if key(records[0]) == id then rest else [records[0]] + rest
  }

  /** Filtering distributes over concatenation: the kept records keep their relative order. */
  lemma {:induction false} RemoveWhereAppend<R(!new), K>(a: seq<R>, b: seq<R>, key: R -> K, id: K)
    ensures RemoveWhere(a + b, key, id) == RemoveWhere(a, key, id) + RemoveWhere(b, key, id)
    decreases |a|
  {
    if a == [] {
      assert a + b == b;
    } else {
      assert (a + b)[1..] == a[1..] + b;
      RemoveWhereAppend(a[1..], b, key, id);
    }
  }

  /** Without a record carrying that id the list is returned as it was. */
  lemma {:induction false} RemoveWhereNoMatch<R(!new), K>(records: seq<R>, key: R -> K, id: K)
    requires forall x | x in records :: key(x) != id
    ensures RemoveWhere(records, key, id) == records
    decreases |records|
  {
    if records != [] {
      assert records == [records[0]] + records[1..];
      RemoveWhereNoMatch(records[1..], key, id);
    }
  }

  /** `records.findIndex(pred)`, None for -1: the first index whose record satisfies pred. */
  function FindFirst<R>(records: seq<R>, pred: R -> bool): (r: Option<nat>)
    ensures r.Some? ==> r.value < |records| && pred(records[r.value])
                        && forall j | 0 <= j < r.value :: !pred(records[j])
    ensures r.None? ==> forall j | 0 <= j < |records| :: !pred(records[j])
  {
    if records == [] then None
    else if pred(records[0]) then Some(0)
    else
      match FindFirst(records[1..], pred)
      case None => None
      case Some(i) => Some(i + 1)
  }

  /** The `editingId` or `savingId` field after the record with `id` disappears. */
  function ClearIfEqual<K(==)>(current: Option<K>, id: K): (r: Option<K>)
    ensures current == Some(id) ==> r.None?
    ensures current != Some(id) ==> r == current
  {
    if current == Some(id) then None else current
  }
}
