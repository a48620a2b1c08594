/**
 The parameter store of the agent model: an insertion-ordered table from
 parameter names to values, four of whose keys are protected.

 `Table` is the value the store holds at any moment; the functions below are
 the effect of each store operation on that value, and the lemmas state what
 the operations promise.
 */
module Parameters {
  import opened Values

  const NumNodes: string := "num_nodes"
  const GraphType: string := "graph_type"
  const ConvergenceDataKey: string := "convergence_data_key"
  const ConvergenceStdDev: string := "convergence_std_dev"

  /** The keys that can be overwritten but never deleted. */
  const Protected: set<string> := {NumNodes, GraphType, ConvergenceDataKey, ConvergenceStdDev}

  predicate Distinct(s: seq<string>)
  {
    forall i, j :: 0 <= i < j < |s| ==> s[i] != s[j]
  }

  /** The elements of a key sequence, as a set. */
  function Elems(s: seq<string>): set<string>
  {
    set k | k in s
  }

  /** The keys in insertion order, and what each key maps to. */
  datatype Table = Table(keys: seq<string>, values: map<string, Value>) {

    /** The key sequence lists each key of the map exactly once. */
    ghost predicate Wellformed()
    {
      Distinct(keys) && values.Keys == Elems(keys)
    }

    /** A well-formed table that holds every protected key. */
    ghost predicate Valid()
    {
      Wellformed() && Protected <= values.Keys
    }
  }

  /** The table a fresh model starts with, and the one a reset restores. */
  function Defaults(): (t: Table)
    ensures t.Valid()
    ensures t.values.Keys == Protected && |t.keys| == 4
  {
    Table([NumNodes, GraphType, ConvergenceDataKey, ConvergenceStdDev],
          map[NumNodes := Int(3), GraphType := Str("complete"),
              ConvergenceDataKey := Null, ConvergenceStdDev := Int(100)])
  }

  /** Looking a key up: its value, or KeyError when it is absent. */
  function Lookup(t: Table, k: string): (r: Result<Value>)
    ensures r.Success? <==> k in t.values
    ensures r.Failure? ==> r.error == KeyError
    ensures r.Success? ==> r.value == t.values[k]
  {
    if k in t.values then Success(t.values[k]) else Failure(KeyError)
  }

  /** Assigning one key: an existing key keeps its position, a new key goes last. */
  function Put(t: Table, k: string, v: Value): (r: Table)
    ensures t.Wellformed() ==> r.Wellformed()
    ensures Protected <= t.values.Keys ==> Protected <= r.values.Keys
  {
    Table(if k in t.values then t.keys else t.keys + [k], t.values[k := v])
  }

  /** The elements of `s` that are not in `d`, in their original order. */
  function Filter(s: seq<string>, d: set<string>): seq<string>
  {
    if s == [] then []
    else (if s[0] in d then [] else [s[0]]) + Filter(s[1..], d)
  }

  /** Deleting one key from the table (Python's `dict.pop`). */
  function Remove(t: Table, k: string): (r: Table)
  {
    Table(Filter(t.keys, {k}), t.values - {k})
  }

  /**
   Merging a patch into the table (Python's `dict.update`): the patch's keys
   are assigned one after the other, in the patch's own order.
   */
  function MergeEntries(t: Table, ks: seq<string>, p: map<string, Value>): Table
    requires forall k :: k in ks ==> k in p
    decreases |ks|
  {
    if ks == [] then t else MergeEntries(Put(t, ks[0], p[ks[0]]), ks[1..], p)
  }

  function Merge(t: Table, patch: Table): Table
    requires patch.Wellformed()
  {
    MergeEntries(t, patch.keys, patch.values)
  }

  /** A key that `delete_parameters` accepts: present and not protected. */
  predicate Deletable(t: Table, k: string)
  {
    k in t.values && k !in Protected
  }

  /**
   Deleting the keys of `ks` one at a time. The first key that is absent or
   protected stops the deletion with a failure (false); the keys before it
   stay deleted.
   */
  function DeleteKeys(t: Table, ks: seq<string>): (Table, bool)
    decreases |ks|
  {
    if ks == [] then (t, true)
    else if !Deletable(t, ks[0]) then (t, false)
    else DeleteKeys(Remove(t, ks[0]), ks[1..])
  }

  // ---------------------------------------------------------------------
  // Properties of the sequence helpers

  /** Regrouping a concatenation, kept apart so the solver sees it alone. */
  lemma AppendAssoc(a: seq<string>, b: seq<string>, c: seq<string>)
    ensures (a + b) + c == a + (b + c)
  {
  }

  /** Filtering keeps exactly the elements outside `d`. */
  lemma {:induction false} FilterMembers(s: seq<string>, d: set<string>)
    ensures forall k :: k in Filter(s, d) <==> k in s && k !in d
  {
    if s != [] {
      FilterMembers(s[1..], d);
      assert forall k :: k in s <==> k == s[0] || k in s[1..];
    }
  }

  lemma {:induction false} FilterDistinct(s: seq<string>, d: set<string>)
    requires Distinct(s)
    ensures Distinct(Filter(s, d))
  {
    if s != [] {
      FilterDistinct(s[1..], d);
      FilterMembers(s[1..], d);
      var head := if s[0] in d then [] else [s[0]];
      var r := Filter(s, d);
      assert r == head + Filter(s[1..], d);
      assert s[0] !in s[1..];
      forall i, j | 0 <= i < j < |r| ensures r[i] != r[j] {
        if |head| == 1 && i == 0 {
          assert r[j] in Filter(s[1..], d);
        }
      }
    }
  }

  lemma {:induction false} FilterTwice(s: seq<string>, a: set<string>, b: set<string>)
    ensures Filter(Filter(s, a), b) == Filter(s, a + b)
  {
    if s != [] {
      FilterTwice(s[1..], a, b);
      if s[0] in a {
        assert Filter(s, a) == Filter(s[1..], a);
      } else {
        assert Filter(s, a) == [s[0]] + Filter(s[1..], a);
        assert Filter(s, a)[1..] == Filter(s[1..], a);
      }
    }
  }

  /** Filtering by a key that does not occur changes nothing. */
  lemma {:induction false} FilterIgnores(s: seq<string>, d: set<string>, x: string)
    requires x !in s
    ensures Filter(s, d + {x}) == Filter(s, d)
  {
    if s != [] {
      assert x != s[0];
      FilterIgnores(s[1..], d, x);
    }
  }

  lemma {:induction false} FilterNone(s: seq<string>, d: set<string>)
    requires forall k :: k in s ==> k !in d
    ensures Filter(s, d) == s
  {
    if s != [] {
      FilterNone(s[1..], d);
      assert s == [s[0]] + s[1..];
    }
  }

  // ---------------------------------------------------------------------
  // Setting and getting one key

  /** After a set, a get of the same key returns the new value. */
  lemma GetAfterSet(t: Table, k: string, v: Value)
    ensures Lookup(Put(t, k, v), k) == Success(v)
    ensures forall j :: j != k ==> Lookup(Put(t, k, v), j) == Lookup(t, j)
  {
  }

  /** Overwriting keeps every key's position; a new key is appended. */
  lemma PutOrder(t: Table, k: string, v: Value)
    requires t.Wellformed()
    ensures var r := Put(t, k, v);
      && |r.keys| == |t.keys| + (if k in t.values then 0 else 1)
      && r.keys[..|t.keys|] == t.keys
      && (k !in t.values ==> r.keys[|t.keys|] == k)
  {
  }

  // ---------------------------------------------------------------------
  // Merging a patch

  /** Merging assigns the patch's keys and leaves every other key alone. */
  lemma {:induction false} MergeEntriesValues(t: Table, ks: seq<string>, p: map<string, Value>)
    requires forall k :: k in ks ==> k in p
    decreases |ks|
    ensures forall k :: k in MergeEntries(t, ks, p).values <==> k in t.values || k in ks
    ensures forall k :: k in ks ==> MergeEntries(t, ks, p).values[k] == p[k]
    ensures forall k :: k in t.values && k !in ks ==> MergeEntries(t, ks, p).values[k] == t.values[k]
  {
    if ks != [] {
      MergeEntriesValues(Put(t, ks[0], p[ks[0]]), ks[1..], p);
      assert forall k :: k in ks <==> k == ks[0] || k in ks[1..];
    }
  }

  /** Merging keeps the old key order and appends the new keys in patch order. */
  lemma {:induction false} MergeEntriesKeys(t: Table, ks: seq<string>, p: map<string, Value>)
    requires t.Wellformed() && Distinct(ks)
    requires forall k :: k in ks ==> k in p
    decreases |ks|
    ensures MergeEntries(t, ks, p).Wellformed()
    ensures MergeEntries(t, ks, p).keys == t.keys + Filter(ks, t.values.Keys)
  {
    if ks != [] {
      var k0, rest := ks[0], ks[1..];
      var t1 := Put(t, k0, p[k0]);
      var head := if k0 in t.values.Keys then [] else [k0];
      assert Distinct(rest) && k0 !in rest by {
        assert forall i :: 0 <= i < |rest| ==> rest[i] == ks[i + 1];
      }
      assert t1.Wellformed() && t1.keys == t.keys + head;
      MergeEntriesKeys(t1, rest, p);
      assert Filter(rest, t1.values.Keys) == Filter(rest, t.values.Keys) by {
        assert t1.values.Keys == t.values.Keys + {k0};
        FilterIgnores(rest, t.values.Keys, k0);
      }
      assert Filter(ks, t.values.Keys) == head + Filter(rest, t.values.Keys);
      AppendAssoc(t.keys, head, Filter(rest, t.values.Keys));
    }
  }

  /**
   `update_parameters(P)`: every key of P maps to P's value, every other key
   keeps its value, the old keys keep their order and P's new keys follow in
   P's order. The protected keys survive.
   */
  lemma {:induction false} MergeSpec(t: Table, patch: Table)
    requires t.Valid() && patch.Wellformed()
    ensures Merge(t, patch).Valid()
    ensures Merge(t, patch).values.Keys == t.values.Keys + patch.values.Keys
    ensures forall k :: k in patch.values ==> Merge(t, patch).values[k] == patch.values[k]
    ensures forall k :: k in t.values && k !in patch.values ==> Merge(t, patch).values[k] == t.values[k]
    ensures Merge(t, patch).keys == t.keys + Filter(patch.keys, t.values.Keys)
  {
    var r := Merge(t, patch);
    assert r.keys == t.keys + Filter(patch.keys, t.values.Keys) && r.Wellformed() by {
      MergeEntriesKeys(t, patch.keys, patch.values);
    }
    assert r.values.Keys == t.values.Keys + patch.values.Keys by {
      MergeEntriesValues(t, patch.keys, patch.values);
    }
    assert forall k :: k in patch.values ==> r.values[k] == patch.values[k] by {
      MergeEntriesValues(t, patch.keys, patch.values);
    }
    assert forall k :: k in t.values && k !in patch.values ==> r.values[k] == t.values[k] by {
      MergeEntriesValues(t, patch.keys, patch.values);
    }
  }

  // ---------------------------------------------------------------------
  // Deleting keys

  /** Removing one key keeps the table well formed and drops only that key. */
  lemma RemoveSpec(t: Table, k: string)
    requires t.Wellformed()
    ensures var r := Remove(t, k);
      && r.Wellformed()
      && r.values == t.values - {k}
      && r.keys == Filter(t.keys, {k})
  {
    FilterDistinct(t.keys, {k});
    FilterMembers(t.keys, {k});
  }

  /** Deletion never removes a protected key, whether it succeeds or not. */
  lemma {:induction false} DeleteKeysValid(t: Table, ks: seq<string>)
    requires t.Valid()
    ensures DeleteKeys(t, ks).0.Valid()
    decreases |ks|
  {
    if ks != [] && Deletable(t, ks[0]) {
      RemoveSpec(t, ks[0]);
      DeleteKeysValid(Remove(t, ks[0]), ks[1..]);
    }
  }

  /**
   Deletion succeeds exactly when every listed key is present, none is
   protected and none is listed twice (a repeated key fails on its second
   occurrence).
   */
  lemma {:induction false} DeleteKeysSucceedsIff(t: Table, ks: seq<string>)
    requires t.Wellformed()
    ensures DeleteKeys(t, ks).1
        <==> Distinct(ks) && forall i :: 0 <= i < |ks| ==> Deletable(t, ks[i])
    decreases |ks|
  {
    if ks != [] {
      var k0, rest := ks[0], ks[1..];
      if Deletable(t, k0) {
        var t1 := Remove(t, k0);
        RemoveSpec(t, k0);
        DeleteKeysSucceedsIff(t1, rest);
        if DeleteKeys(t, ks).1 {
          forall i, j | 0 <= i < j < |ks| ensures ks[i] != ks[j] {
            if i == 0 {
              assert Deletable(t1, rest[j - 1]);
            } else {
              assert rest[i - 1] != rest[j - 1];
            }
          }
          forall i | 0 <= i < |ks| ensures Deletable(t, ks[i]) {
            if i > 0 { assert Deletable(t1, rest[i - 1]); }
          }
        }
        if Distinct(ks) && forall i :: 0 <= i < |ks| ==> Deletable(t, ks[i]) {
          forall i | 0 <= i < |rest| ensures Deletable(t1, rest[i]) {
            assert ks[i + 1] == rest[i] && ks[0] != ks[i + 1] && Deletable(t, ks[i + 1]);
          }
        }
      }
    }
  }

  /**
   A successful deletion leaves exactly the old keys minus the listed ones,
   with their values and relative order unchanged.
   */
  lemma {:induction false} DeleteKeysResult(t: Table, ks: seq<string>)
    requires t.Wellformed() && DeleteKeys(t, ks).1
    decreases |ks|
    ensures DeleteKeys(t, ks).0.Wellformed()
    ensures DeleteKeys(t, ks).0.values == t.values - (set k | k in ks)
    ensures DeleteKeys(t, ks).0.keys == Filter(t.keys, set k | k in ks)
  {
    if ks == [] {
      assert (set k | k in ks) == {};
      FilterNone(t.keys, {});
      assert t.values - {} == t.values;
    } else {
      var k0, rest := ks[0], ks[1..];
      var t1 := Remove(t, k0);
      var gone, later := set k | k in ks, set k | k in rest;
      assert gone == {k0} + later;
      assert DeleteKeys(t, ks) == DeleteKeys(t1, rest);
      assert t1.Wellformed() && t1.values == t.values - {k0} && t1.keys == Filter(t.keys, {k0}) by {
        RemoveSpec(t, k0);
      }
      var r := DeleteKeys(t1, rest).0;
      assert r.Wellformed() && r.values == t1.values - later && r.keys == Filter(t1.keys, later) by {
        DeleteKeysResult(t1, rest);
      }
      assert r.values == t.values - gone;
      assert r.keys == Filter(t.keys, gone) by {
        FilterTwice(t.keys, {k0}, later);
      }
    }
  }

  /**
   A failed deletion stops at the first key that is absent or protected: the
   keys before it were deleted (with success) and are not restored.
   */
  lemma {:induction false} DeleteKeysPartial(t: Table, ks: seq<string>)
    requires !DeleteKeys(t, ks).1
    ensures exists j ::
              && 0 <= j < |ks|
              && DeleteKeys(t, ks[..j]) == (DeleteKeys(t, ks).0, true)
              && !Deletable(DeleteKeys(t, ks).0, ks[j])
    decreases |ks|
  {
    var k0, rest := ks[0], ks[1..];
    if !Deletable(t, k0) {
      assert ks[..0] == [];
    } else {
      var t1 := Remove(t, k0);
      DeleteKeysPartial(t1, rest);
      var j :| 0 <= j < |rest|
        && DeleteKeys(t1, rest[..j]) == (DeleteKeys(t1, rest).0, true)
        && !Deletable(DeleteKeys(t1, rest).0, rest[j]);
      assert ks[..j + 1][0] == k0 && ks[..j + 1][1..] == rest[..j];
      assert ks[j + 1] == rest[j];
    }
  }

  /** Deleting a protected key fails and changes nothing. */
  lemma DeleteProtectedFails(t: Table, k: string)
    requires k in Protected
    ensures DeleteKeys(t, [k]) == (t, false)
  {
  }

  /** Partial effect: a deletable key stays deleted when the next key fails. */
  lemma DeleteThenFail(t: Table, k1: string, k2: string)
    requires Deletable(t, k1) && !Deletable(Remove(t, k1), k2)
    ensures DeleteKeys(t, [k1, k2]) == (Remove(t, k1), false)
    ensures k1 !in DeleteKeys(t, [k1, k2]).0.values
  {
    assert [k1, k2][1..] == [k2];
  }

  /** The reset restores the four defaults whatever was there before. */
  lemma DefaultsSpec()
    ensures Defaults().keys == [NumNodes, GraphType, ConvergenceDataKey, ConvergenceStdDev]
    ensures Lookup(Defaults(), NumNodes) == Success(Int(3))
    ensures Lookup(Defaults(), GraphType) == Success(Str("complete"))
    ensures Lookup(Defaults(), ConvergenceDataKey) == Success(Null)
    ensures Lookup(Defaults(), ConvergenceStdDev) == Success(Int(100))
  {
  }
}
