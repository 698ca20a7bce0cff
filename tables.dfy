/**
 * The auxiliary tables (makes and models, OSes and versions). A bulk listing
 * is folded into an ordered list of distinct keys and a map from each key to
 * the values of its rows; a version list is read back with empty versions
 * removed.
 */
module Tables {

  ghost predicate Distinct(s: seq<string>) {
    forall i, j :: 0 <= i < j < |s| ==> s[i] != s[j]
  }

  /**
   * The fold of `loadDeviceOsesData` and `loadDeviceMakesData`: a key is
   * appended when the map does not hold it yet, and each row's value is
   * appended to its key's list.
   */
  function Fold<E, V>(rows: seq<E>, key: E -> string, value: E -> V): (seq<string>, map<string, seq<V>>)
  {
    if rows == [] then ([], map[])
    else
      var before := Fold(rows[..|rows| - 1], key, value);
      var row := rows[|rows| - 1];
      var k := key(row);
      ( if k in before.1 then before.0 else before.0 + [k],
        before.1[k := (if k in before.1 then before.1[k] else []) + [value(row)]] )
  }

  /** The fold loop, one row at a time. */
  method FoldRows<E, V>(rows: seq<E>, key: E -> string, value: E -> V)
    returns (keys: seq<string>, groups: map<string, seq<V>>)
    ensures (keys, groups) == Fold(rows, key, value)
  {
    keys, groups := [], map[];
    var i := 0;
    while i < |rows|
      invariant 0 <= i <= |rows|
      invariant (keys, groups) == Fold(rows[..i], key, value)
    {
      var row := rows[i];
      var k := key(row);
      if k !in groups {
        keys := keys + [k];
      }
      groups := groups[k := (if k in groups then groups[k] else []) + [value(row)]];
      assert rows[..i + 1][..i] == rows[..i];
      i := i + 1;
    }
    assert rows[..i] == rows;
  }

  /** Reference: the values of the rows with key `k`, in row order. */
  function ValuesOf<E, V>(rows: seq<E>, key: E -> string, value: E -> V, k: string): seq<V>
  {
    if rows == [] then []
    else (if key(rows[0]) == k then [value(rows[0])] else []) + ValuesOf(rows[1..], key, value, k)
  }

  /** Some row has key `k`. */
  ghost predicate Occurs<E>(rows: seq<E>, key: E -> string, k: string) {
    exists j :: 0 <= j < |rows| && key(rows[j]) == k
  }

  /** Reference: the index of the first row with key `k`. */
  function FirstIndex<E>(rows: seq<E>, key: E -> string, k: string): (i: nat)
    requires Occurs(rows, key, k)
    ensures i < |rows| && key(rows[i]) == k
    ensures forall j :: 0 <= j < i ==> key(rows[j]) != k
  {
    if key(rows[0]) == k then 0
    else
      assert forall j :: 0 < j < |rows| ==> rows[j] == rows[1..][j - 1];
      var j :| 0 <= j < |rows| && key(rows[j]) == k;
      assert key(rows[1..][j - 1]) == k;
      1 + FirstIndex(rows[1..], key, k)
  }

  lemma OccursSnoc<E>(rows: seq<E>, row: E, key: E -> string, k: string)
    ensures Occurs(rows + [row], key, k) <==> Occurs(rows, key, k) || key(row) == k
  {
    var all := rows + [row];
    assert forall j :: 0 <= j < |rows| ==> all[j] == rows[j];
    assert all[|rows|] == row;
  }

  lemma {:induction false} ValuesOfSnoc<E, V>(rows: seq<E>, row: E, key: E -> string, value: E -> V, k: string)
    ensures ValuesOf(rows + [row], key, value, k)
         == ValuesOf(rows, key, value, k) + (if key(row) == k then [value(row)] else [])
    decreases |rows|
  {
    if rows == [] {
      assert [row][1..] == [];
    } else {
      assert (rows + [row])[1..] == rows[1..] + [row];
      ValuesOfSnoc(rows[1..], row, key, value, k);
    }
  }

  lemma FirstIndexSnoc<E>(rows: seq<E>, row: E, key: E -> string, k: string)
    requires Occurs(rows, key, k)
    ensures Occurs(rows + [row], key, k)
    ensures FirstIndex(rows + [row], key, k) == FirstIndex(rows, key, k)
  {
    OccursSnoc(rows, row, key, k);
    var i := FirstIndex(rows, key, k);
    var all := rows + [row];
    assert forall j :: 0 <= j < |rows| ==> all[j] == rows[j];
    assert key(all[i]) == k;
    var i' := FirstIndex(all, key, k);
  }

  lemma FirstIndexOfNew<E>(rows: seq<E>, row: E, key: E -> string)
    requires !Occurs(rows, key, key(row))
    ensures Occurs(rows + [row], key, key(row))
    ensures FirstIndex(rows + [row], key, key(row)) == |rows|
  {
    OccursSnoc(rows, row, key, key(row));
    var all := rows + [row];
    assert forall j :: 0 <= j < |rows| ==> all[j] == rows[j];
  }

  /**
   * The keys the fold builds: distinct, exactly the keys of the map, and
   * exactly the keys some row has.
   */
  lemma {:induction false} FoldKeys<E, V>(rows: seq<E>, key: E -> string, value: E -> V)
    ensures var f := Fold(rows, key, value);
      && Distinct(f.0)
      && (forall k :: k in f.0 <==> k in f.1)
      && (forall k :: k in f.0 <==> Occurs(rows, key, k))
    decreases |rows|
  {
    if rows != [] {
      var init, row := rows[..|rows| - 1], rows[|rows| - 1];
      assert rows == init + [row];
      FoldKeys(init, key, value);
      forall k ensures Occurs(rows, key, k) <==> Occurs(init, key, k) || key(row) == k {
        OccursSnoc(init, row, key, k);
      }
    }
  }

  /** Each key maps to all of its rows' values, in row order, empty values included. */
  lemma {:induction false} FoldGroups<E, V>(rows: seq<E>, key: E -> string, value: E -> V)
    ensures var f := Fold(rows, key, value);
      forall k :: k in f.1 ==> f.1[k] == ValuesOf(rows, key, value, k)
    decreases |rows|
  {
    if rows != [] {
      var init, row := rows[..|rows| - 1], rows[|rows| - 1];
      assert rows == init + [row];
      FoldGroups(init, key, value);
      var b := Fold(init, key, value);
      var f := Fold(rows, key, value);
      forall k | k in f.1 ensures f.1[k] == ValuesOf(rows, key, value, k) {
        ValuesOfSnoc(init, row, key, value, k);
        if k != key(row) {
          assert k in b.1;
        } else if k !in b.1 {
          FoldKeys(init, key, value);
          ValuesOfAbsent(init, key, value, k);
        }
      }
    }
  }

  lemma {:induction false} ValuesOfAbsent<E, V>(rows: seq<E>, key: E -> string, value: E -> V, k: string)
    requires !Occurs(rows, key, k)
    ensures ValuesOf(rows, key, value, k) == []
    decreases |rows|
  {
    if rows != [] {
      assert key(rows[0]) != k;
      assert forall j :: 0 <= j < |rows| - 1 ==> rows[1..][j] == rows[j + 1];
      ValuesOfAbsent(rows[1..], key, value, k);
    }
  }

  /** `keys` lists keys of `rows` in the order in which each first appears. */
  ghost predicate FirstSeenOrder<E>(rows: seq<E>, key: E -> string, keys: seq<string>) {
    forall i, j :: 0 <= i < j < |keys| ==>
      Occurs(rows, key, keys[i]) && Occurs(rows, key, keys[j]) &&
      FirstIndex(rows, key, keys[i]) < FirstIndex(rows, key, keys[j])
  }

  lemma FirstSeenSnoc<E>(rows: seq<E>, row: E, key: E -> string, keys: seq<string>)
    requires FirstSeenOrder(rows, key, keys)
    requires forall k :: k in keys <==> Occurs(rows, key, k)
    ensures FirstSeenOrder(rows + [row], key, if key(row) in keys then keys else keys + [key(row)])
  {
    forall k | k in keys ensures Occurs(rows + [row], key, k) && FirstIndex(rows + [row], key, k) == FirstIndex(rows, key, k) {
      FirstIndexSnoc(rows, row, key, k);
    }
    if key(row) !in keys {
      FirstIndexOfNew(rows, row, key);
      var keys' := keys + [key(row)];
      forall i | 0 <= i < |keys| ensures keys'[i] == keys[i] && keys[i] in keys {
      }
    }
  }

  /** The keys come in the order in which each first appears among the rows. */
  lemma {:induction false} FoldFirstSeen<E, V>(rows: seq<E>, key: E -> string, value: E -> V)
    ensures FirstSeenOrder(rows, key, Fold(rows, key, value).0)
    decreases |rows|
  {
    if rows != [] {
      var init, row := rows[..|rows| - 1], rows[|rows| - 1];
      assert rows == init + [row];
      FoldFirstSeen(init, key, value);
      FoldKeys(init, key, value);
      FirstSeenSnoc(init, row, key, Fold(init, key, value).0);
    }
  }

  // ------------------------------------------------------ empty versions

  /** The versions with every "" removed, in order. */
  function NonEmpty(versions: seq<string>): (r: seq<string>)
    ensures |r| <= |versions|
    ensures forall v :: v in r ==> v != "" && v in versions
  {
    if versions == [] then []
    else
      var last := versions[|versions| - 1];
      NonEmpty(versions[..|versions| - 1]) + (if last != "" then [last] else [])
  }

  /** The clean-up loop of `GetAllVersionsForOS`. */
  method RemoveEmpty(versions: seq<string>) returns (kept: seq<string>)
    ensures kept == NonEmpty(versions)
  {
    kept := [];
    var i := 0;
    while i < |versions|
      invariant 0 <= i <= |versions|
      invariant kept == NonEmpty(versions[..i])
    {
      if versions[i] != "" {
        kept := kept + [versions[i]];
      }
      assert versions[..i + 1][..i] == versions[..i];
      i := i + 1;
    }
    assert versions[..i] == versions;
  }

  /** Every non-empty version stays, as often as it occurs; "" never does. */
  lemma {:induction false} NonEmptyCount(versions: seq<string>, v: string)
    ensures multiset(NonEmpty(versions))[v] == if v == "" then 0 else multiset(versions)[v]
    decreases |versions|
  {
    if versions != [] {
      var init := versions[..|versions| - 1];
      assert versions == init + [versions[|versions| - 1]];
      NonEmptyCount(init, v);
    }
  }

  /** Removing empties distributes over concatenation: order is kept. */
  lemma {:induction false} NonEmptyAppend(a: seq<string>, b: seq<string>)
    ensures NonEmpty(a + b) == NonEmpty(a) + NonEmpty(b)
    decreases |b|
  {
    if b == [] {
      assert a + b == a;
    } else {
      var init := b[..|b| - 1];
      assert b == init + [b[|b| - 1]];
      assert a + b == (a + init) + [b[|b| - 1]];
      assert (a + b)[..|a + b| - 1] == a + init;
      NonEmptyAppend(a, init);
    }
  }
}
