/**
 * Rows of a database table as a sequence: key lookups, unique indexes and
 * foreign-key references, and how they survive appending or replacing a row.
 */
module Tables {
  import opened Wrappers

  /** Some row has key `k`. */
  predicate HasKey<T, K(==)>(rows: seq<T>, key: T -> K, k: K)
  {
    exists i :: 0 <= i < |rows| && key(rows[i]) == k
  }

  /** A unique index on `key`: no two rows share a key. */
  predicate UniqueKeys<T, K(==)>(rows: seq<T>, key: T -> K)
  {
    forall i, j :: 0 <= i < j < |rows| ==> key(rows[i]) != key(rows[j])
  }

  /**
   * A foreign key: every row of `children` whose reference `fk` is set names
   * the key of some row of `parents`.
   */
  predicate References<S, T, K(==)>(children: seq<S>, fk: S -> Option<K>, parents: seq<T>, key: T -> K)
  {
    forall i :: 0 <= i < |children| && fk(children[i]).Some? ==> HasKey(parents, key, fk(children[i]).value)
  }

  /** The position of the first row with key `k`, or -1 when there is none. */
  function IndexOf<T, K(==)>(rows: seq<T>, key: T -> K, k: K): (i: int)
    ensures -1 <= i < |rows|
    ensures i == -1 <==> !HasKey(rows, key, k)
    ensures i >= 0 ==> key(rows[i]) == k && forall j :: 0 <= j < i ==> key(rows[j]) != k
    decreases |rows|
  {
    if rows == [] then -1
    else if key(rows[0]) == k then 0
    else
      var i := IndexOf(rows[1..], key, k);
      if i == -1 then
        assert forall j :: 0 < j < |rows| ==> rows[j] == rows[1..][j - 1];
        -1
      else
        assert rows[1..][i] == rows[i + 1];
        i + 1
  }

  /** `FirstOrDefault(r => key(r) == k)`. */
  function Find<T, K(==)>(rows: seq<T>, key: T -> K, k: K): (r: Option<T>)
    ensures r.Some? <==> HasKey(rows, key, k)
    ensures r.Some? ==> r.value in rows && key(r.value) == k
  {
    var i := IndexOf(rows, key, k);
    if i == -1 then None else Some(rows[i])
  }

  /** Under a unique index the row with key `k` is the only one, wherever it is. */
  lemma IndexOfUnique<T, K>(rows: seq<T>, key: T -> K, j: int)
    requires UniqueKeys(rows, key) && 0 <= j < |rows|
    ensures IndexOf(rows, key, key(rows[j])) == j
  {
  }

  /** The largest key, or 0 for no rows. */
  function MaxKey<T>(rows: seq<T>, key: T -> int): (m: int)
    ensures m >= 0
    ensures forall i :: 0 <= i < |rows| ==> key(rows[i]) <= m
    decreases |rows|
  {
    if rows == [] then 0
    else
      var m := MaxKey(rows[..|rows| - 1], key);
      var k := key(rows[|rows| - 1]);
      assert forall i :: 0 <= i < |rows| - 1 ==> rows[i] == rows[..|rows| - 1][i];
      if k > m then k else m
  }

  /** The identity the database gives a new row: one past every key in the table. */
  function NextKey<T>(rows: seq<T>, key: T -> int): (k: int)
    ensures k > 0 && !HasKey(rows, key, k)
  {
    MaxKey(rows, key) + 1
  }

  // ----- appending and replacing rows -----

  lemma HasKeyAppend<T, K>(rows: seq<T>, key: T -> K, x: T, k: K)
    ensures HasKey(rows + [x], key, k) <==> HasKey(rows, key, k) || key(x) == k
  {
    if key(x) == k {
      assert (rows + [x])[|rows|] == x;
    }
    if HasKey(rows, key, k) {
      var i :| 0 <= i < |rows| && key(rows[i]) == k;
      assert (rows + [x])[i] == rows[i];
    }
  }

  /** Appending a row keeps an index unique exactly when its key is new. */
  lemma UniqueKeysAppend<T, K>(rows: seq<T>, key: T -> K, x: T)
    ensures UniqueKeys(rows + [x], key) <==> UniqueKeys(rows, key) && !HasKey(rows, key, key(x))
  {
    var s := rows + [x];
    if UniqueKeys(s, key) {
      assert forall i, j :: 0 <= i < j < |rows| ==> rows[i] == s[i] && rows[j] == s[j];
      forall i | 0 <= i < |rows|
        ensures key(rows[i]) != key(x)
      {
        assert s[i] == rows[i] && s[|rows|] == x;
      }
    }
  }

  /** Replacing a row keeps the set of keys when the replacement has the same key. */
  lemma HasKeyReplace<T, K>(rows: seq<T>, key: T -> K, i: int, x: T, k: K)
    requires 0 <= i < |rows| && key(x) == key(rows[i])
    ensures HasKey(rows[i := x], key, k) <==> HasKey(rows, key, k)
  {
    if HasKey(rows, key, k) {
      var j :| 0 <= j < |rows| && key(rows[j]) == k;
      assert key(rows[i := x][j]) == k;
    }
    if HasKey(rows[i := x], key, k) {
      var j :| 0 <= j < |rows| && key(rows[i := x][j]) == k;
      assert key(rows[j]) == k;
    }
  }

  /** Replacing a row keeps an index unique when no other row has the replacement's key. */
  lemma UniqueKeysReplace<T, K>(rows: seq<T>, key: T -> K, i: int, x: T)
    requires UniqueKeys(rows, key) && 0 <= i < |rows|
    requires forall j :: 0 <= j < |rows| && j != i ==> key(rows[j]) != key(x)
    ensures UniqueKeys(rows[i := x], key)
  {
  }

  /** A foreign key stays satisfied when the parent table keeps all its keys. */
  lemma ReferencesGrow<S, T, K>(children: seq<S>, fk: S -> Option<K>, parents: seq<T>, parents': seq<T>, key: T -> K)
    requires References(children, fk, parents, key)
    requires forall k :: HasKey(parents, key, k) ==> HasKey(parents', key, k)
    ensures References(children, fk, parents', key)
  {
    forall i | 0 <= i < |children| && fk(children[i]).Some?
      ensures HasKey(parents', key, fk(children[i]).value)
    {
      assert HasKey(parents, key, fk(children[i]).value);
    }
  }

  /** A foreign key after appending a child: the old children and the new one must each be satisfied. */
  lemma ReferencesAppend<S, T, K>(children: seq<S>, fk: S -> Option<K>, parents: seq<T>, key: T -> K, x: S)
    ensures References(children + [x], fk, parents, key) <==>
            References(children, fk, parents, key) && (fk(x).Some? ==> HasKey(parents, key, fk(x).value))
  {
    var s := children + [x];
    assert forall i :: 0 <= i < |children| ==> s[i] == children[i];
    assert s[|children|] == x;
  }

  /** A foreign key after replacing a child whose reference is satisfied. */
  lemma ReferencesReplace<S, T, K>(children: seq<S>, fk: S -> Option<K>, parents: seq<T>, key: T -> K, i: int, x: S)
    requires References(children, fk, parents, key) && 0 <= i < |children|
    requires fk(x).Some? ==> HasKey(parents, key, fk(x).value)
    ensures References(children[i := x], fk, parents, key)
  {
  }

  // ----- removing rows -----

  /** No row of `children` refers to the parent key `k`. */
  predicate Unreferenced<S, K(==)>(children: seq<S>, fk: S -> Option<K>, k: K)
  {
    forall i :: 0 <= i < |children| ==> fk(children[i]) != Some(k)
  }

  /** The rows without the one at position `i`. */
  function RemoveAt<T>(rows: seq<T>, i: int): (r: seq<T>)
    requires 0 <= i < |rows|
    ensures |r| == |rows| - 1
    ensures forall j :: 0 <= j < i ==> r[j] == rows[j]
    ensures forall j :: i <= j < |r| ==> r[j] == rows[j + 1]
  {
    rows[..i] + rows[i + 1..]
  }

  /** Under a unique index, removing a row removes exactly its key. */
  lemma HasKeyRemove<T, K>(rows: seq<T>, key: T -> K, i: int, k: K)
    requires UniqueKeys(rows, key) && 0 <= i < |rows|
    ensures HasKey(RemoveAt(rows, i), key, k) <==> HasKey(rows, key, k) && k != key(rows[i])
  {
    var r := RemoveAt(rows, i);
    if HasKey(rows, key, k) && k != key(rows[i]) {
      var j :| 0 <= j < |rows| && key(rows[j]) == k;
      if j < i {
        assert key(r[j]) == k;
      } else {
        assert key(r[j - 1]) == k;
      }
    }
    if HasKey(r, key, k) {
      var j :| 0 <= j < |r| && key(r[j]) == k;
      if j < i {
        assert key(rows[j]) == k;
      } else {
        assert key(rows[j + 1]) == k;
      }
    }
  }

  /** Removing a row keeps an index unique. */
  lemma UniqueKeysRemove<T, K>(rows: seq<T>, key: T -> K, i: int)
    requires UniqueKeys(rows, key) && 0 <= i < |rows|
    ensures UniqueKeys(RemoveAt(rows, i), key)
  {
    var r := RemoveAt(rows, i);
    forall a, b | 0 <= a < b < |r|
      ensures key(r[a]) != key(r[b])
    {
      var a' := if a < i then a else a + 1;
      var b' := if b < i then b else b + 1;
      assert r[a] == rows[a'] && r[b] == rows[b'];
    }
  }

  /** A foreign key survives removing a parent row nobody refers to. */
  lemma ReferencesRemove<S, T, K>(children: seq<S>, fk: S -> Option<K>, parents: seq<T>, key: T -> K, i: int)
    requires References(children, fk, parents, key) && UniqueKeys(parents, key) && 0 <= i < |parents|
    requires Unreferenced(children, fk, key(parents[i]))
    ensures References(children, fk, RemoveAt(parents, i), key)
  {
    forall c | 0 <= c < |children| && fk(children[c]).Some?
      ensures HasKey(RemoveAt(parents, i), key, fk(children[c]).value)
    {
      HasKeyRemove(parents, key, i, fk(children[c]).value);
    }
  }
}
