/** Database tables whose rows carry a generated id and are looked up by a key: inserting, upserting,
    and what a whole list of upserts comes to. */
module Keyed {
  import opened Text

  datatype Row<K, V> = Row(id: int, key: K, val: V)

  /** Rows in the order of their ids, and the next id to be given out. */
  datatype Table<K, V> = Table(rows: seq<Row<K, V>>, next: int)

  /** The first row with a key, or -1. */
  function Find<K(==), V>(rows: seq<Row<K, V>>, k: K): (i: int)
    ensures -1 <= i < |rows|
    ensures i >= 0 ==> rows[i].key == k && forall j :: 0 <= j < i ==> rows[j].key != k
    ensures i < 0 ==> forall j :: 0 <= j < |rows| ==> rows[j].key != k
  {
    if rows == [] then -1
    else if rows[0].key == k then 0
    else
      var i := Find(rows[1..], k);
      if i < 0 then -1 else i + 1
  }

  ghost predicate UniqueKeys<K, V>(rows: seq<Row<K, V>>) {
    forall i, j :: 0 <= i < j < |rows| ==> rows[i].key != rows[j].key
  }

  /** Ids ascend and are all below the next one, as AUTOINCREMENT gives them out. */
  ghost predicate Ordered<K, V>(t: Table<K, V>) {
    && (forall i, j :: 0 <= i < j < |t.rows| ==> t.rows[i].id < t.rows[j].id)
    && (forall i :: 0 <= i < |t.rows| ==> t.rows[i].id < t.next)
  }

  function Insert<K, V>(t: Table<K, V>, k: K, v: V): Table<K, V> {
    Table(t.rows + [Row(t.next, k, v)], t.next + 1)
  }

  /** Updates the first row with the key by merging the value into it, or inserts a row. */
  function Put<K(==), V>(t: Table<K, V>, k: K, v: V, m: (V, V) -> V): Table<K, V> {
    var i := Find(t.rows, k);
    if i < 0 then Insert(t, k, v)
    else t.(rows := t.rows[i := t.rows[i].(val := m(t.rows[i].val, v))])
  }

  function PutAll<K(==), V>(t: Table<K, V>, items: seq<(K, V)>, m: (V, V) -> V): Table<K, V> {
    if items == [] then t
    else
      var last := items[|items| - 1];
      Put(PutAll(t, items[..|items| - 1], m), last.0, last.1, m)
  }

  function InsertAll<K, V>(t: Table<K, V>, items: seq<(K, V)>): Table<K, V> {
    if items == [] then t
    else
      var last := items[|items| - 1];
      Insert(InsertAll(t, items[..|items| - 1]), last.0, last.1)
  }

  /** What a list says about one key: its values combined in order, or nothing. */
  function Listed<K(==), V>(items: seq<(K, V)>, k: K, m: (V, V) -> V): Option<V> {
    if items == [] then None
    else
      var last, before := items[|items| - 1], Listed(items[..|items| - 1], k, m);
      if last.0 != k then before
      else if before == None then Some(last.1)
      else Some(m(before.value, last.1))
  }

  /** Merging is associative, and merging a value into itself changes nothing. */
  ghost predicate Lawful<V(!new)>(m: (V, V) -> V) {
    && (forall a, b, c :: m(m(a, b), c) == m(a, m(b, c)))
    && (forall a :: m(a, a) == a)
  }

  /** A stored value after what is listed for its key, if anything. */
  function Taken<V>(val: V, listed: Option<V>, m: (V, V) -> V): V {
    match listed
    case None => val
    case Some(v) => m(val, v)
  }

  /** What upserting comes to, row by row: old rows keep their id, place and key, and the first row of
      each key takes what is listed for it; new rows are exactly for the listed keys that had none. */
  ghost predicate Upserted<K(!new), V>(t: Table<K, V>, items: seq<(K, V)>, m: (V, V) -> V, u: Table<K, V>) {
    && |t.rows| <= |u.rows| && u.next == t.next + (|u.rows| - |t.rows|)
    && (forall i :: 0 <= i < |t.rows| ==> OldRow(t, items, m, u, i))
    && (forall i :: |t.rows| <= i < |u.rows| ==> NewRow(t, items, m, u, i))
    && (forall k :: Listed(items, k, m).Some? ==> Find(u.rows, k) >= 0)
  }

  ghost predicate OldRow<K, V>(t: Table<K, V>, items: seq<(K, V)>, m: (V, V) -> V, u: Table<K, V>, i: int)
    requires 0 <= i < |t.rows| <= |u.rows|
  {
    && u.rows[i].id == t.rows[i].id && u.rows[i].key == t.rows[i].key
    && u.rows[i].val ==
       if Find(t.rows, t.rows[i].key) == i then Taken(t.rows[i].val, Listed(items, t.rows[i].key, m), m)
       else t.rows[i].val
  }

  ghost predicate NewRow<K, V>(t: Table<K, V>, items: seq<(K, V)>, m: (V, V) -> V, u: Table<K, V>, i: int)
    requires |t.rows| <= i < |u.rows|
  {
    && u.rows[i].id == t.next + (i - |t.rows|)
    && Find(u.rows, u.rows[i].key) == i
    && Listed(items, u.rows[i].key, m).Some?
    && u.rows[i].val == Listed(items, u.rows[i].key, m).value
  }

  lemma FindFirst<K, V>(rows: seq<Row<K, V>>, k: K, i: int)
    requires 0 <= i < |rows| && rows[i].key == k && forall j :: 0 <= j < i ==> rows[j].key != k
    ensures Find(rows, k) == i
  {
    hide Find;
    var f := Find(rows, k);
    assert f >= 0;
  }

  /** Adding a row, or changing the value of one, finds every key where it was. */
  lemma PutFinds<K, V>(t: Table<K, V>, k: K, v: V, m: (V, V) -> V, x: K)
    ensures var i, u := Find(t.rows, x), Put(t, k, v, m);
            && (i >= 0 || x != k ==> Find(u.rows, x) == i)
            && (i < 0 && x == k ==> Find(u.rows, x) == |t.rows|)
  {
    hide Find;
    var u := Put(t, k, v, m);
    var j := Find(t.rows, x);
    assert |t.rows| <= |u.rows|;
    assert forall j :: 0 <= j < |t.rows| ==> u.rows[j].key == t.rows[j].key;
    assert forall j :: |t.rows| <= j < |u.rows| ==> u.rows[j].key == k;
    if j >= 0 {
      FindFirst(u.rows, x, j);
    } else if x == k {
      assert |u.rows| == |t.rows| + 1;
      FindFirst(u.rows, x, |t.rows|);
    }
  }

  lemma ListedMore<K, V>(items: seq<(K, V)>, m: (V, V) -> V, k: K, v: V, x: K)
    ensures var more, before := Listed(items + [(k, v)], x, m), Listed(items, x, m);
            && (x != k ==> more == before)
            && (x == k ==> more == if before == None then Some(v) else Some(m(before.value, v)))
  {
    var more := items + [(k, v)];
    assert more[..|more| - 1] == items;
  }

  lemma TakenMore<V(!new)>(val: V, listed: Option<V>, m: (V, V) -> V, v: V)
    requires Lawful(m)
    ensures Taken(val, if listed == None then Some(v) else Some(m(listed.value, v)), m)
         == m(Taken(val, listed, m), v)
  {
  }

  lemma PutStep<K(!new), V(!new)>(t: Table<K, V>, items: seq<(K, V)>, m: (V, V) -> V, u: Table<K, V>, k: K, v: V)
    requires Lawful(m) && Upserted(t, items, m, u)
    ensures Upserted(t, items + [(k, v)], m, Put(u, k, v, m))
  {
    hide Find, Listed, Taken, Lawful;
    var more, w := items + [(k, v)], Put(u, k, v, m);
    forall i | 0 <= i < |t.rows|
      ensures OldRow(t, more, m, w, i)
    {
      PutStepOld(t, items, m, u, k, v, i);
    }
    forall i | |t.rows| <= i < |w.rows|
      ensures NewRow(t, more, m, w, i)
    {
      PutStepNew(t, items, m, u, k, v, i);
    }
    forall x | Listed(more, x, m).Some?
      ensures Find(w.rows, x) >= 0
    {
      ListedMore(items, m, k, v, x);
      PutFinds(u, k, v, m, x);
    }
  }

  lemma OldKeys<K(!new), V>(t: Table<K, V>, items: seq<(K, V)>, m: (V, V) -> V, u: Table<K, V>)
    requires Upserted(t, items, m, u)
    ensures |t.rows| <= |u.rows| && forall j :: 0 <= j < |t.rows| ==> u.rows[j].key == t.rows[j].key
  {
    hide Find, Listed, Taken;
    forall j | 0 <= j < |t.rows|
      ensures u.rows[j].key == t.rows[j].key
    {
      assert OldRow(t, items, m, u, j);
    }
  }

  lemma PutStepOld<K(!new), V(!new)>(t: Table<K, V>, items: seq<(K, V)>, m: (V, V) -> V, u: Table<K, V>, k: K, v: V,
                                     i: int)
    requires Lawful(m) && Upserted(t, items, m, u) && 0 <= i < |t.rows|
    ensures |t.rows| <= |Put(u, k, v, m).rows| && OldRow(t, items + [(k, v)], m, Put(u, k, v, m), i)
  {
    hide Find, Listed, Taken, Lawful;
    assert OldRow(t, items, m, u, i);
    var x := t.rows[i].key;
    ListedMore(items, m, k, v, x);
    PutFinds(u, k, v, m, x);
    OldKeys(t, items, m, u);
    FindFirst(u.rows, x, Find(t.rows, x));
    TakenMore(t.rows[i].val, Listed(items, x, m), m, v);
  }

  lemma PutStepNew<K(!new), V(!new)>(t: Table<K, V>, items: seq<(K, V)>, m: (V, V) -> V, u: Table<K, V>, k: K, v: V,
                                     i: int)
    requires Lawful(m) && Upserted(t, items, m, u) && |t.rows| <= i < |Put(u, k, v, m).rows|
    ensures NewRow(t, items + [(k, v)], m, Put(u, k, v, m), i)
  {
    hide Find, Listed, Taken, Lawful;
    if i < |u.rows| {
      assert NewRow(t, items, m, u, i);
      var x := u.rows[i].key;
      ListedMore(items, m, k, v, x);
      PutFinds(u, k, v, m, x);
    } else {
      ListedMore(items, m, k, v, k);
      PutFinds(u, k, v, m, k);
      assert Listed(items, k, m) == None;
    }
  }

  /** A list of upserts, on any table. */
  lemma {:induction false} PutAllUpserts<K(!new), V(!new)>(t: Table<K, V>, items: seq<(K, V)>, m: (V, V) -> V)
    requires Lawful(m)
    ensures Upserted(t, items, m, PutAll(t, items, m))
  {
    if items == [] {
      hide Find;
    } else {
      hide Upserted, Find, Listed, Lawful;
      var init, last := items[..|items| - 1], items[|items| - 1];
      PutAllUpserts(t, init, m);
      PutStep(t, init, m, PutAll(t, init, m), last.0, last.1);
      assert items == init + [(last.0, last.1)];
    }
  }

  lemma TakenTwice<V(!new)>(val: V, listed: Option<V>, m: (V, V) -> V)
    requires Lawful(m)
    ensures Taken(Taken(val, listed, m), listed, m) == Taken(val, listed, m)
  {
    if listed.Some? {
      var v := listed.value;
      assert m(m(val, v), v) == m(val, m(v, v));
    }
  }

  lemma TakenSame<V(!new)>(val: V, m: (V, V) -> V)
    requires Lawful(m)
    ensures Taken(val, Some(val), m) == val
  {
  }

  lemma SettledRow<K(!new), V(!new)>(t: Table<K, V>, items: seq<(K, V)>, m: (V, V) -> V, u: Table<K, V>, i: int)
    requires Lawful(m) && Upserted(t, items, m, u) && 0 <= i < |u.rows|
    requires Find(u.rows, u.rows[i].key) == i
    ensures Taken(u.rows[i].val, Listed(items, u.rows[i].key, m), m) == u.rows[i].val
  {
    hide Find, Listed, Taken, Lawful;
    var x := u.rows[i].key;
    if i < |t.rows| {
      assert OldRow(t, items, m, u, i);
      OldKeys(t, items, m, u);
      FindFirst(t.rows, x, i);
      TakenTwice(t.rows[i].val, Listed(items, x, m), m);
    } else {
      assert NewRow(t, items, m, u, i);
      TakenSame(u.rows[i].val, m);
    }
  }

  /** Upserting the same list a second time changes nothing: no row is created, none gets another
      value. */
  lemma PutAllTwice<K(!new), V(!new)>(t: Table<K, V>, items: seq<(K, V)>, m: (V, V) -> V)
    requires Lawful(m)
    ensures PutAll(PutAll(t, items, m), items, m) == PutAll(t, items, m)
  {
    hide Find, PutAll, Listed, Taken, Lawful;
    var u := PutAll(t, items, m);
    var w := PutAll(u, items, m);
    PutAllUpserts(t, items, m);
    PutAllUpserts(u, items, m);
    NoNewRows(t, items, m, u, w);
    forall i | 0 <= i < |u.rows|
      ensures w.rows[i] == u.rows[i]
    {
      assert OldRow(u, items, m, w, i);
      if Find(u.rows, u.rows[i].key) == i {
        SettledRow(t, items, m, u, i);
      }
    }
    assert w.rows == u.rows;
  }

  lemma NoNewRows<K(!new), V(!new)>(t: Table<K, V>, items: seq<(K, V)>, m: (V, V) -> V, u: Table<K, V>, w: Table<K, V>)
    requires Upserted(t, items, m, u) && Upserted(u, items, m, w)
    ensures |w.rows| == |u.rows|
  {
    hide Find, Listed, Taken;
    var n := |u.rows|;
    assert |w.rows| > n ==> NewRow(u, items, m, w, n);
    assert |w.rows| > n ==> Find(u.rows, w.rows[n].key) >= 0;
    OldKeys(u, items, m, w);
  }

  /** Unique keys stay unique. */
  lemma UniqueKept<K(!new), V(!new)>(t: Table<K, V>, items: seq<(K, V)>, m: (V, V) -> V)
    requires UniqueKeys(t.rows) && Lawful(m)
    ensures UniqueKeys(PutAll(t, items, m).rows)
  {
    hide Find, PutAll, Listed, Taken, Lawful;
    PutAllUpserts(t, items, m);
    var u := PutAll(t, items, m);
    forall i, j | 0 <= i < j < |u.rows|
      ensures u.rows[i].key != u.rows[j].key
    {
      if j < |t.rows| {
        assert OldRow(t, items, m, u, i) && OldRow(t, items, m, u, j);
      } else {
        assert NewRow(t, items, m, u, j);
      }
    }
  }

  /** A list that says nothing new leaves the table as it is. */
  lemma {:induction false} PutAllStored<K, V>(t: Table<K, V>, items: seq<(K, V)>, m: (V, V) -> V)
    requires forall n :: 0 <= n < |items| ==>
               Find(t.rows, items[n].0) >= 0
               && var val := t.rows[Find(t.rows, items[n].0)].val; m(val, items[n].1) == val
    ensures PutAll(t, items, m) == t
  {
    hide Find;
    if items != [] {
      PutAllStored(t, items[..|items| - 1], m);
      var last := items[|items| - 1];
      var i := Find(t.rows, last.0);
      assert t.rows[i := t.rows[i]] == t.rows;
    }
  }

  /** Rows are appended with fresh ids, in the order listed. */
  lemma {:induction false} InsertAllAppends<K, V>(t: Table<K, V>, items: seq<(K, V)>)
    ensures var u := InsertAll(t, items);
            && |u.rows| == |t.rows| + |items| && u.next == t.next + |items|
            && t.rows <= u.rows
            && forall n :: 0 <= n < |items| ==> u.rows[|t.rows| + n] == Row(t.next + n, items[n].0, items[n].1)
  {
    if items != [] {
      InsertAllAppends(t, items[..|items| - 1]);
    }
  }

  lemma {:induction false} OrderedKept<K, V>(t: Table<K, V>, items: seq<(K, V)>, m: (V, V) -> V)
    requires Ordered(t)
    ensures Ordered(PutAll(t, items, m)) && Ordered(InsertAll(t, items))
  {
    hide Find;
    if items != [] {
      OrderedKept(t, items[..|items| - 1], m);
    }
  }
}
