/** Ascending key sequences: sorting, and the prefix scan over an ordered map. */
module OrderedKeys {
  import opened Text

  ghost predicate Ascending(keys: seq<string>) {
    forall i, j :: 0 <= i < j < |keys| ==> Less(keys[i], keys[j])
  }

  ghost predicate Distinct(keys: seq<string>) {
    forall i, j :: 0 <= i < j < |keys| ==> keys[i] != keys[j]
  }

  function Insert(key: string, keys: seq<string>): seq<string> {
    if keys == [] || Less(key, keys[0]) then [key] + keys else [keys[0]] + Insert(key, keys[1..])
  }

  function Sort(keys: seq<string>): seq<string> {
    if keys == [] then [] else Insert(keys[0], Sort(keys[1..]))
  }

  lemma {:induction false} InsertContents(key: string, keys: seq<string>)
    ensures forall k :: k in Insert(key, keys) <==> k == key || k in keys
  {
    if !(keys == [] || Less(key, keys[0])) {
      InsertContents(key, keys[1..]);
      assert keys == [keys[0]] + keys[1..];
    }
  }

  lemma {:induction false} InsertAscending(key: string, keys: seq<string>)
    requires Ascending(keys) && key !in keys
    ensures Ascending(Insert(key, keys))
  {
    if keys == [] {
    } else if Less(key, keys[0]) {
      forall j | 0 < j < |keys| ensures Less(key, keys[j]) { LessTransitive(key, keys[0], keys[j]); }
    } else {
      LessTotal(key, keys[0]);
      InsertAscending(key, keys[1..]);
      InsertContents(key, keys[1..]);
      var rest := Insert(key, keys[1..]);
      forall j | 0 <= j < |rest| ensures Less(keys[0], rest[j]) { assert rest[j] in rest; }
    }
  }

  /** Sorting distinct keys gives those keys, ascending. */
  lemma {:induction false} SortSorts(keys: seq<string>)
    requires Distinct(keys)
    ensures Ascending(Sort(keys))
    ensures forall k :: k in Sort(keys) <==> k in keys
  {
    if keys != [] {
      SortSorts(keys[1..]);
      InsertAscending(keys[0], Sort(keys[1..]));
      InsertContents(keys[0], Sort(keys[1..]));
      assert keys == [keys[0]] + keys[1..];
    }
  }

  ghost predicate IsLeast(key: string, keys: set<string>) {
    key in keys && forall k :: k in keys && k != key ==> Less(key, k)
  }

  lemma {:induction false} LeastExists(keys: set<string>) returns (least: string)
    requires keys != {}
    ensures IsLeast(least, keys)
  {
    var k :| k in keys;
    if keys == {k} {
      least := k;
    } else {
      var rest := LeastExists(keys - {k});
      LessTotal(k, rest);
      if Less(k, rest) {
        least := k;
        forall j | j in keys && j != k ensures Less(k, j) {
          if j != rest { LessTransitive(k, rest, j); }
        }
      } else {
        least := rest;
      }
    }
  }

  /** The keys in ascending order, as an ordered map iterates over them. */
  ghost function InOrder(keys: set<string>): (r: seq<string>)
    ensures Ascending(r) && forall k :: k in r <==> k in keys
  {
    if keys == {} then []
    else
      assert exists k :: IsLeast(k, keys) by { var k := LeastExists(keys); }
      var k :| IsLeast(k, keys);
      [k] + InOrder(keys - {k})
  }

  // ---- range(prefix..).take_while(starts_with prefix) ----

  function From(keys: seq<string>, prefix: string): seq<string> {
    if keys == [] || !Less(keys[0], prefix) then keys else From(keys[1..], prefix)
  }

  function WhilePrefixed(keys: seq<string>, prefix: string): seq<string> {
    if keys == [] || !(prefix <= keys[0]) then [] else [keys[0]] + WhilePrefixed(keys[1..], prefix)
  }

  function PrefixScan(keys: seq<string>, prefix: string): seq<string> {
    WhilePrefixed(From(keys, prefix), prefix)
  }

  /** The reference: test every key. */
  function PrefixFilter(keys: seq<string>, prefix: string): seq<string> {
    if keys == [] then []
    else if prefix <= keys[0] then [keys[0]] + PrefixFilter(keys[1..], prefix)
    else PrefixFilter(keys[1..], prefix)
  }

  lemma {:induction false} NothingAfterPrefix(keys: seq<string>, prefix: string)
    requires Ascending(keys) && (keys == [] || (!Less(keys[0], prefix) && !(prefix <= keys[0])))
    ensures PrefixFilter(keys, prefix) == []
  {
    if keys != [] && |keys| > 1 {
      if prefix <= keys[1] { PrefixRangeIsContiguous(prefix, keys[0], keys[1]); }
      if Less(keys[1], prefix) { LessTransitive(keys[0], keys[1], prefix); }
      NothingAfterPrefix(keys[1..], prefix);
    }
  }

  lemma {:induction false} WhilePrefixedFilters(keys: seq<string>, prefix: string)
    requires Ascending(keys) && (keys == [] || !Less(keys[0], prefix))
    ensures WhilePrefixed(keys, prefix) == PrefixFilter(keys, prefix)
  {
    if keys != [] {
      if !(prefix <= keys[0]) {
        NothingAfterPrefix(keys, prefix);
      } else if |keys| > 1 {
        if Less(keys[1], prefix) { LessTransitive(keys[0], keys[1], prefix); }
        WhilePrefixedFilters(keys[1..], prefix);
      }
    }
  }

  /** On ascending keys the bounded scan finds exactly what a full filter finds. */
  lemma {:induction false} PrefixScanFilters(keys: seq<string>, prefix: string)
    requires Ascending(keys)
    ensures PrefixScan(keys, prefix) == PrefixFilter(keys, prefix)
  {
    if keys == [] || !Less(keys[0], prefix) {
      WhilePrefixedFilters(keys, prefix);
    } else {
      if prefix <= keys[0] { PrefixIsNotAbove(prefix, keys[0]); }
      PrefixScanFilters(keys[1..], prefix);
    }
  }

  lemma {:induction false} PrefixFilterContents(keys: seq<string>, prefix: string)
    ensures forall k :: k in PrefixFilter(keys, prefix) <==> k in keys && prefix <= k
  {
    if keys != [] {
      PrefixFilterContents(keys[1..], prefix);
      assert keys == [keys[0]] + keys[1..];
    }
  }

  lemma {:induction false} PrefixFilterAscending(keys: seq<string>, prefix: string)
    requires Ascending(keys)
    ensures Ascending(PrefixFilter(keys, prefix))
  {
    if keys != [] {
      PrefixFilterAscending(keys[1..], prefix);
      PrefixFilterContents(keys[1..], prefix);
      var rest := PrefixFilter(keys[1..], prefix);
      forall j | 0 <= j < |rest| ensures Less(keys[0], rest[j]) { assert rest[j] in rest; }
    }
  }

  /** The keys of an ordered map, ascending. */
  method KeysInOrder<V>(data: map<string, V>) returns (keys: seq<string>)
    ensures Ascending(keys) && forall k :: k in keys <==> k in data
  {
    var left, unordered: seq<string> := data.Keys, [];
    while left != {}
      invariant Distinct(unordered) && (forall k :: k in data <==> k in unordered || k in left)
      invariant forall k :: k in unordered ==> k !in left
      decreases left
    {
      var k :| k in left;
      unordered, left := unordered + [k], left - {k};
    }
    SortSorts(unordered);
    keys := Sort(unordered);
  }

  /** The serving-path scan of the applied state: exactly the keys with the prefix, in
      order. */
  method ListPrefix<V>(data: map<string, V>, prefix: string) returns (keys: seq<string>)
    ensures Ascending(keys) && forall k :: k in keys <==> k in data && prefix <= k
  {
    var all := KeysInOrder(data);
    keys := PrefixScan(all, prefix);
    PrefixScanFilters(all, prefix);
    PrefixFilterContents(all, prefix);
    PrefixFilterAscending(all, prefix);
  }
}
