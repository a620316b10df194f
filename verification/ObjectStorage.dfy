/**
 The in-memory object store: a map from keys to objects, listed a page at a time in
 key order, and the development reset that deletes everything while it lists.
 */
module ObjectStorage {
  import opened Wrappers
  import opened Keyset

  /** Code-point order on strings, which is the order of their UTF-8 bytes. */
  predicate Before(a: string, b: string) {
    if b == "" then false
    else if a == "" then true
    else if a[0] != b[0] then a[0] < b[0]
    else Before(a[1..], b[1..])
  }

  lemma {:induction false} BeforeIrreflexive(a: string)
    ensures !Before(a, a)
  {
    if a != "" { BeforeIrreflexive(a[1..]); }
  }

  lemma {:induction false} BeforeTransitive(a: string, b: string, c: string)
    requires Before(a, b) && Before(b, c)
    ensures Before(a, c)
  {
    if a != "" && a[0] == b[0] && b[0] == c[0] { BeforeTransitive(a[1..], b[1..], c[1..]); }
  }

  lemma {:induction false} BeforeTotal(a: string, b: string)
    ensures a == b || Before(a, b) || Before(b, a)
  {
    if a != "" && b != "" && a[0] == b[0] {
      BeforeTotal(a[1..], b[1..]);
      assert a == [a[0]] + a[1..] && b == [b[0]] + b[1..];
    }
  }

  /** At `n` the texts first differ, and there `a` ends or has the smaller character. */
  predicate FirstDiffer(a: string, b: string, n: nat) {
    && n <= |a| && n < |b| && a[..n] == b[..n]
    && (n < |a| ==> a[n] < b[n])
  }

  /** The dictionary's order. */
  ghost predicate Lexicographic(a: string, b: string) {
    exists n: nat :: FirstDiffer(a, b, n)
  }

  lemma DifferLater(a: string, b: string, n: nat)
    requires a != "" && b != "" && a[0] == b[0]
    ensures FirstDiffer(a, b, n + 1) <==> FirstDiffer(a[1..], b[1..], n)
  {
    if n < |a| && n + 1 < |b| {
      assert a[..n + 1] == [a[0]] + a[1..][..n] && b[..n + 1] == [b[0]] + b[1..][..n];
    }
  }

  lemma DifferFirst(a: string, b: string, n: nat)
    requires a != "" && b != "" && a[0] != b[0]
    ensures FirstDiffer(a, b, n) <==> n == 0 && a[0] < b[0]
  {
    if n > 0 && n <= |a| && n <= |b| { assert a[..n][0] == a[0] && b[..n][0] == b[0]; }
  }

  lemma {:induction false} BeforeIsLexicographic(a: string, b: string)
    ensures Before(a, b) <==> Lexicographic(a, b)
    decreases |a|
  {
    if a == "" || b == "" {
      assert b != "" ==> a == "" ==> FirstDiffer(a, b, 0);
    } else if a[0] != b[0] {
      forall n: nat ensures FirstDiffer(a, b, n) <==> n == 0 && a[0] < b[0] {
        DifferFirst(a, b, n);
      }
      assert a[0] < b[0] ==> FirstDiffer(a, b, 0);
    } else {
      BeforeIsLexicographic(a[1..], b[1..]);
      if Lexicographic(a, b) {
        var n: nat :| FirstDiffer(a, b, n);
        assert n > 0;
        DifferLater(a, b, n - 1);
      }
      if Lexicographic(a[1..], b[1..]) {
        var n: nat :| FirstDiffer(a[1..], b[1..], n);
        DifferLater(a, b, n);
      }
    }
  }

  lemma AscendingIsLexicographic(keys: seq<string>)
    requires Ascending(Before, keys)
    ensures forall i, j | 0 <= i < j < |keys| :: Lexicographic(keys[i], keys[j])
  {
    forall i, j | 0 <= i < j < |keys| ensures Lexicographic(keys[i], keys[j]) {
      BeforeIsLexicographic(keys[i], keys[j]);
    }
  }

  lemma KeysAreOrdered()
    ensures StrictOrder(Before)
  {
    forall a: string, b: string, c: string
      ensures !Before(a, a)
      ensures Before(a, b) && Before(b, c) ==> Before(a, c)
      ensures a == b || Before(a, b) || Before(b, a)
    {
      BeforeIrreflexive(a);
      BeforeTotal(a, b);
      if Before(a, b) && Before(b, c) { BeforeTransitive(a, b, c); }
    }
  }

  datatype Stored = Stored(bytes: seq<bv8>, lastModified: int)

  datatype ObjectInfo = ObjectInfo(key: string, lastModified: int)

  datatype ObjectPage = ObjectPage(objects: seq<ObjectInfo>, next: Option<string>)

  datatype StorageError = Unavailable

  function KeysOf(objects: seq<ObjectInfo>): (keys: seq<string>)
    ensures |keys| == |objects|
    ensures forall i | 0 <= i < |keys| :: keys[i] == objects[i].key
  {
    seq(|objects|, i requires 0 <= i < |objects| => objects[i].key)
  }

  function Describe(keys: seq<string>, store: map<string, Stored>): (objects: seq<ObjectInfo>)
    requires forall k | k in keys :: k in store
    ensures |objects| == |keys|
    ensures forall i | 0 <= i < |keys| :: objects[i] == ObjectInfo(keys[i], store[keys[i]].lastModified)
  {
    seq(|keys|, i requires 0 <= i < |keys| => ObjectInfo(keys[i], store[keys[i]].lastModified))
  }

  lemma PlaceAscends(sorted: seq<string>, key: string, i: nat)
    requires Ascending(Before, sorted) && key !in sorted && i <= |sorted|
    requires forall j | 0 <= j < i :: Before(sorted[j], key)
    requires i < |sorted| ==> !Before(sorted[i], key)
    ensures Ascending(Before, sorted[..i] + [key] + sorted[i..])
  {
    var r := sorted[..i] + [key] + sorted[i..];
    forall j | i <= j < |sorted| ensures Before(key, sorted[j]) {
      BeforeTotal(key, sorted[i]);
      if j > i { BeforeTransitive(key, sorted[i], sorted[j]); }
    }
    forall a, b | 0 <= a < b < |r| ensures Before(r[a], r[b]) {
      assert r[a] == if a < i then sorted[a] else if a == i then key else sorted[a - 1];
      assert r[b] == if b < i then sorted[b] else if b == i then key else sorted[b - 1];
    }
  }

  /** Put a key into its place of an ascending list. */
  method Place(sorted: seq<string>, key: string) returns (r: seq<string>)
    requires Ascending(Before, sorted) && key !in sorted
    ensures Ascending(Before, r)
    ensures forall k :: k in r <==> k in sorted || k == key
    ensures |r| == |sorted| + 1
  {
    var i := 0;
    while i < |sorted| && Before(sorted[i], key)
      invariant 0 <= i <= |sorted|
      invariant forall j | 0 <= j < i :: Before(sorted[j], key)
    {
      i := i + 1;
    }
    PlaceAscends(sorted, key, i);
    r := sorted[..i] + [key] + sorted[i..];
    assert sorted == sorted[..i] + sorted[i..];
  }

  /** The keys of a set, sorted. */
  method SortKeys(keys: set<string>) returns (sorted: seq<string>)
    ensures Ascending(Before, sorted)
    ensures forall k :: k in sorted <==> k in keys
    ensures |sorted| == |keys|
  {
    var rest := keys;
    sorted := [];
    while rest != {}
      invariant rest <= keys
      invariant Ascending(Before, sorted)
      invariant forall k :: k in sorted <==> k in keys - rest
      invariant |sorted| == |keys| - |rest|
      decreases rest
    {
      var key :| key in rest;
      sorted := Place(sorted, key);
      rest := rest - {key};
    }
  }

  /** Keep the first page of the sorted keys and say where to resume. */
  method Truncate(ghost present: set<string>, after: Option<string>, keys: seq<string>, pageSize: nat)
    returns (page: seq<string>, next: Option<string>)
    requires Ascending(Before, keys)
    requires forall k :: k in keys <==> k in present && Above(Before, after, k)
    ensures IsExactPage(Before, present, after, page, next)
    ensures pageSize == 0 ==> next.None?
    ensures pageSize > 0 ==> |page| <= pageSize && (next.Some? ==> |page| == pageSize)
  {
    page, next := keys, None;
    if pageSize != 0 && |keys| > pageSize {
      CutPage(Before, present, after, keys, pageSize);
      page := keys[..pageSize];
      next := Some(page[|page| - 1]);
    }
  }

  class TestObjectStorage {
    var store: map<string, Stored>
    var listFails: bool
    /** Keys per page; 0 means everything in one page. */
    var pageSize: nat

    constructor ()
      ensures store == map[] && !listFails && pageSize == 0
    {
      store, listFails, pageSize := map[], false, 0;
    }

    method Put(key: string, bytes: seq<bv8>, now: int)
      modifies this`store
      ensures store == old(store)[key := Stored(bytes, now)]
    {
      store := store[key := Stored(bytes, now)];
    }

    method Delete(key: string)
      modifies this`store
      ensures store == old(store) - {key}
    {
      store := store - {key};
    }

    ghost function Under(prefix: string): (keys: set<string>)
      reads this
    {
      set k | k in store && prefix <= k
    }

    /** One page of the keys under `prefix`, strictly after `after`. */
    method List(prefix: string, after: Option<string>) returns (r: Result<ObjectPage, StorageError>)
      ensures r.Failure? <==> listFails
      ensures r.Success? ==>
        && IsExactPage(Before, Under(prefix), after, KeysOf(r.value.objects), r.value.next)
        && (forall i, j | 0 <= i < j < |KeysOf(r.value.objects)| ::
              Lexicographic(KeysOf(r.value.objects)[i], KeysOf(r.value.objects)[j]))
        && (forall o | o in r.value.objects :: o.key in store && o.lastModified == store[o.key].lastModified)
        && (pageSize == 0 ==> r.value.next.None?)
        && (pageSize > 0 ==> |r.value.objects| <= pageSize && (r.value.next.Some? ==> |r.value.objects| == pageSize))
    {
      if listFails {
        return Failure(Unavailable);
      }
      var matching := set k | k in store && prefix <= k && (after.None? || Before(after.value, k));
      var keys := SortKeys(matching);
      var page, next := Truncate(Under(prefix), after, keys, pageSize);
      r := Success(ObjectPage(Describe(page, store), next));
      assert KeysOf(r.value.objects) == page;
      AscendingIsLexicographic(page);
    }
  }

  /** A list walk under which keys come and go: a key that is there throughout is listed
      exactly once. */
  lemma ListedExactlyOnce(fetches: seq<Fetch<string>>, key: string)
    requires Walk(Before, None, fetches) && Complete(fetches)
    requires forall f | f in fetches :: key in f.present
    ensures key in Listed(fetches)
    ensures forall i, j | 0 <= i < j < |Listed(fetches)| :: Listed(fetches)[i] != Listed(fetches)[j]
  {
    KeysAreOrdered();
    PresentThroughoutIsListed(Before, None, fetches, key);
    WalkAscends(Before, None, fetches);
  }

  /** Everything deleted earlier comes before what was listed after it. */
  lemma Joined(done: seq<string>, keys: seq<string>, after: Option<string>)
    requires Ascending(Before, done) && Ascending(Before, keys)
    requires forall k | k in done :: after.Some? && (k == after.value || Before(k, after.value))
    requires forall k | k in keys :: Above(Before, after, k)
    ensures Ascending(Before, done + keys)
  {
    KeysAreOrdered();
    var all := done + keys;
    forall i, j | 0 <= i < j < |all| ensures Before(all[i], all[j]) {
      if i < |done| <= j {
        assert all[i] in done && all[j] in keys;
      }
    }
  }

  lemma LastIsGreatest(keys: seq<string>, k: string)
    requires Ascending(Before, keys) && k in keys
    ensures k == keys[|keys| - 1] || Before(k, keys[|keys| - 1])
  {
  }

  /** Delete the objects of one page. */
  method DeletePage(storage: TestObjectStorage, objects: seq<ObjectInfo>) returns (count: nat)
    modifies storage`store
    ensures count == |objects|
    ensures storage.store.Keys == set k | k in old(storage.store).Keys && k !in KeysOf(objects)
    ensures forall k | k in storage.store :: storage.store[k] == old(storage.store)[k]
  {
    count := 0;
    ghost var keys := KeysOf(objects);
    for i := 0 to |objects|
      invariant count == i
      invariant forall k :: k in storage.store <==> k in old(storage.store) && k !in keys[..i]
      invariant forall k | k in storage.store :: storage.store[k] == old(storage.store)[k]
    {
      storage.Delete(objects[i].key);
      count := count + 1;
      assert keys[..i + 1] == keys[..i] + [keys[i]];
    }
    assert keys[..|objects|] == keys;
  }

  /** What one round of the reset keeps: the log is in order, everything is either still
      stored or logged, and what is logged lies at or before the cursor. */
  ghost predicate Progress(initial: set<string>, stored: set<string>, deleted: seq<string>, after: Option<string>) {
    && Ascending(Before, deleted)
    && (forall k :: k in initial <==> k in stored || k in deleted)
    && (forall k | k in stored :: Above(Before, after, k))
    && (forall k | k in deleted :: after.Some? && (k == after.value || Before(k, after.value)))
  }

  lemma PageProgress(initial: set<string>, stored: set<string>, deleted: seq<string>, after: Option<string>,
                     keys: seq<string>, next: Option<string>)
    requires Progress(initial, stored, deleted, after)
    requires IsExactPage(Before, stored, after, keys, next)
    ensures Ascending(Before, deleted + keys)
    ensures forall k :: k in initial <==> k in stored || k in deleted + keys
    ensures next.None? ==> forall k | k in stored :: k in keys
    ensures next.Some? ==>
      && next.value in keys
      && (set k | k in stored && k !in keys) < stored
      && Progress(initial, (set k | k in stored && k !in keys), deleted + keys, next)
  {
    Joined(deleted, keys, after);
    if next.Some? {
      var left := set k | k in stored && k !in keys;
      forall k | k in left ensures Above(Before, next, k) {
        assert Above(Before, after, k);
      }
      forall k | k in deleted + keys ensures k == next.value || Before(k, next.value) {
        KeysAreOrdered();
        if k in keys { LastIsGreatest(keys, k); } else { assert Above(Before, after, next.value); }
      }
    }
  }

  lemma NoPrefixMeansAll(storage: TestObjectStorage)
    ensures storage.Under("") == storage.store.Keys
  {
  }

  /** One round of the reset: list a page and delete what is on it. */
  method ResetRound(storage: TestObjectStorage, after: Option<string>, ghost initial: set<string>, ghost deleted: seq<string>)
    returns (r: Result<ObjectPage, StorageError>, count: nat, ghost log: seq<string>)
    requires Progress(initial, storage.store.Keys, deleted, after)
    modifies storage`store
    ensures r.Failure? <==> storage.listFails
    ensures r.Failure? ==> storage.store == old(storage.store) && log == deleted
    ensures r.Success? ==>
      && |log| == |deleted| + count && Ascending(Before, log)
      && (forall k :: k in initial <==> k in storage.store.Keys || k in log)
      && (r.value.next.None? ==> storage.store.Keys == {})
      && (r.value.next.Some? ==>
            && Progress(initial, storage.store.Keys, log, r.value.next)
            && storage.store.Keys < old(storage.store.Keys))
  {
    count, log := 0, deleted;
    r := storage.List("", after);
    if r.Failure? {
      return;
    }
    ghost var keys, stored := KeysOf(r.value.objects), storage.store.Keys;
    NoPrefixMeansAll(storage);
    PageProgress(initial, stored, deleted, after, keys, r.value.next);
    count := DeletePage(storage, r.value.objects);
    log := deleted + keys;
  }

  /** Delete every object of the bucket, listing and deleting page by page.  `deleted`
      is the log of the keys deleted. */
  method ResetAllData(storage: TestObjectStorage) returns (r: Result<nat, StorageError>, ghost deleted: seq<string>)
    modifies storage`store
    ensures r.Failure? <==> storage.listFails
    ensures r.Failure? ==> storage.store == old(storage.store) && deleted == []
    ensures r.Success? ==>
      && storage.store == map[]
      && r.value == |old(storage.store)| == |deleted|
      && Ascending(Before, deleted)
      && forall k :: k in deleted <==> k in old(storage.store)
  {
    ghost var initial := storage.store.Keys;
    deleted := [];
    var total, after := 0, None;
    while true
      invariant total == |deleted|
      invariant Progress(initial, storage.store.Keys, deleted, after)
      invariant storage.listFails ==> deleted == [] && storage.store == old(storage.store)
      decreases storage.store.Keys
    {
      var page, count;
      page, count, deleted := ResetRound(storage, after, initial, deleted);
      if page.Failure? {
        return Failure(page.error), deleted;
      }
      total := total + count;
      if page.value.next.None? {
        break;
      }
      after := page.value.next;
    }
    LogIsComplete(initial, deleted);
    r := Success(total);
  }

  lemma LogIsComplete(initial: set<string>, deleted: seq<string>)
    requires Ascending(Before, deleted)
    requires forall k :: k in initial <==> k in deleted
    ensures |deleted| == |initial|
  {
    KeysAreOrdered();
    AscendingSize(Before, deleted, initial);
  }
}
