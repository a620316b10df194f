/**
 Keyset paging over any strictly ordered keys: a page is the first keys above a
 cursor, and the next cursor is the last key of the page.  The collection may change
 between two pages.
 */
module Keyset {
  import opened Wrappers

  ghost predicate StrictOrder<K(!new)>(lt: (K, K) -> bool) {
    && (forall a :: !lt(a, a))
    && (forall a, b, c :: lt(a, b) && lt(b, c) ==> lt(a, c))
    && (forall a, b :: a == b || lt(a, b) || lt(b, a))
  }

  predicate Above<K>(lt: (K, K) -> bool, after: Option<K>, key: K) {
    after.Some? ==> lt(after.value, key)
  }

  ghost predicate Ascending<K>(lt: (K, K) -> bool, keys: seq<K>) {
    forall i, j | 0 <= i < j < |keys| :: lt(keys[i], keys[j])
  }

  /** What any store promises: `page` lists keys of `present` above the cursor in ascending
      order, and skips none up to `next`, or none at all when there is no `next`.  A page
      may be empty, and a `next` may be given although nothing is left. */
  ghost predicate IsPage<K>(lt: (K, K) -> bool, present: set<K>, after: Option<K>, page: seq<K>, next: Option<K>) {
    && Ascending(lt, page)
    && (forall k | k in page :: k in present && Above(lt, after, k))
    && (next.None? ==> forall k | k in present && Above(lt, after, k) :: k in page)
    && (next.Some? ==>
          && Above(lt, after, next.value)
          && (forall k | k in page :: k == next.value || lt(k, next.value))
          && (forall k | k in present && Above(lt, after, k) :: k in page || lt(next.value, k)))
  }

  /** Moreover `next` is given exactly when keys remain, and is then the last key listed. */
  ghost predicate IsExactPage<K>(lt: (K, K) -> bool, present: set<K>, after: Option<K>, page: seq<K>, next: Option<K>) {
    && IsPage(lt, present, after, page, next)
    && (next.Some? ==>
          && page != [] && next.value == page[|page| - 1]
          && (exists k :: k in present && lt(next.value, k)))
  }

  /** Cutting the sorted keys above the cursor after `n` of them gives a page. */
  lemma CutPage<K(!new)>(lt: (K, K) -> bool, present: set<K>, after: Option<K>, all: seq<K>, n: nat)
    requires Ascending(lt, all)
    requires forall k :: k in all <==> k in present && Above(lt, after, k)
    requires 0 < n < |all|
    ensures IsExactPage(lt, present, after, all[..n], Some(all[n - 1]))
  {
    forall k | k in present && Above(lt, after, k) ensures k in all[..n] || lt(all[n - 1], k) {
      assert k in all;
    }
    assert all[n] in all;
    assert lt(all[n - 1], all[n]);
  }

  /** One answered request of a walk, with what the collection was at that moment. */
  datatype Fetch<K(==)> = Fetch(present: set<K>, page: seq<K>, next: Option<K>)

  /** A walk asks for the page after the cursor the page before it gave. */
  ghost predicate Walk<K>(lt: (K, K) -> bool, after: Option<K>, fetches: seq<Fetch<K>>)
    decreases |fetches|
  {
    fetches == [] ||
    (&& IsPage(lt, fetches[0].present, after, fetches[0].page, fetches[0].next)
     && (if fetches[0].next.Some? then Walk(lt, fetches[0].next, fetches[1..]) else fetches[1..] == []))
  }

  predicate Complete<K>(fetches: seq<Fetch<K>>) {
    fetches != [] && fetches[|fetches| - 1].next.None?
  }

  function Listed<K>(fetches: seq<Fetch<K>>): seq<K>
    decreases |fetches|
  {
    if fetches == [] then [] else fetches[0].page + Listed(fetches[1..])
  }

  /** The whole walk is in strictly ascending order, so no key is listed twice. */
  lemma {:induction false} WalkAscends<K(!new)>(lt: (K, K) -> bool, after: Option<K>, fetches: seq<Fetch<K>>)
    requires StrictOrder(lt) && Walk(lt, after, fetches)
    ensures Ascending(lt, Listed(fetches))
    ensures forall k | k in Listed(fetches) :: Above(lt, after, k)
    decreases |fetches|
  {
    if fetches != [] {
      var first, rest := fetches[0], Listed(fetches[1..]);
      if first.next.Some? {
        WalkAscends(lt, first.next, fetches[1..]);
        Appended(lt, first.page, rest, first.next.value);
        forall k | k in Listed(fetches) ensures Above(lt, after, k) {
          assert k in first.page || k in rest;
        }
      } else {
        assert Listed(fetches) == first.page;
      }
    }
  }

  lemma Appended<K(!new)>(lt: (K, K) -> bool, page: seq<K>, rest: seq<K>, cursor: K)
    requires StrictOrder(lt) && Ascending(lt, page) && Ascending(lt, rest)
    requires forall k | k in page :: k == cursor || lt(k, cursor)
    requires forall k | k in rest :: lt(cursor, k)
    ensures Ascending(lt, page + rest)
  {
    var all := page + rest;
    forall i, j | 0 <= i < j < |all| ensures lt(all[i], all[j]) {
      if i < |page| <= j {
        assert all[i] in page && all[j] in rest;
      }
    }
  }

  /** A key that is there for the whole walk is listed. */
  lemma {:induction false} PresentThroughoutIsListed<K(!new)>(
      lt: (K, K) -> bool, after: Option<K>, fetches: seq<Fetch<K>>, key: K)
    requires StrictOrder(lt) && Walk(lt, after, fetches) && Complete(fetches)
    requires Above(lt, after, key)
    requires forall f | f in fetches :: key in f.present
    ensures key in Listed(fetches)
    decreases |fetches|
  {
    var first := fetches[0];
    assert first in fetches;
    if key !in first.page {
      assert Complete(fetches[1..]);
      PresentThroughoutIsListed(lt, first.next, fetches[1..], key);
    }
  }

  /** Nothing is listed that was not there when its page was read. */
  lemma {:induction false} ListedWasPresent<K(!new)>(lt: (K, K) -> bool, after: Option<K>, fetches: seq<Fetch<K>>, key: K)
    requires Walk(lt, after, fetches) && key in Listed(fetches)
    ensures exists f :: f in fetches && key in f.present && key in f.page
    decreases |fetches|
  {
    if key in fetches[0].page {
      assert fetches[0] in fetches;
    } else {
      ListedWasPresent(lt, fetches[0].next, fetches[1..], key);
      var f :| f in fetches[1..] && key in f.present && key in f.page;
      assert f in fetches;
    }
  }

  /** Over a collection that stays the same, a complete walk lists exactly its keys in
      ascending order, each once, whatever the sizes of the pages. */
  lemma CompleteWalkListsAll<K(!new)>(lt: (K, K) -> bool, present: set<K>, fetches: seq<Fetch<K>>)
    requires StrictOrder(lt) && Walk(lt, None, fetches) && Complete(fetches)
    requires forall f | f in fetches :: f.present == present
    ensures Ascending(lt, Listed(fetches))
    ensures forall k :: k in Listed(fetches) <==> k in present
    ensures |Listed(fetches)| == |present|
  {
    WalkAscends(lt, None, fetches);
    forall k ensures k in Listed(fetches) <==> k in present {
      if k in present { PresentThroughoutIsListed(lt, None, fetches, k); }
      if k in Listed(fetches) { ListedWasPresent(lt, None, fetches, k); }
    }
    AscendingSize(lt, Listed(fetches), present);
  }

  lemma {:induction false} AscendingSize<K(!new)>(lt: (K, K) -> bool, keys: seq<K>, present: set<K>)
    requires StrictOrder(lt) && Ascending(lt, keys)
    requires forall k :: k in keys <==> k in present
    ensures |keys| == |present|
  {
    if keys == [] {
      assert present == {};
    } else {
      var rest := keys[1..];
      assert keys == [keys[0]] + rest;
      forall i | 0 <= i < |rest| ensures rest[i] != keys[0] {
        assert rest[i] == keys[i + 1];
      }
      AscendingSize(lt, rest, present - {keys[0]});
    }
  }

  ghost function Remaining<K>(lt: (K, K) -> bool, after: Option<K>, present: set<K>): set<K> {
    set k | k in present && Above(lt, after, k)
  }

  /** A walk over a collection that stays the same ends, if every page that is not the
      last one lists its cursor. */
  lemma {:induction false} WalkIsShort<K(!new)>(
      lt: (K, K) -> bool, after: Option<K>, present: set<K>, fetches: seq<Fetch<K>>)
    requires StrictOrder(lt) && Walk(lt, after, fetches)
    requires forall f | f in fetches :: f.present == present && (f.next.Some? ==> f.next.value in f.page)
    ensures |fetches| <= |Remaining(lt, after, present)| + 1
    decreases |fetches|
  {
    if |fetches| > 1 {
      assert fetches[0] in fetches;
      var next := fetches[0].next;
      WalkIsShort(lt, next, present, fetches[1..]);
      assert Remaining(lt, next, present) <= Remaining(lt, after, present) - {next.value};
      Smaller(Remaining(lt, next, present), Remaining(lt, after, present) - {next.value});
    }
  }

  lemma {:induction false} Smaller<K>(a: set<K>, b: set<K>)
    requires a <= b
    ensures |a| <= |b|
  {
    assert b == a + (b - a);
    assert |b| == |a| + |b - a|;
  }
}
