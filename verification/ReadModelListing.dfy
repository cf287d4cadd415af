/** Filtered, sorted and paged listing of a collection. The records come in the order in which the
    in-memory map holds them. */
module ReadModelListing {
  import opened Options
  import opened StorageRecords
  import opened ReadModelSort
  import opened StableSort

  type Filter = Option<ReadModelRecord -> bool>

  datatype QueryOptions = QueryOptions(
    cacheKey: Option<string>, filter: Filter, sort: seq<SortTerm>, limit: Option<nat>, offset: Option<nat>)

  predicate Selects(r: ReadModelRecord, collection: string, cacheKey: Option<string>, filter: Filter) {
    && r.collection == collection
    && (cacheKey.Some? ==> cacheKey.value in r.cacheKeys)
    && (filter.Some? ==> filter.value(r))
  }

  function Selected(records: seq<ReadModelRecord>, collection: string, cacheKey: Option<string>,
      filter: Filter): seq<ReadModelRecord> {
    if records == [] then []
    else
      var init, last := Selected(records[..|records| - 1], collection, cacheKey, filter), records[|records| - 1];
      if Selects(last, collection, cacheKey, filter) then init + [last] else init
  }

  lemma SelectedSnoc(records: seq<ReadModelRecord>, i: nat, collection: string, cacheKey: Option<string>,
      filter: Filter)
    requires i < |records|
    ensures Selected(records[..i + 1], collection, cacheKey, filter)
         == if Selects(records[i], collection, cacheKey, filter)
            then Selected(records[..i], collection, cacheKey, filter) + [records[i]]
            else Selected(records[..i], collection, cacheKey, filter)
  {
    assert records[..i + 1][..i] == records[..i];
  }

  /** Every list is selected from piece by piece, and so in order. */
  lemma {:induction false} SelectedInOrder(first: seq<ReadModelRecord>, second: seq<ReadModelRecord>,
      collection: string, cacheKey: Option<string>, filter: Filter)
    ensures Selected(first + second, collection, cacheKey, filter)
         == Selected(first, collection, cacheKey, filter) + Selected(second, collection, cacheKey, filter)
  {
    if second == [] {
      assert first + second == first;
    } else {
      var n, all := |second| - 1, first + second;
      SelectedInOrder(first, second[..n], collection, cacheKey, filter);
      SelectedSnoc(second, n, collection, cacheKey, filter);
      SelectedSnoc(all, |first| + n, collection, cacheKey, filter);
      assert second[..n + 1] == second && all[..|first| + n] == first + second[..n];
      assert all[..|first| + n + 1] == all && all[|first| + n] == second[n];
    }
  }

  /** A record is selected if it is of the collection, holds the cache key and passes the filter, where these are
      given. */
  lemma SelectedAlone(r: ReadModelRecord, collection: string, cacheKey: Option<string>, filter: Filter)
    ensures Selected([r], collection, cacheKey, filter)
         == if r.collection == collection && (forall k | cacheKey == Some(k) :: k in r.cacheKeys)
               && (forall f | filter == Some(f) :: f(r))
            then [r] else []
  {
    assert [r][..0] == [];
  }

  /** `slice(offset)` and `slice(0, limit)`, each only when given. */
  function Page<T>(list: seq<T>, offset: Option<nat>, limit: Option<nat>): seq<T> {
    var rest := if offset.None? then list else if offset.value < |list| then list[offset.value..] else [];
    if limit.None? || |rest| <= limit.value then rest else rest[..limit.value]
  }

  /** The page begins at the offset, or with the list, and ends after as many records as the limit says, or with
      the list. */
  lemma PageIsPart<T>(list: seq<T>, offset: Option<nat>, limit: Option<nat>, i: nat)
    ensures var from := if offset.Some? then offset.value else 0;
            && (i < |Page(list, offset, limit)| <==>
                  from + i < |list| && forall n | limit == Some(n) :: i < n)
            && (i < |Page(list, offset, limit)| ==> Page(list, offset, limit)[i] == list[from + i])
  {
  }

  method GetReadModelsByCollection(env: Env, all: seq<ReadModelRecord>, collection: string, options: QueryOptions)
    returns (records: seq<ReadModelRecord>)
    ensures records == Page(
              SortReadModelRecords(env, Selected(all, collection, options.cacheKey, options.filter), options.sort),
              options.offset, options.limit)
  {
    records := [];
    for i := 0 to |all|
      invariant records == Selected(all[..i], collection, options.cacheKey, options.filter)
    {
      SelectedSnoc(all, i, collection, options.cacheKey, options.filter);
      if all[i].collection != collection { continue; }
      if options.cacheKey.Some? && options.cacheKey.value !in all[i].cacheKeys { continue; }
      if options.filter.Some? && !options.filter.value(all[i]) { continue; }
      records := records + [all[i]];
    }
    assert all[..|all|] == all;
    if options.sort != [] {
      records := SortReadModelRecords(env, records, options.sort);
    }
    if options.offset.Some? {
      records := if options.offset.value < |records| then records[options.offset.value..] else [];
    }
    if options.limit.Some? && options.limit.value < |records| {
      records := records[..options.limit.value];
    }
  }

  /** `cacheKey && ...`: an empty cache key counts as none. */
  function CountedKey(cacheKey: Option<string>): Option<string> {
    if cacheKey == Some("") then None else cacheKey
  }

  method CountReadModels(all: seq<ReadModelRecord>, collection: string, cacheKey: Option<string>,
      filter: Filter) returns (count: nat)
    ensures count == |Selected(all, collection, CountedKey(cacheKey), filter)|
  {
    count := 0;
    for i := 0 to |all|
      invariant count == |Selected(all[..i], collection, CountedKey(cacheKey), filter)|
    {
      SelectedSnoc(all, i, collection, CountedKey(cacheKey), filter);
      if all[i].collection != collection { continue; }
      if cacheKey.Some? && cacheKey.value != "" && cacheKey.value !in all[i].cacheKeys { continue; }
      if filter.Some? && !filter.value(all[i]) { continue; }
      count := count + 1;
    }
    assert all[..|all|] == all;
  }

  lemma {:induction false} FewerSelected(all: seq<ReadModelRecord>, collection: string, filter: Filter)
    ensures |Selected(all, collection, Some(""), filter)| <= |Selected(all, collection, None, filter)|
    ensures |Selected(all, collection, Some(""), filter)| == |Selected(all, collection, None, filter)|
            <==> forall r | r in Selected(all, collection, None, filter) :: "" in r.cacheKeys
  {
    if all != [] {
      var init, last := all[..|all| - 1], all[|all| - 1];
      FewerSelected(init, collection, filter);
      var was, now := Selected(init, collection, None, filter), Selected(all, collection, None, filter);
      assert forall r :: r in now <==> r in was || (r == last && Selects(last, collection, None, filter));
    }
  }

  /** The count is the length of the unpaged list, save that an empty cache key counts records that
      the list leaves out, if there are any. */
  lemma CountIsListLength(env: Env, all: seq<ReadModelRecord>, collection: string, options: QueryOptions)
    ensures
      var counted := Selected(all, collection, CountedKey(options.cacheKey), options.filter);
      var listed := SortReadModelRecords(env, Selected(all, collection, options.cacheKey, options.filter),
          options.sort);
      |counted| == |listed| <==>
        (options.cacheKey != Some("") || forall r | r in Selected(all, collection, None, options.filter) ::
            "" in r.cacheKeys)
  {
    var list := Selected(all, collection, options.cacheKey, options.filter);
    StableSortedMultiset(list, NotAfter(env, options.sort));
    assert |StableSorted(list, NotAfter(env, options.sort))| == |multiset(list)|;
    FewerSelected(all, collection, options.filter);
  }

  // ---- Paging ----

  /** The first pages, one after another. */
  function Pages<T>(list: seq<T>, size: nat, n: nat): seq<T> {
    if n == 0 then [] else Pages(list, size, n - 1) + Page(list, Some((n - 1) * size), Some(size))
  }

  lemma PageIs<T>(list: seq<T>, from: nat, size: nat)
    ensures Page(list, Some(from), Some(size))
         == if |list| <= from then [] else if from + size <= |list| then list[from..from + size] else list[from..]
  {
    if from < |list| && from + size <= |list| {
      assert list[from..][..size] == list[from..from + size];
    }
  }

  function Prefix<T>(list: seq<T>, n: nat): seq<T> {
    if n <= |list| then list[..n] else list
  }

  lemma PrefixExtended<T>(list: seq<T>, from: nat, size: nat)
    ensures Prefix(list, from) + Page(list, Some(from), Some(size)) == Prefix(list, from + size)
  {
    PageIs(list, from, size);
  }

  lemma {:induction false} PagesArePrefix<T>(list: seq<T>, size: nat, n: nat)
    ensures Pages(list, size, n) == Prefix(list, n * size)
  {
    if n > 0 {
      PagesArePrefix(list, size, n - 1);
      PrefixExtended(list, (n - 1) * size, size);
      assert n * size == (n - 1) * size + size;
    }
  }

  /** Enough pages of positive size give the whole list, each element once. */
  lemma PagesConcatenate<T>(list: seq<T>, size: nat, n: nat)
    requires size > 0
    ensures Pages(list, size, n) == list <==> n * size >= |list|
  {
    PagesArePrefix(list, size, n);
  }

  /** SQL takes an offset only together with a limit. */
  function SqlPage<T>(list: seq<T>, offset: Option<nat>, limit: Option<nat>): seq<T> {
    if limit.None? then list else Page(list, offset, limit)
  }

  lemma OffsetNeedsLimit<T>(list: seq<T>, offset: Option<nat>, limit: Option<nat>)
    ensures SqlPage(list, offset, limit) == Page(list, offset, limit)
            <==> limit.Some? || offset.None? || offset.value == 0 || list == []
  {
    if limit.None? && offset.Some? {
      if offset.value == 0 {
        assert list[0..] == list;
      } else if list != [] {
        assert |Page(list, offset, limit)| < |list|;
      }
    }
  }
}
