/**
  The document store: a raw text buffer, an ordered index of byte ranges into
  it, a readiness flag, a generation counter and a bounded LRU cache of
  extracted documents. Every method is treated as one atomic step; the mutex
  and the atomics of the original are not modelled.
*/
module DataStore {
  import opened Wrappers

  /** Capacity of the LRU cache. */
  const CACHE_SIZE: nat := 100

  /** A half-open range [byteOffset, byteOffset + byteLength) of the raw buffer. */
  datatype DocumentIndex = DocumentIndex(byteOffset: nat, byteLength: nat)

  /** One element of the recency list: a document index and its text. */
  type CacheEntry = (nat, string)

  // ---------------------------------------------------------------------------
  // The recency list as a value
  // ---------------------------------------------------------------------------

  /** The document indices held by a recency list. */
  function KeysOf(list: seq<CacheEntry>): set<nat>
  {
    if list == [] then {} else {list[0].0} + KeysOf(list[1..])
  }

  /** No document index occurs twice in the list. */
  predicate Distinct(list: seq<CacheEntry>)
  {
    list == [] || (list[0].0 !in KeysOf(list[1..]) && Distinct(list[1..]))
  }

  /** The list with the entry for `key` taken out (what `splice` lifts out of place). */
  function Without(list: seq<CacheEntry>, key: nat): (r: seq<CacheEntry>)
    ensures forall e :: e in r ==> e.0 != key && e in list
  {
    if list == [] then []
    else if list[0].0 == key then Without(list[1..], key)
    else [list[0]] + Without(list[1..], key)
  }

  /** A cache hit: the entry for `key` moves to the front, everything else keeps its order. */
  function Promoted(list: seq<CacheEntry>, key: nat, text: string): (r: seq<CacheEntry>)
    ensures |r| >= 1 && r[0] == (key, text)
    ensures forall j :: 1 <= j < |r| ==> r[j].0 != key && r[j] in list
  {
    [(key, text)] + Without(list, key)
  }

  /** A cache miss: the back entry is dropped when the list is full, then the new entry goes in front. */
  function Inserted(list: seq<CacheEntry>, key: nat, text: string): (r: seq<CacheEntry>)
    ensures |r| >= 1 && r[0] == (key, text)
    ensures |r| == if |list| >= CACHE_SIZE then |list| else |list| + 1
    ensures forall j :: 1 <= j < |r| ==> r[j] == list[j - 1]
  {
    [(key, text)] + (if |list| >= CACHE_SIZE then list[..|list| - 1] else list)
  }

  /** The position of `key` in the list (what the map's iterator designates). */
  function PositionOf(list: seq<CacheEntry>, key: nat): (p: nat)
    requires key in KeysOf(list)
    ensures p < |list| && list[p].0 == key
  {
    if list[0].0 == key then 0 else 1 + PositionOf(list[1..], key)
  }

  lemma {:induction false} KeysOfContains(list: seq<CacheEntry>, e: CacheEntry)
    requires e in list
    ensures e.0 in KeysOf(list)
  {
    if list[0] != e {
      assert e in list[1..];
      KeysOfContains(list[1..], e);
    }
  }

  /** A key that no entry carries is not among the keys. */
  lemma {:induction false} KeysOfExact(list: seq<CacheEntry>, key: nat)
    requires forall e :: e in list ==> e.0 != key
    ensures key !in KeysOf(list)
  {
    if list != [] {
      assert list[0] in list;
      forall e | e in list[1..]
        ensures e.0 != key
      {
        assert e in list;
      }
      KeysOfExact(list[1..], key);
    }
  }

  lemma {:induction false} KeysOfConcat(a: seq<CacheEntry>, b: seq<CacheEntry>)
    ensures KeysOf(a + b) == KeysOf(a) + KeysOf(b)
  {
    if a == [] {
      assert a + b == b;
    } else {
      assert (a + b)[0] == a[0] && (a + b)[1..] == a[1..] + b;
      KeysOfConcat(a[1..], b);
    }
  }

  /** Dropping the back entry of a duplicate-free list removes exactly its key. */
  lemma {:induction false} DropLast(list: seq<CacheEntry>)
    requires Distinct(list) && list != []
    ensures Distinct(list[..|list| - 1])
    ensures KeysOf(list[..|list| - 1]) == KeysOf(list) - {list[|list| - 1].0}
  {
    var n := |list|;
    if n > 1 {
      var rest := list[1..];
      DropLast(rest);
      assert list[..n - 1] == [list[0]] + rest[..|rest| - 1];
      assert rest == rest[..|rest| - 1] + [rest[|rest| - 1]];
      KeysOfConcat(rest[..|rest| - 1], [rest[|rest| - 1]]);
      assert list[..n - 1][1..] == rest[..|rest| - 1];
    }
  }

  /** Taking out one key removes exactly that key, keeps the list duplicate-free and invents no entry. */
  lemma {:induction false} WithoutProperties(list: seq<CacheEntry>, key: nat)
    ensures KeysOf(Without(list, key)) == KeysOf(list) - {key}
    ensures Distinct(list) ==> Distinct(Without(list, key))
    ensures forall e :: e in Without(list, key) ==> e in list
    ensures Distinct(list) && key in KeysOf(list) ==> |Without(list, key)| == |list| - 1
  {
    if list != [] {
      WithoutProperties(list[1..], key);
      if list[0].0 == key && Distinct(list) {
        WithoutAbsent(list[1..], key);
      }
      if list[0].0 != key {
        assert ([list[0]] + Without(list[1..], key))[1..] == Without(list[1..], key);
      }
    }
  }

  /** Moving an entry to the front changes neither the entries held nor their number. */
  lemma {:induction false} WithoutMultiset(list: seq<CacheEntry>, p: nat)
    requires Distinct(list) && p < |list|
    ensures multiset(Without(list, list[p].0)) + multiset{list[p]} == multiset(list)
  {
    var key := list[p].0;
    if p == 0 {
      WithoutAbsent(list[1..], key);
      assert list == [list[0]] + list[1..];
    } else {
      WithoutMultiset(list[1..], p - 1);
      assert list[1..][p - 1] == list[p];
      KeysOfContains(list[1..], list[p]);
      assert list[0].0 != key;
      assert Without(list, key) == [list[0]] + Without(list[1..], key);
      assert multiset(Without(list, key)) == multiset{list[0]} + multiset(Without(list[1..], key));
      assert list == [list[0]] + list[1..];
      assert multiset(list) == multiset{list[0]} + multiset(list[1..]);
    }
  }

  /** Taking out a key that is not there changes nothing. */
  lemma {:induction false} WithoutAbsent(list: seq<CacheEntry>, key: nat)
    requires key !in KeysOf(list)
    ensures Without(list, key) == list
  {
    if list != [] {
      WithoutAbsent(list[1..], key);
      assert list == [list[0]] + list[1..];
    }
  }

  /** A hit keeps the cache's entries (as a multiset), its size and its set of keys. */
  lemma PromotedKeepsEntries(list: seq<CacheEntry>, p: nat)
    requires Distinct(list) && p < |list|
    ensures multiset(Promoted(list, list[p].0, list[p].1)) == multiset(list)
    ensures |Promoted(list, list[p].0, list[p].1)| == |list|
    ensures KeysOf(Promoted(list, list[p].0, list[p].1)) == KeysOf(list)
    ensures Distinct(Promoted(list, list[p].0, list[p].1))
  {
    var key := list[p].0;
    WithoutMultiset(list, p);
    WithoutProperties(list, key);
    KeysOfContains(list, list[p]);
  }

  /**
    A miss on a key not yet cached: the list stays within CACHE_SIZE and
    duplicate-free, the new key is in front, and the only key lost is the
    back (least recently used) one, and only when the list was full.
  */
  lemma InsertedKeys(list: seq<CacheEntry>, key: nat, text: string)
    requires Distinct(list) && |list| <= CACHE_SIZE && key !in KeysOf(list)
    ensures |Inserted(list, key, text)| <= CACHE_SIZE
    ensures Distinct(Inserted(list, key, text))
    ensures Inserted(list, key, text)[0] == (key, text)
    ensures KeysOf(Inserted(list, key, text)) ==
            {key} + (if |list| >= CACHE_SIZE then KeysOf(list) - {list[|list| - 1].0} else KeysOf(list))
  {
    if |list| >= CACHE_SIZE {
      DropLast(list);
    }
    var r := Inserted(list, key, text);
    assert r[1..] == (if |list| >= CACHE_SIZE then list[..|list| - 1] else list);
  }

  /** The recency list after misses on the entries of `docs`, in that order. */
  function AfterMisses(list: seq<CacheEntry>, docs: seq<CacheEntry>): seq<CacheEntry>
  {
    if docs == [] then list
    else
      var last := docs[|docs| - 1];
      Inserted(AfterMisses(list, docs[..|docs| - 1]), last.0, last.1)
  }

  /** Below capacity, misses from an empty cache only stack up: the latest entry is in front. */
  lemma {:induction false} MissesBelowCapacity(docs: seq<CacheEntry>)
    requires |docs| <= CACHE_SIZE
    ensures |AfterMisses([], docs)| == |docs|
    ensures forall k :: 0 <= k < |docs| ==> AfterMisses([], docs)[k] == docs[|docs| - 1 - k]
  {
    if docs != [] {
      MissesBelowCapacity(docs[..|docs| - 1]);
    }
  }

  /**
    LRU eviction: after misses on CACHE_SIZE + 1 distinct documents starting
    from an empty cache, the first one accessed is gone and the other
    CACHE_SIZE are all still cached.
  */
  lemma LeastRecentlyUsedIsEvicted(docs: seq<CacheEntry>)
    requires |docs| == CACHE_SIZE + 1 && Distinct(docs)
    ensures docs[0].0 !in KeysOf(AfterMisses([], docs))
    ensures forall j :: 1 <= j < |docs| ==> docs[j] in AfterMisses([], docs)
  {
    var front := docs[..CACHE_SIZE];
    var stacked := AfterMisses([], front);
    MissesBelowCapacity(front);
    var r := AfterMisses([], docs);
    assert docs[..|docs| - 1] == front;
    assert r == Inserted(stacked, docs[CACHE_SIZE].0, docs[CACHE_SIZE].1);
    assert |r| == CACHE_SIZE && r[0] == docs[CACHE_SIZE];
    assert forall q :: 1 <= q < CACHE_SIZE ==> r[q] == stacked[q - 1] == front[CACHE_SIZE - q];
    forall j | 1 <= j < |docs|
      ensures docs[j] in r
    {
      if j < CACHE_SIZE {
        assert r[CACHE_SIZE - j] == front[j];
      }
    }
    forall e | e in r
      ensures e.0 != docs[0].0
    {
      var q :| 0 <= q < |r| && r[q] == e;
      var d := if q == 0 then CACHE_SIZE else CACHE_SIZE - q;
      assert e == docs[d] && docs[d] in docs[1..];
      KeysOfContains(docs[1..], docs[d]);
    }
    KeysOfExact(r, docs[0].0);
  }

  // ---------------------------------------------------------------------------
  // Buffer, index and cache as values
  // ---------------------------------------------------------------------------

  /**
    The range of document `i` lies inside the buffer (or there is nothing to
    slice). The original slices without checking this; the model makes it an
    explicit assumption.
  */
  predicate RangeFits(raw: Option<string>, index: seq<DocumentIndex>, i: nat)
  {
    i < |index| && raw.Some? ==> index[i].byteOffset + index[i].byteLength <= |raw.value|
  }

  /** The text of document `i` as buffer and index define it: the slice, or "" when there is none. */
  function Extract(raw: Option<string>, index: seq<DocumentIndex>, i: nat): (text: string)
    requires RangeFits(raw, index, i)
    ensures i < |index| && raw.Some? ==>
      (|text| == index[i].byteLength
       && forall k :: 0 <= k < |text| ==> text[k] == raw.value[index[i].byteOffset + k])
    ensures !(i < |index| && raw.Some?) ==> text == ""
  {
    if i < |index| && raw.Some? then
      raw.value[index[i].byteOffset .. index[i].byteOffset + index[i].byteLength]
    else ""
  }

  /** Bounded, duplicate-free, and the map holds exactly the list's entries. */
  predicate CacheValid(list: seq<CacheEntry>, m: map<nat, string>)
  {
    && |list| <= CACHE_SIZE
    && Distinct(list)
    && m.Keys == KeysOf(list)
    && forall e :: e in list ==> e.0 in m && m[e.0] == e.1
  }

  /** Every cached text is the text that buffer and index give for its document. */
  predicate CacheCoherent(list: seq<CacheEntry>, raw: Option<string>, index: seq<DocumentIndex>)
  {
    forall e :: e in list ==>
      e.0 < |index| && raw.Some? && RangeFits(raw, index, e.0) && e.1 == Extract(raw, index, e.0)
  }

  /**
    Cache hit: promoting the entry keeps the cache valid and coherent, and
    the text the map hands out is the text of the document (transparency).
  */
  lemma HitPreserves(list: seq<CacheEntry>, m: map<nat, string>, i: nat,
                     raw: Option<string>, index: seq<DocumentIndex>)
    requires CacheValid(list, m) && i in m
    ensures CacheValid(Promoted(list, i, m[i]), m)
    ensures multiset(Promoted(list, i, m[i])) == multiset(list)
    ensures CacheCoherent(list, raw, index) ==>
      CacheCoherent(Promoted(list, i, m[i]), raw, index)
      && RangeFits(raw, index, i) && m[i] == Extract(raw, index, i)
  {
    var p := PositionOf(list, i);
    PromotedKeepsEntries(list, p);
    WithoutProperties(list, i);
    var r := Promoted(list, i, m[i]);
    forall e | e in r
      ensures e in list
    {
      if e != r[0] {
        assert e in r[1..];
      }
    }
  }

  /**
    Cache miss on a document that is not cached: inserting it (with eviction
    of the back entry when full, from list and map alike) keeps the cache
    valid, and coherent when the inserted text is the document's text.
  */
  lemma MissPreserves(list: seq<CacheEntry>, m: map<nat, string>, i: nat, doc: string,
                      raw: Option<string>, index: seq<DocumentIndex>)
    requires CacheValid(list, m) && i !in m
    ensures CacheValid(Inserted(list, i, doc), EvictedMap(list, m)[i := doc])
    ensures CacheCoherent(list, raw, index) && i < |index| && raw.Some?
            && RangeFits(raw, index, i) && doc == Extract(raw, index, i) ==>
      CacheCoherent(Inserted(list, i, doc), raw, index)
  {
    InsertedKeys(list, i, doc);
    var kept := if |list| >= CACHE_SIZE then list[..|list| - 1] else list;
    var r := Inserted(list, i, doc);
    assert r == [(i, doc)] + kept;
    if |list| >= CACHE_SIZE {
      DropLast(list);
      forall e | e in kept
        ensures e.0 != list[|list| - 1].0
      {
        KeysOfContains(kept, e);
      }
    }
    forall e | e in r
      ensures e == (i, doc) || e in kept
    {
      if e != r[0] {
        assert e in r[1..];
      }
    }
  }

  /** The map after the eviction step of a miss. */
  function EvictedMap(list: seq<CacheEntry>, m: map<nat, string>): (r: map<nat, string>)
    ensures forall k :: k in r ==> k in m && r[k] == m[k]
    ensures |list| >= CACHE_SIZE ==> list[|list| - 1].0 !in r
    ensures |list| < CACHE_SIZE ==> r == m
  {
    if |list| >= CACHE_SIZE && list != [] then m - {list[|list| - 1].0} else m
  }

  // ---------------------------------------------------------------------------
  // The store
  // ---------------------------------------------------------------------------

  class JsonDataStore {
    /** The raw buffer; None when no corpus is loaded. */
    var rawData: Option<string>
    /** One range per document, in document order. */
    var index: seq<DocumentIndex>
    var isReady: bool
    /** Incremented by every reset. */
    var generation: nat
    /** Recency list, most recently used first. */
    var cacheList: seq<CacheEntry>
    /** Document index to the text of its entry in `cacheList`. */
    var cacheMap: map<nat, string>

    /** Structural invariant of the cache: bounded, list and map agree, no duplicates. */
    ghost predicate Valid()
      reads this
    {
      CacheValid(cacheList, cacheMap)
    }

    /** The cache only holds texts that the current buffer and index give. */
    ghost predicate Coherent()
      reads this
    {
      CacheCoherent(cacheList, rawData, index)
    }

    /** Document `i` has a range and there is a buffer to slice. */
    predicate Present(i: nat)
      reads this
    {
      i < |index| && rawData.Some?
    }

    predicate InBounds(i: nat)
      reads this
    {
      RangeFits(rawData, index, i)
    }

    /** The text of document `i`, ignoring the cache. */
    function Document(i: nat): string
      reads this
      requires InBounds(i)
    {
      Extract(rawData, index, i)
    }

    function DocumentCount(): nat
      reads this
    {
      |index|
    }

    /** A fresh store: not ready, generation 0, no buffer, no ranges, empty cache. */
    constructor ()
      ensures Valid() && Coherent()
      ensures !isReady && generation == 0
      ensures rawData == None && index == []
      ensures cacheList == [] && cacheMap == map[]
    {
      rawData := None;
      index := [];
      isReady := false;
      generation := 0;
      cacheList := [];
      cacheMap := map[];
    }

    /** Drops the corpus and the cache, clears readiness and starts a new generation. */
    method Reset()
      modifies this
      ensures Valid() && Coherent()
      ensures rawData == None && index == [] && cacheList == [] && cacheMap == map[]
      ensures !isReady
      ensures generation == old(generation) + 1
    {
      rawData := None;
      index := [];
      cacheList := [];
      cacheMap := map[];
      isReady := false;
      generation := generation + 1;
    }

    /** Installs a new buffer; the index, the cache, readiness and the generation are left alone. */
    method SetRawData(data: string)
      modifies this`rawData
      ensures rawData == Some(data)
      ensures old(cacheList) == [] ==> Coherent()
    {
      rawData := Some(data);
    }

    /** Appends one range; nothing else changes. */
    method AddDocumentIndex(offset: nat, length: nat)
      modifies this`index
      ensures index == old(index) + [DocumentIndex(offset, length)]
      ensures DocumentCount() == old(DocumentCount()) + 1
      ensures old(Coherent()) ==> Coherent()
    {
      ghost var before := index;
      index := index + [DocumentIndex(offset, length)];
      assert forall i :: 0 <= i < |before| ==> index[i] == before[i];
    }

    /** Publishes the corpus to readers. */
    method SetComplete()
      modifies this`isReady
      ensures isReady
    {
      isReady := true;
    }

    method GetDocumentCount() returns (n: nat)
      ensures n == |index|
    {
      n := |index|;
    }

    method GetIsReady() returns (ready: bool)
      ensures ready == isReady
    {
      ready := isReady;
    }

    method GetGeneration() returns (g: nat)
      ensures g == generation
    {
      g := generation;
    }

    /**
      Returns the text of document `i`: from the cache when it is there
      (moving it to the front), otherwise sliced from the buffer and
      inserted in front, evicting the least recently used entry when full.
      An index without a range, or a store without a buffer, gives "".
    */
    method GetDocument(i: nat) returns (doc: string)
      requires Valid()
      requires i !in cacheMap ==> InBounds(i)
      modifies this`cacheList, this`cacheMap
      ensures Valid()
      ensures i in old(cacheMap) ==>
        doc == old(cacheMap)[i] && cacheList == Promoted(old(cacheList), i, doc)
        && cacheMap == old(cacheMap)
      ensures i !in old(cacheMap) && !Present(i) ==>
        doc == "" && cacheList == old(cacheList) && cacheMap == old(cacheMap)
      ensures i !in old(cacheMap) && Present(i) ==>
        doc == Document(i) && cacheList == Inserted(old(cacheList), i, doc)
        && cacheMap == EvictedMap(old(cacheList), old(cacheMap))[i := doc]
      ensures old(Coherent()) ==> Coherent() && InBounds(i) && doc == Document(i)
    {
      if i in cacheMap {
        doc := cacheMap[i];
        HitPreserves(cacheList, cacheMap, i, rawData, index);
        cacheList := Promoted(cacheList, i, doc);
        return;
      }
      if i >= |index| || rawData.None? {
        return "";
      }
      doc := rawData.value[index[i].byteOffset .. index[i].byteOffset + index[i].byteLength];
      AddToCache(i, doc);
    }

    /** Inserts a document that is not cached yet, evicting the back entry when the cache is full. */
    method AddToCache(i: nat, doc: string)
      requires Valid() && i !in cacheMap
      modifies this`cacheList, this`cacheMap
      ensures Valid()
      ensures cacheList == Inserted(old(cacheList), i, doc)
      ensures cacheMap == EvictedMap(old(cacheList), old(cacheMap))[i := doc]
      ensures old(Coherent()) && Present(i) && InBounds(i) && doc == Document(i) ==> Coherent()
    {
      MissPreserves(cacheList, cacheMap, i, doc, rawData, index);
      ghost var list0, map0 := cacheList, cacheMap;
      if |cacheList| >= CACHE_SIZE {
        var oldest := cacheList[|cacheList| - 1].0;
        cacheMap := cacheMap - {oldest};
        cacheList := cacheList[..|cacheList| - 1];
      }
      assert cacheMap == EvictedMap(list0, map0);
      assert [(i, doc)] + cacheList == Inserted(list0, i, doc);
      cacheList := [(i, doc)] + cacheList;
      cacheMap := cacheMap[i := doc];
    }
  }
}
