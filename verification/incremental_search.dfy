/**
  The viewer's search state and the four transitions that drive it: one
  batch of the incremental scan per frame, the "Search" button, the "Clear"
  button and the reset on a new generation. The text of document `i` is
  given as `doc(i)`, standing for the store's `get_document`.
*/
module IncrementalSearch {
  /** Documents examined per frame. */
  const SEARCH_BATCH_SIZE: nat := 1000

  /** `query` occurs in `text` starting at `k`. */
  predicate OccursAt(text: string, query: string, k: nat)
  {
    k + |query| <= |text| && text[k .. k + |query|] == query
  }

  /** Literal, case-sensitive substring containment (`find` does not return npos). */
  predicate Contains(text: string, query: string): (r: bool)
    ensures query == [] ==> r
    ensures r ==> |query| <= |text|
  {
    assert query == [] ==> OccursAt(text, query, 0);
    exists k: nat | k <= |text| :: OccursAt(text, query, k)
  }

  function Min(a: nat, b: nat): nat
  {
    if a <= b then a else b
  }

  /** The documents in [lo, hi) whose text contains the query, in ascending order. */
  function Matches(doc: nat -> string, query: string, lo: nat, hi: nat): (r: seq<nat>)
    ensures |r| <= hi - lo || hi <= lo
    ensures forall j :: 0 <= j < |r| ==> lo <= r[j] < hi
    decreases hi
  {
    if hi <= lo then []
    else Matches(doc, query, lo, hi - 1) + (if Contains(doc(hi - 1), query) then [hi - 1] else [])
  }

  /** The unfiltered view: every document, in order. */
  function AllIndices(total: nat): (r: seq<nat>)
    ensures |r| == total && forall k :: 0 <= k < total ==> r[k] == k
  {
    seq(total, k => k)
  }

  /** A document is listed exactly when it lies in the range and matches; the list is strictly increasing. */
  lemma {:induction false} MatchesExactly(doc: nat -> string, query: string, lo: nat, hi: nat)
    ensures forall i :: i in Matches(doc, query, lo, hi) <==> lo <= i < hi && Contains(doc(i), query)
    ensures forall a, b :: 0 <= a < b < |Matches(doc, query, lo, hi)| ==>
      Matches(doc, query, lo, hi)[a] < Matches(doc, query, lo, hi)[b]
    decreases hi
  {
    if hi > lo {
      MatchesExactly(doc, query, lo, hi - 1);
      var prefix := Matches(doc, query, lo, hi - 1);
      var m := Matches(doc, query, lo, hi);
      assert m == prefix + (if Contains(doc(hi - 1), query) then [hi - 1] else []);
      forall a, b | 0 <= a < b < |m|
        ensures m[a] < m[b]
      {
        if b == |prefix| {
          assert m[a] == prefix[a] && prefix[a] in prefix;
        }
      }
    }
  }

  /** Scanning [lo, mid) and then [mid, hi) finds what one scan of [lo, hi) finds. */
  lemma {:induction false} MatchesSplit(doc: nat -> string, query: string, lo: nat, mid: nat, hi: nat)
    requires lo <= mid <= hi
    ensures Matches(doc, query, lo, mid) + Matches(doc, query, mid, hi) == Matches(doc, query, lo, hi)
    decreases hi
  {
    if hi > mid {
      MatchesSplit(doc, query, lo, mid, hi - 1);
    }
  }

  /** The results of scanning from `cursor` to `total` in batches of `batch` documents. */
  function BatchedScan(doc: nat -> string, query: string, cursor: nat, total: nat, batch: nat): seq<nat>
    requires batch > 0
    decreases total - cursor
  {
    if cursor >= total then []
    else
      var next := Min(cursor + batch, total);
      Matches(doc, query, cursor, next) + BatchedScan(doc, query, next, total, batch)
  }

  /** Whatever the batch size, the batched scan yields the one-pass scan. */
  lemma {:induction false} BatchedScanIsFullScan(doc: nat -> string, query: string, cursor: nat, total: nat, batch: nat)
    requires batch > 0 && cursor <= total
    ensures BatchedScan(doc, query, cursor, total, batch) == Matches(doc, query, cursor, total)
    decreases total - cursor
  {
    if cursor < total {
      var next := Min(cursor + batch, total);
      BatchedScanIsFullScan(doc, query, next, total, batch);
      MatchesSplit(doc, query, cursor, next, total);
    }
  }

  /**
    The panel's search state. `activeSearch` is the query last submitted (""
    when cleared); `query` is the one being scanned for.
  */
  class SearchState {
    var filtered: seq<nat>
    var cursor: nat
    var inProgress: bool
    var query: string
    var activeSearch: string
    var lastGeneration: nat

    /**
      The displayed list agrees with the corpus `doc` of `total` documents:
      during a scan it holds the matches among the documents examined so
      far; otherwise the full result of the last search, or every document.
    */
    ghost predicate Consistent(doc: nat -> string, total: nat)
      reads this
    {
      && (inProgress ==>
            query != "" && activeSearch == query && cursor <= total
            && filtered == Matches(doc, query, 0, cursor))
      && (!inProgress ==>
            filtered == if activeSearch == "" then AllIndices(total) else Matches(doc, activeSearch, 0, total))
    }

    /** The function-local statics before the first frame. */
    constructor ()
      ensures filtered == [] && cursor == 0 && !inProgress
      ensures query == "" && activeSearch == "" && lastGeneration == 0
    {
      filtered := [];
      cursor := 0;
      inProgress := false;
      query := "";
      activeSearch := "";
      lastGeneration := 0;
    }

    /** Refills the view with every document. */
    method ShowAll(total: nat)
      modifies this`filtered
      ensures filtered == AllIndices(total)
    {
      filtered := [];
      for i := 0 to total
        invariant filtered == AllIndices(i)
      {
        filtered := filtered + [i];
      }
    }

    /** Back to the unfiltered view, with no scan and no query. */
    method ClearSearch(total: nat)
      modifies this
      ensures filtered == AllIndices(total) && !inProgress && cursor == 0
      ensures query == "" && activeSearch == ""
      ensures lastGeneration == old(lastGeneration)
      ensures forall doc :: Consistent(doc, total)
    {
      activeSearch := "";
      filtered := [];
      inProgress := false;
      cursor := 0;
      query := "";
      ShowAll(total);
    }

    /** A new generation discards whatever the view held for the old corpus. */
    method SyncGeneration(currentGeneration: nat, total: nat)
      modifies this
      ensures lastGeneration == currentGeneration
      ensures currentGeneration == old(lastGeneration) ==> unchanged(this)
      ensures currentGeneration != old(lastGeneration) ==>
        filtered == AllIndices(total) && !inProgress && cursor == 0
        && query == "" && activeSearch == ""
        && forall doc :: Consistent(doc, total)
    {
      if currentGeneration != lastGeneration {
        lastGeneration := currentGeneration;
        ClearSearch(total);
      }
    }

    /**
      One frame's batch: examines documents [cursor, min(cursor + 1000, total)),
      appends the matching ones in ascending order, moves the cursor to the
      end of the batch and stops the scan when the cursor reaches `total`.
    */
    method Step(doc: nat -> string, total: nat)
      modifies this`filtered, this`cursor, this`inProgress
      ensures !old(inProgress) ==> unchanged(this)
      ensures old(inProgress) ==>
        && cursor == Min(old(cursor) + SEARCH_BATCH_SIZE, total)
        && filtered == old(filtered) + Matches(doc, query, old(cursor), cursor)
        && inProgress == (cursor < total)
      ensures old(inProgress) && old(cursor) < total ==> cursor > old(cursor)
      ensures old(Consistent(doc, total)) ==> Consistent(doc, total)
    {
      if inProgress {
        var endIndex := Min(cursor + SEARCH_BATCH_SIZE, total);
        ghost var start := cursor;
        ghost var before := filtered;
        var i := cursor;
        while i < endIndex
          invariant start <= i <= endIndex || (i == start && endIndex < start)
          invariant filtered == before + Matches(doc, query, start, i)
          invariant inProgress && cursor == start
        {
          if Contains(doc(i), query) {
            filtered := filtered + [i];
          }
          i := i + 1;
        }
        if endIndex < start {
          assert Matches(doc, query, start, endIndex) == [];
        }
        cursor := endIndex;
        if cursor >= total {
          inProgress := false;
        }
        if old(Consistent(doc, total)) {
          MatchesSplit(doc, query, 0, start, cursor);
        }
      }
    }

    /**
      The "Search" button. It is disabled while a scan runs, so it then does
      nothing. An empty query shows every document; any other query starts a
      scan from document 0 with an empty result list.
    */
    method SubmitSearch(searchText: string, total: nat)
      modifies this
      ensures old(inProgress) ==> unchanged(this)
      ensures !old(inProgress) ==> activeSearch == searchText && lastGeneration == old(lastGeneration)
      ensures !old(inProgress) && searchText == "" ==>
        filtered == AllIndices(total) && !inProgress && query == old(query) && cursor == old(cursor)
      ensures !old(inProgress) && searchText != "" ==>
        filtered == [] && inProgress && query == searchText && cursor == 0
      ensures !old(inProgress) ==> forall doc :: Consistent(doc, total)
    {
      if inProgress {
        return;
      }
      activeSearch := searchText;
      filtered := [];
      if searchText == "" {
        ShowAll(total);
      } else {
        query := searchText;
        cursor := 0;
        inProgress := true;
      }
    }

    /**
      One frame of the panel, in the original's order: nothing unless the
      store is ready; then the generation check, one scan batch, and the
      buttons the user pressed this frame.
    */
    method Frame(ready: bool, generation: nat, total: nat, doc: nat -> string,
                 searchPressed: bool, searchText: string, clearPressed: bool)
      modifies this
      ensures !ready ==> unchanged(this)
      ensures ready ==> lastGeneration == generation
      ensures ready && clearPressed ==>
        filtered == AllIndices(total) && !inProgress && cursor == 0 && query == "" && activeSearch == ""
      ensures ready && !searchPressed && !clearPressed && generation == old(lastGeneration) && old(inProgress) ==>
        cursor == Min(old(cursor) + SEARCH_BATCH_SIZE, total) && inProgress == (cursor < total)
        && query == old(query) && activeSearch == old(activeSearch)
        && filtered == old(filtered) + Matches(doc, query, old(cursor), cursor)
      ensures (ready && searchPressed && !clearPressed && searchText != "" &&
        (generation != old(lastGeneration) || !old(inProgress) || Min(old(cursor) + SEARCH_BATCH_SIZE, total) >= total)) ==>
        inProgress && cursor == 0 && filtered == [] && query == searchText && activeSearch == searchText
      ensures (ready && generation == old(lastGeneration) && !old(inProgress) && !searchPressed && !clearPressed) ==>
        unchanged(this)
      ensures (ready && generation != old(lastGeneration) && !searchPressed && !clearPressed) ==>
        filtered == AllIndices(total) && !inProgress && cursor == 0 && query == "" && activeSearch == ""
      ensures (ready && searchPressed && !clearPressed && searchText == "" &&
        (generation != old(lastGeneration) || !old(inProgress) || Min(old(cursor) + SEARCH_BATCH_SIZE, total) >= total)) ==>
        filtered == AllIndices(total) && !inProgress && activeSearch == ""
      ensures (ready && !clearPressed && generation == old(lastGeneration) && old(inProgress) &&
        Min(old(cursor) + SEARCH_BATCH_SIZE, total) < total) ==>
        cursor == Min(old(cursor) + SEARCH_BATCH_SIZE, total) && inProgress
        && query == old(query) && activeSearch == old(activeSearch)
        && filtered == old(filtered) + Matches(doc, query, old(cursor), cursor)
      ensures ready && (old(Consistent(doc, total)) || generation != old(lastGeneration)) ==>
        Consistent(doc, total)
    {
      if !ready {
        return;
      }
      SyncGeneration(generation, total);
      Step(doc, total);
      if searchPressed {
        SubmitSearch(searchText, total);
      }
      if clearPressed {
        ClearSearch(total);
      }
    }
  }

  /**
    A scan started on a consistent state and run until it stops lists
    exactly the matching documents among all `total`, in ascending order.
  */
  lemma FinishedScanIsComplete(doc: nat -> string, query: string, total: nat, filtered: seq<nat>)
    requires filtered == Matches(doc, query, 0, total)
    ensures forall i: nat :: i in filtered <==> i < total && Contains(doc(i), query)
    ensures forall a, b :: 0 <= a < b < |filtered| ==> filtered[a] < filtered[b]
    ensures filtered == BatchedScan(doc, query, 0, total, SEARCH_BATCH_SIZE)
  {
    MatchesExactly(doc, query, 0, total);
    BatchedScanIsFullScan(doc, query, 0, total, SEARCH_BATCH_SIZE);
  }
}
