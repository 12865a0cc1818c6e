/** Sorting a chunk table by index, and why an accepted table has no gap (js/core/manifest.js, js/core/validate.js). */
module ChunkTable {
  import opened Validate

  /** The stable sort of the stream, one entry at a time. */
  function Insert(sorted: seq<Entry>, e: Entry): seq<Entry> {
    if sorted == [] || sorted[|sorted| - 1].index <= e.index then sorted + [e]
    else Insert(sorted[..|sorted| - 1], e) + [sorted[|sorted| - 1]]
  }

  function Sorted(entries: seq<Entry>): (sorted: seq<Entry>)
    ensures |sorted| == |entries|
  {
    if entries == [] then []
    else
      InsertKeepsAll(Sorted(entries[..|entries| - 1]), entries[|entries| - 1]);
      Insert(Sorted(entries[..|entries| - 1]), entries[|entries| - 1])
  }

  predicate GapFree(entries: seq<Entry>) {
    forall i :: 0 <= i < |entries| ==> entries[i].index == i
  }

  predicate Increasing(entries: seq<Entry>) {
    forall i, k :: 0 <= i < k < |entries| ==> entries[i].index < entries[k].index
  }

  lemma InsertKeepsAll(sorted: seq<Entry>, e: Entry)
    ensures |Insert(sorted, e)| == |sorted| + 1
    ensures multiset(Insert(sorted, e)) == multiset(sorted) + multiset{e}
  {
    if sorted != [] && sorted[|sorted| - 1].index > e.index {
      InsertKeepsAll(sorted[..|sorted| - 1], e);
      assert sorted == sorted[..|sorted| - 1] + [sorted[|sorted| - 1]];
    }
  }

  lemma {:induction false} SortKeepsAll(entries: seq<Entry>)
    ensures multiset(Sorted(entries)) == multiset(entries)
  {
    if entries != [] {
      var front, e := entries[..|entries| - 1], entries[|entries| - 1];
      SortKeepsAll(front);
      InsertKeepsAll(Sorted(front), e);
      assert entries == front + [e];
    }
  }

  lemma {:induction false} InsertIncreases(sorted: seq<Entry>, e: Entry)
    requires Increasing(sorted) && forall i :: 0 <= i < |sorted| ==> sorted[i].index != e.index
    ensures Increasing(Insert(sorted, e))
  {
    if sorted != [] && sorted[|sorted| - 1].index > e.index {
      var front, last := sorted[..|sorted| - 1], sorted[|sorted| - 1];
      InsertIncreases(front, e);
      var inserted := Insert(front, e);
      forall i | 0 <= i < |inserted| ensures inserted[i].index < last.index {
        InsertKeepsAll(front, e);
        assert inserted[i] in multiset(inserted);
        assert inserted[i] in front || inserted[i] == e;
      }
    }
  }

  lemma {:induction false} SortIncreases(entries: seq<Entry>)
    requires DistinctIndices(entries)
    ensures Increasing(Sorted(entries))
  {
    if entries != [] {
      var front, e := entries[..|entries| - 1], entries[|entries| - 1];
      SortIncreases(front);
      SortKeepsAll(front);
      forall i | 0 <= i < |front| ensures Sorted(front)[i].index != e.index {
        assert Sorted(front)[i] in multiset(front);
        var k :| 0 <= k < |front| && front[k] == Sorted(front)[i];
        assert entries[k].index != entries[|front|].index;
      }
      InsertIncreases(Sorted(front), e);
    }
  }

  /** Counting up from the bottom and down from the top leaves exactly one place for each index. */
  lemma {:induction false} IndexAtLeast(entries: seq<Entry>, i: nat)
    requires Increasing(entries) && i < |entries|
    ensures entries[i].index >= i
  {
    if i > 0 {
      IndexAtLeast(entries, i - 1);
      assert entries[i - 1].index < entries[i].index;
    }
  }

  lemma {:induction false} IndexAtMost(entries: seq<Entry>, i: nat)
    requires Increasing(entries) && i < |entries|
    requires forall k :: 0 <= k < |entries| ==> entries[k].index < |entries|
    ensures entries[i].index <= i
    decreases |entries| - i
  {
    if i + 1 < |entries| {
      IndexAtMost(entries, i + 1);
      assert entries[i].index < entries[i + 1].index;
    }
  }

  /** A table of n entries with distinct indices below n holds each index once: sorting it leaves no gap. */
  lemma AcceptedTableIsPermutation(entries: seq<Entry>)
    requires DistinctIndices(entries) && forall i :: 0 <= i < |entries| ==> entries[i].index < |entries|
    ensures GapFree(Sorted(entries)) && multiset(Sorted(entries)) == multiset(entries)
  {
    var sorted := Sorted(entries);
    SortKeepsAll(entries);
    SortIncreases(entries);
    forall k | 0 <= k < |sorted| ensures sorted[k].index < |sorted| {
      assert sorted[k] in multiset(entries);
    }
    forall i | 0 <= i < |sorted| ensures sorted[i].index == i {
      IndexAtLeast(sorted, i);
      IndexAtMost(sorted, i);
    }
  }

  /** So the stream's own check for gaps never refuses a table that the validator accepted. */
  lemma DescribedTableHasNoGap(items: seq<Json.Json>, chunks: seq<Entry>, h: Header, limits: Limits)
    requires h.totalChunks > 0 && TableDescribes(items, chunks, h, limits)
    ensures |Sorted(chunks)| == h.totalChunks && GapFree(Sorted(chunks))
  {
    forall i | 0 <= i < |chunks| ensures chunks[i].index < |chunks| {
      assert ValidateEntry(items[i], h.totalChunks, h.chunkSize, limits) == Wrappers.Ok(chunks[i]);
    }
    AcceptedTableIsPermutation(chunks);
  }

  // ----- Reordering a table -----

  predicate IsPermutation(order: seq<nat>) {
    (forall i :: 0 <= i < |order| ==> order[i] < |order|)
    && forall i, k :: 0 <= i < k < |order| ==> order[i] != order[k]
  }

  function Reordered(entries: seq<Entry>, order: seq<nat>): seq<Entry>
    requires |order| == |entries| && IsPermutation(order)
  {
    seq(|order|, i requires 0 <= i < |order| => entries[order[i]])
  }

  /** However a gap-free table is shuffled, sorting gives it back. */
  lemma SortUndoesReordering(entries: seq<Entry>, order: seq<nat>)
    requires |order| == |entries| && IsPermutation(order) && GapFree(entries)
    ensures Sorted(Reordered(entries, order)) == entries
  {
    var table := Reordered(entries, order);
    forall i, k | 0 <= i < k < |table| ensures table[i].index != table[k].index {
      assert order[i] != order[k];
    }
    AcceptedTableIsPermutation(table);
    var sorted := Sorted(table);
    forall i | 0 <= i < |sorted| ensures sorted[i] == entries[i] {
      assert sorted[i] in multiset(table);
      var k :| 0 <= k < |table| && table[k] == sorted[i];
      assert table[k] == entries[order[k]] && entries[order[k]].index == order[k];
    }
  }
}
