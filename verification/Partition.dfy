/** Greedy partition of an export page list into ingest batches under a canonical byte cap. */
module Partition {
  import opened Canonical

  ghost predicate Fits(batch: seq<Page>, maxBytes: nat) {
    batch != [] && ArrayBytes(batch) <= maxBytes
  }

  /** A lossless split of `pages` into nonempty batches within the cap. */
  ghost predicate IsPartition(batches: seq<seq<Page>>, pages: seq<Page>, maxBytes: nat) {
    && (forall i :: 0 <= i < |batches| ==> Fits(batches[i], maxBytes))
    && Flatten(batches) == pages
  }

  /** No batch could have taken the first page of its successor. */
  ghost predicate Saturated(batches: seq<seq<Page>>, maxBytes: nat) {
    forall i :: 0 <= i < |batches| - 1 && batches[i + 1] != [] ==>
      ArrayBytes(batches[i] + batches[i + 1][..1]) > maxBytes
  }

  ghost predicate Oversized(page: Page, maxBytes: nat) {
    ArrayBytes([page]) > maxBytes
  }

  /** Page after page into the last batch while it fits, else into a new one. */
  ghost function Greedy(pages: seq<Page>, maxBytes: nat): (batches: seq<seq<Page>>)
    ensures pages == [] <==> batches == []
  {
    if pages == [] then []
    else
      var closed, page := Greedy(pages[..|pages| - 1], maxBytes), pages[|pages| - 1];
      if closed != [] && ArrayBytes(closed[|closed| - 1] + [page]) <= maxBytes
      then closed[..|closed| - 1] + [closed[|closed| - 1] + [page]]
      else closed + [[page]]
  }

  lemma GreedyStep(batches: seq<seq<Page>>, batch: seq<Page>, placed: seq<Page>, page: Page, maxBytes: nat)
    requires if placed == [] then batches == [] && batch == [] else Greedy(placed, maxBytes) == batches + [batch]
    ensures if placed != [] && ArrayBytes(batch + [page]) > maxBytes
            then Greedy(placed + [page], maxBytes) == batches + [batch] + [[page]]
            else Greedy(placed + [page], maxBytes) == batches + [batch + [page]]
  {
    hide ArrayBytes;
    assert (placed + [page])[..|placed|] == placed;
  }

  /** The loop state: closed batches, the open one, and the pages already placed. */
  ghost predicate Packing(batches: seq<seq<Page>>, batch: seq<Page>, placed: seq<Page>, maxBytes: nat) {
    && (forall i :: 0 <= i < |batches| ==> Fits(batches[i], maxBytes))
    && (batch != [] ==> Fits(batch, maxBytes))
    && (batch == [] ==> batches == [])
    && Flatten(batches) + batch == placed
    && Saturated(batches + [batch], maxBytes)
  }

  method PartitionPageBatches(pages: seq<Page>, maxBytes: nat)
    returns (batches: seq<seq<Page>>, failed: bool)
    ensures !failed ==> batches == Greedy(pages, maxBytes) && IsPartition(batches, pages, maxBytes)
    ensures !failed ==> forall k :: 0 <= k < |pages| ==> !Oversized(pages[k], maxBytes)
    ensures failed ==> exists k :: 0 <= k < |pages| && Oversized(pages[k], maxBytes)
                                   && (forall i :: 0 <= i < k ==> !Oversized(pages[i], maxBytes))
                                   && IsPartition(batches, pages[..k], maxBytes)
    ensures Saturated(batches, maxBytes)
  {
    hide ArrayBytes, Greedy;
    batches := [];
    var batch: seq<Page> := [];
    var batchBytes := 2;
    ArrayBytesAppend([], Page("", "", 0));
    for k := 0 to |pages|
      invariant batchBytes == ArrayBytes(batch)
      invariant Packing(batches, batch, pages[..k], maxBytes)
      invariant k > 0 ==> Greedy(pages[..k], maxBytes) == batches + [batch]
      invariant k > 0 ==> batch != []
      invariant forall i :: 0 <= i < k ==> !Oversized(pages[i], maxBytes)
    {
      var page := pages[k];
      assert pages[..k + 1] == pages[..k] + [page];
      SinglePageBytes(batch, page);
      GreedyStep(batches, batch, pages[..k], page, maxBytes);
      var candidateBytes := batchBytes + page.encodedBytes + (if batch == [] then 0 else 1);
      if candidateBytes > maxBytes {
        if batch == [] {
          return batches, true;
        }
        CloseBatch(batches, batch, page, pages[..k], maxBytes);
        batches := batches + [batch];
        batch := [];
        batchBytes := 2;
        candidateBytes := batchBytes + page.encodedBytes;
        if candidateBytes > maxBytes {
          return batches, true;
        }
      } else {
        GrowBatch(batches, batch, page, pages[..k], maxBytes);
      }
      FittingPageIsNotOversized(batch, page, maxBytes);
      batch := batch + [page];
      batchBytes := candidateBytes;
    }
    assert pages[..|pages|] == pages;
    if batch != [] {
      LastBatch(batches, batch, pages, maxBytes);
      batches := batches + [batch];
    }
    failed := false;
  }

  lemma SinglePageBytes(batch: seq<Page>, page: Page)
    ensures ArrayBytes([page]) == 2 + page.encodedBytes
    ensures ArrayBytes(batch + [page]) == ArrayBytes(batch) + page.encodedBytes + (if batch == [] then 0 else 1)
    ensures batch == [] ==> batch + [page] == [page]
    ensures [] + [page] == [page]
  {
    ArrayBytesAppend([], page);
    ArrayBytesAppend(batch, page);
    assert [] + [page] == [page];
  }

  lemma FittingPageIsNotOversized(batch: seq<Page>, page: Page, maxBytes: nat)
    requires ArrayBytes(batch + [page]) <= maxBytes
    ensures !Oversized(page, maxBytes)
  {
    hide ArrayBytes;
    ArrayBytesMonotone(batch + [page], |batch|, |batch| + 1);
    assert (batch + [page])[|batch|..|batch| + 1] == [page];
  }

  lemma LastBatch(batches: seq<seq<Page>>, batch: seq<Page>, placed: seq<Page>, maxBytes: nat)
    requires Packing(batches, batch, placed, maxBytes) && batch != []
    ensures IsPartition(batches + [batch], placed, maxBytes)
    ensures Saturated(batches + [batch], maxBytes)
  {
    assert (batches + [batch])[..|batches|] == batches;
  }

  lemma CloseBatch(batches: seq<seq<Page>>, batch: seq<Page>, page: Page, placed: seq<Page>, maxBytes: nat)
    requires Packing(batches, batch, placed, maxBytes) && batch != []
    requires ArrayBytes(batch + [page]) > maxBytes
    ensures IsPartition(batches + [batch], placed, maxBytes)
    ensures Saturated(batches + [batch], maxBytes)
    ensures ArrayBytes([page]) <= maxBytes ==> Packing(batches + [batch], [page], placed + [page], maxBytes)
  {
    LastBatch(batches, batch, placed, maxBytes);
    var all, all' := batches + [batch], batches + [batch] + [[page]];
    forall i | 0 <= i < |all'| - 1 && all'[i + 1] != []
      ensures ArrayBytes(all'[i] + all'[i + 1][..1]) > maxBytes
    {
      if i + 1 < |all| {
        assert all[i] == all'[i] && all[i + 1] == all'[i + 1];
      } else {
        assert all'[i + 1][..1] == [page];
      }
    }
  }

  lemma GrowBatch(batches: seq<seq<Page>>, batch: seq<Page>, page: Page, placed: seq<Page>, maxBytes: nat)
    requires Packing(batches, batch, placed, maxBytes)
    requires ArrayBytes(batch + [page]) <= maxBytes
    ensures Packing(batches, batch + [page], placed + [page], maxBytes)
  {
    var all, all' := batches + [batch], batches + [batch + [page]];
    forall i | 0 <= i < |all'| - 1 && all'[i + 1] != []
      ensures ArrayBytes(all'[i] + all'[i + 1][..1]) > maxBytes
    {
      assert all[i] == all'[i] && batch != [];
      assert all'[i + 1][..1] == all[i + 1][..1];
    }
  }

  lemma {:induction false} GreedyPacks(pages: seq<Page>, maxBytes: nat)
    requires forall k :: 0 <= k < |pages| ==> !Oversized(pages[k], maxBytes)
    ensures pages != [] ==> var g := Greedy(pages, maxBytes); Packing(g[..|g| - 1], g[|g| - 1], pages, maxBytes)
    ensures IsPartition(Greedy(pages, maxBytes), pages, maxBytes) && Saturated(Greedy(pages, maxBytes), maxBytes)
  {
    hide ArrayBytes, Greedy;
    if pages == [] {
      assert Greedy(pages, maxBytes) == [];
    } else {
      var init, page := pages[..|pages| - 1], pages[|pages| - 1];
      GreedyPacks(init, maxBytes);
      assert pages == init + [page] && !Oversized(page, maxBytes);
      var g, g' := Greedy(init, maxBytes), Greedy(pages, maxBytes);
      var batches, batch := if g == [] then [] else g[..|g| - 1], if g == [] then [] else g[|g| - 1];
      GreedyStep(batches, batch, init, page, maxBytes);
      SinglePageBytes(batch, page);
      if init == [] {
        assert Packing([], [], [], maxBytes);
        GrowBatch([], [], page, [], maxBytes);
        LastBatch([], [page], pages, maxBytes);
        assert g' == [] + [[page]];
      } else if ArrayBytes(batch + [page]) > maxBytes {
        CloseBatch(batches, batch, page, init, maxBytes);
        LastBatch(batches + [batch], [page], pages, maxBytes);
        assert g'[..|g'| - 1] == batches + [batch];
      } else {
        GrowBatch(batches, batch, page, init, maxBytes);
        LastBatch(batches, batch + [page], pages, maxBytes);
        assert g'[..|g'| - 1] == batches;
      }
    }
  }

  // ---------------------------------------------------------------- minimality

  lemma {:induction false} FlattenPrefix(batches: seq<seq<Page>>, n: nat)
    requires n <= |batches|
    ensures |Flatten(batches[..n])| <= |Flatten(batches)|
    ensures Flatten(batches[..n]) == Flatten(batches)[..|Flatten(batches[..n])|]
  {
    assert batches[..n] + batches[n..] == batches;
    FlattenAppend(batches[..n], batches[n..]);
  }

  /** After any number of batches a saturated partition has covered at least as many pages as any other. */
  lemma {:induction false} SaturatedStaysAhead(greedy: seq<seq<Page>>, other: seq<seq<Page>>, pages: seq<Page>,
                                               maxBytes: nat, n: nat)
    requires IsPartition(greedy, pages, maxBytes) && Saturated(greedy, maxBytes)
    requires IsPartition(other, pages, maxBytes)
    requires n <= |greedy| && n <= |other|
    ensures |Flatten(other[..n])| <= |Flatten(greedy[..n])|
  {
    hide ArrayBytes, Flatten;
    if n == |greedy| {
      assert greedy[..n] == greedy;
      FlattenPrefix(other, n);
    } else if n > 0 {
      SaturatedStaysAhead(greedy, other, pages, maxBytes, n - 1);
      BatchIsSlice(greedy, n - 1);
      BatchIsSlice(greedy, n);
      BatchIsSlice(other, n - 1);
      var g0, g1 := |Flatten(greedy[..n - 1])|, |Flatten(greedy[..n])|;
      AdjacentSlices(pages, g0, g1, |Flatten(greedy[..n + 1])|);
      assert ArrayBytes(greedy[n - 1] + greedy[n][..1]) > maxBytes;
      CannotSpan(pages, |Flatten(other[..n - 1])|, |Flatten(other[..n])|, g0, g1 + 1, maxBytes);
    } else {
      assert other[..0] == greedy[..0];
    }
  }

  /** A slice within the cap that starts no later than one beyond the cap ends before it does. */
  lemma {:induction false} CannotSpan(pages: seq<Page>, lo: nat, hi: nat, lo': nat, hi': nat, maxBytes: nat)
    requires lo <= lo' <= hi' <= |pages| && lo <= hi <= |pages|
    requires ArrayBytes(pages[lo..hi]) <= maxBytes < ArrayBytes(pages[lo'..hi'])
    ensures hi < hi'
  {
    hide ArrayBytes;
    if hi' <= hi {
      SliceOfSlice(pages, lo, hi, lo', hi');
      ArrayBytesMonotone(pages[lo..hi], lo' - lo, hi' - lo);
    }
  }

  lemma SliceOfSlice(pages: seq<Page>, lo: nat, hi: nat, lo': nat, hi': nat)
    requires lo <= lo' <= hi' <= hi <= |pages|
    ensures pages[lo..hi][lo' - lo..hi' - lo] == pages[lo'..hi']
  {
    var inner, outer := pages[lo..hi][lo' - lo..hi' - lo], pages[lo'..hi'];
    assert forall i :: 0 <= i < |outer| ==> inner[i] == outer[i];
  }

  lemma AdjacentSlices(pages: seq<Page>, a: nat, b: nat, c: nat)
    requires a <= b < c <= |pages|
    ensures pages[a..b + 1] == pages[a..b] + pages[b..c][..1]
  {
  }

  lemma {:induction false} BatchIsSlice(batches: seq<seq<Page>>, n: nat)
    requires n < |batches|
    ensures |Flatten(batches[..n])| + |batches[n]| == |Flatten(batches[..n + 1])| <= |Flatten(batches)|
    ensures Flatten(batches)[|Flatten(batches[..n])|..|Flatten(batches[..n + 1])|] == batches[n]
  {
    assert batches[..n + 1][..n] == batches[..n];
    FlattenPrefix(batches, n + 1);
  }

  lemma {:induction false} SaturatedIsMinimal(greedy: seq<seq<Page>>, other: seq<seq<Page>>, pages: seq<Page>,
                                              maxBytes: nat)
    requires IsPartition(greedy, pages, maxBytes) && Saturated(greedy, maxBytes)
    requires IsPartition(other, pages, maxBytes)
    ensures |greedy| <= |other|
  {
    if |other| < |greedy| {
      var n := |other|;
      SaturatedStaysAhead(greedy, other, pages, maxBytes, n);
      assert other[..n] == other;
      assert greedy[..n + 1][..n] == greedy[..n];
      FlattenPrefix(greedy, n + 1);
    }
  }

  /** No contiguous partition within the cap has fewer batches than the greedy one. */
  lemma {:induction false} GreedyIsMinimal(other: seq<seq<Page>>, pages: seq<Page>, maxBytes: nat)
    requires forall k :: 0 <= k < |pages| ==> !Oversized(pages[k], maxBytes)
    requires IsPartition(other, pages, maxBytes)
    ensures |Greedy(pages, maxBytes)| <= |other|
  {
    GreedyPacks(pages, maxBytes);
    SaturatedIsMinimal(Greedy(pages, maxBytes), other, pages, maxBytes);
  }

  /** When some page alone breaks the cap, no partition exists: the failure is never avoidable. */
  lemma {:induction false} OversizedHasNoPartition(batches: seq<seq<Page>>, pages: seq<Page>, maxBytes: nat, k: nat)
    requires k < |pages| && Oversized(pages[k], maxBytes)
    ensures !IsPartition(batches, pages, maxBytes)
  {
    if IsPartition(batches, pages, maxBytes) {
      var last := batches[|batches| - 1];
      var head := Flatten(batches[..|batches| - 1]);
      if k < |head| {
        OversizedHasNoPartition(batches[..|batches| - 1], head, maxBytes, k);
      } else {
        assert last[k - |head|] == pages[k];
        assert last[k - |head|..k - |head| + 1] == [pages[k]];
        ArrayBytesMonotone(last, k - |head|, k - |head| + 1);
      }
    }
  }
}
