/**
 Page-capped greedy selection over a ranking. Everything is said about positions in the
 ranking and the page key at each position; `DiversifyByPage` is the loop of the source.
 */
module Diversify {
  import opened Decimals

  datatype Chunk = Chunk(pageId: string, file: string, notebookId: string, text: string)

  datatype Scored = Scored(index: nat, score: real)

  function PageKey(chunks: seq<Chunk>, index: nat): string
    requires index < |chunks|
  {
    if chunks[index].pageId != "" then chunks[index].pageId
    else if chunks[index].file != "" then chunks[index].file
    else Decimal(index)
  }

  ghost predicate InRange(ranked: seq<Scored>, chunks: seq<Chunk>) {
    forall k :: 0 <= k < |ranked| ==> ranked[k].index < |chunks|
  }

  ghost function Keys(ranked: seq<Scored>, chunks: seq<Chunk>): (keys: seq<string>)
    requires InRange(ranked, chunks)
    ensures |keys| == |ranked|
  {
    seq(|ranked|, k requires 0 <= k < |ranked| => PageKey(chunks, ranked[k].index))
  }

  /** Position k is taken at once when its page has not reached the cap among the better ranked. */
  ghost predicate IsPick<K>(keys: seq<K>, cap: nat, k: nat)
    requires k < |keys|
  {
    multiset(keys[..k])[keys[k]] < cap
  }

  ghost function Picks<K>(keys: seq<K>, cap: nat, n: nat): (p: seq<nat>)
    requires n <= |keys|
    ensures |p| <= n
    ensures forall i :: 0 <= i < |p| ==> p[i] < n
  {
    if n == 0 then []
    else Picks(keys, cap, n - 1) + (if IsPick(keys, cap, n - 1) then [n - 1] else [])
  }

  ghost function Deferred<K>(keys: seq<K>, cap: nat, n: nat): (p: seq<nat>)
    requires n <= |keys|
    ensures |p| + |Picks(keys, cap, n)| == n
    ensures forall i :: 0 <= i < |p| ==> p[i] < n
  {
    if n == 0 then []
    else Deferred(keys, cap, n - 1) + (if IsPick(keys, cap, n - 1) then [] else [n - 1])
  }

  ghost function Prefix<T>(s: seq<T>, count: nat): seq<T> {
    if count <= |s| then s[..count] else s
  }

  ghost function Gather<T>(s: seq<T>, positions: seq<nat>): (r: seq<T>)
    requires forall i :: 0 <= i < |positions| ==> positions[i] < |s|
    ensures |r| == |positions|
  {
    seq(|positions|, i requires 0 <= i < |positions| => s[positions[i]])
  }

  /** All capped picks in rank order, then the deferred positions in rank order, cut at the count. */
  ghost function Diversified<K>(keys: seq<K>, cap: nat, count: nat): (p: seq<nat>)
    ensures forall i :: 0 <= i < |p| ==> p[i] < |keys|
  {
    Prefix(Picks(keys, cap, |keys|) + Deferred(keys, cap, |keys|), count)
  }

  /** The length test comes after the first item was taken, so a count of zero still yields one item. */
  function EffectiveCount(count: nat, maxPerPage: nat): nat {
    if count == 0 && maxPerPage > 0 then 1 else count
  }

  method DiversifyByPage(ranked: seq<Scored>, chunks: seq<Chunk>, count: nat, maxPerPage: nat)
    returns (selected: seq<Scored>)
    requires InRange(ranked, chunks)
    ensures selected == Gather(ranked, Diversified(Keys(ranked, chunks), maxPerPage, EffectiveCount(count, maxPerPage)))
  {
    hide Selecting, Gather, Keys, Diversified;
    ghost var keys := Keys(ranked, chunks);
    selected := [];
    var deferred: seq<Scored> := [];
    var perPage: map<string, nat> := map[];
    SelectNothing(ranked, keys, maxPerPage);
    for k := 0 to |ranked|
      invariant Selecting(ranked, keys, maxPerPage, k, selected, deferred, perPage)
      invariant if k == 0 then selected == [] else |selected| < count
      invariant |selected| + |deferred| == k
    {
      var page := PageKey(chunks, ranked[k].index);
      KeyAt(ranked, chunks, k);
      var used := if page in perPage then perPage[page] else 0;
      SelectStep(ranked, keys, maxPerPage, k, selected, deferred, perPage);
      if used < maxPerPage {
        selected := selected + [ranked[k]];
        perPage := perPage[page := used + 1];
      } else {
        deferred := deferred + [ranked[k]];
      }
      if |selected| >= count {
        EarlyReturn(ranked, keys, maxPerPage, k + 1, selected, deferred, perPage, count);
        return;
      }
    }
    ghost var picked := selected;
    for i := 0 to |deferred|
      invariant selected == picked + deferred[..i]
      invariant ranked != [] ==> |selected| < count
    {
      selected := selected + [deferred[i]];
      if |selected| >= count {
        LateReturn(ranked, keys, maxPerPage, picked, deferred, perPage, count, i + 1);
        return;
      }
    }
    LateReturn(ranked, keys, maxPerPage, picked, deferred, perPage, EffectiveCount(count, maxPerPage), |deferred|);
  }

  // ---------------------------------------------------------------- the loop

  /** After k candidates: the picks, the deferred ones, and the per-page counters. */
  ghost predicate Selecting(ranked: seq<Scored>, keys: seq<string>, cap: nat, k: nat,
                            selected: seq<Scored>, deferred: seq<Scored>, perPage: map<string, nat>)
    requires |keys| == |ranked| && k <= |keys|
  {
    && selected == Gather(ranked, Picks(keys, cap, k))
    && deferred == Gather(ranked, Deferred(keys, cap, k))
    && PageCounts(keys, cap, k, perPage)
  }

  lemma SelectNothing(ranked: seq<Scored>, keys: seq<string>, cap: nat)
    requires |keys| == |ranked|
    ensures Selecting(ranked, keys, cap, 0, [], [], map[])
  {
  }

  lemma SelectStep(ranked: seq<Scored>, keys: seq<string>, cap: nat, k: nat,
                   selected: seq<Scored>, deferred: seq<Scored>, perPage: map<string, nat>)
    requires |keys| == |ranked| && k < |keys|
    requires Selecting(ranked, keys, cap, k, selected, deferred, perPage)
    ensures var used := if keys[k] in perPage then perPage[keys[k]] else 0;
            if used < cap then
              Selecting(ranked, keys, cap, k + 1, selected + [ranked[k]], deferred, perPage[keys[k] := used + 1])
            else
              Selecting(ranked, keys, cap, k + 1, selected, deferred + [ranked[k]], perPage)
  {
    hide Picks, Deferred, PageCounts;
    PickStep(keys, cap, k, perPage);
  }

  /** The counters hold, for every page seen, how often it was picked: its occurrences up to the cap. */
  ghost predicate PageCounts<K>(keys: seq<K>, cap: nat, n: nat, perPage: map<K, nat>)
    requires n <= |keys|
  {
    forall i :: 0 <= i < |keys| ==>
      (if keys[i] in perPage then perPage[keys[i]] else 0) == Capped(multiset(keys[..n])[keys[i]], cap)
  }

  function Capped(occurrences: nat, cap: nat): nat {
    if occurrences < cap then occurrences else cap
  }

  lemma PickStep<K>(keys: seq<K>, cap: nat, n: nat, perPage: map<K, nat>)
    requires n < |keys| && PageCounts(keys, cap, n, perPage)
    ensures var used := if keys[n] in perPage then perPage[keys[n]] else 0;
            if used < cap then
              && Picks(keys, cap, n + 1) == Picks(keys, cap, n) + [n]
              && Deferred(keys, cap, n + 1) == Deferred(keys, cap, n)
              && PageCounts(keys, cap, n + 1, perPage[keys[n] := used + 1])
            else
              && Picks(keys, cap, n + 1) == Picks(keys, cap, n)
              && Deferred(keys, cap, n + 1) == Deferred(keys, cap, n) + [n]
              && PageCounts(keys, cap, n + 1, perPage)
  {
    CappedBound(multiset(keys[..n])[keys[n]], cap);
    hide Capped, PageCounts;
    CountStep(keys, cap, n, perPage);
  }

  lemma CountStep<K>(keys: seq<K>, cap: nat, n: nat, perPage: map<K, nat>)
    requires n < |keys| && PageCounts(keys, cap, n, perPage)
    ensures var used := if keys[n] in perPage then perPage[keys[n]] else 0;
            && used == Capped(multiset(keys[..n])[keys[n]], cap)
            && PageCounts(keys, cap, n + 1, if used < cap then perPage[keys[n] := used + 1] else perPage)
  {
    assert keys[..n + 1] == keys[..n] + [keys[n]];
    forall i | 0 <= i < |keys|
      ensures multiset(keys[..n + 1])[keys[i]] == multiset(keys[..n])[keys[i]] + (if keys[i] == keys[n] then 1 else 0)
    {
    }
  }

  lemma CappedBound(occurrences: nat, cap: nat)
    ensures Capped(occurrences, cap) < cap <==> occurrences < cap
    ensures occurrences < cap ==> Capped(occurrences, cap) == occurrences
    ensures occurrences >= cap ==> Capped(occurrences + 1, cap) == Capped(occurrences, cap)
  {
  }

  lemma {:induction false} PicksGrow<K>(keys: seq<K>, cap: nat, m: nat, n: nat)
    requires m <= n <= |keys|
    ensures Picks(keys, cap, m) <= Picks(keys, cap, n)
  {
    if m < n {
      PicksGrow(keys, cap, m, n - 1);
    }
  }

  lemma EarlyReturn(ranked: seq<Scored>, keys: seq<string>, cap: nat, k: nat,
                    selected: seq<Scored>, deferred: seq<Scored>, perPage: map<string, nat>, count: nat)
    requires |keys| == |ranked| && 0 < k <= |keys|
    requires Selecting(ranked, keys, cap, k, selected, deferred, perPage)
    requires if count == 0 then k == 1 else |selected| == count
    ensures selected == Gather(ranked, Diversified(keys, cap, EffectiveCount(count, cap)))
  {
    hide Picks, Deferred, PageCounts;
    FirstPick(keys, cap);
    PicksPrefix(keys, cap, k);
  }

  lemma PicksPrefix<K>(keys: seq<K>, cap: nat, k: nat)
    requires k <= |keys|
    ensures Diversified(keys, cap, |Picks(keys, cap, k)|) == Picks(keys, cap, k)
  {
    PicksGrow(keys, cap, k, |keys|);
  }

  lemma FirstPick<K>(keys: seq<K>, cap: nat)
    requires keys != []
    ensures |Picks(keys, cap, 1)| == if cap > 0 then 1 else 0
  {
    assert keys[..0] == [];
    assert Picks(keys, cap, 0) == [];
  }

  lemma LateReturn(ranked: seq<Scored>, keys: seq<string>, cap: nat,
                   picked: seq<Scored>, deferred: seq<Scored>, perPage: map<string, nat>, count: nat, taken: nat)
    requires |keys| == |ranked| && taken <= |deferred|
    requires Selecting(ranked, keys, cap, |keys|, picked, deferred, perPage)
    requires |picked| + taken == count || (taken == |deferred| && |picked| + taken <= count)
    ensures picked + deferred[..taken] == Gather(ranked, Diversified(keys, cap, count))
  {
    hide Picks, Deferred, PageCounts;
    assert Diversified(keys, cap, count) == Picks(keys, cap, |keys|) + Deferred(keys, cap, |keys|)[..taken];
  }

  lemma KeyAt(ranked: seq<Scored>, chunks: seq<Chunk>, k: nat)
    requires InRange(ranked, chunks) && k < |ranked|
    ensures Keys(ranked, chunks)[k] == PageKey(chunks, ranked[k].index)
  {
  }

  // ---------------------------------------------------------------- optimality

  /** A choice of ranking positions, best first, that takes no page more often than the cap. */
  ghost predicate RespectsCap<K(!new)>(keys: seq<K>, cap: nat, choice: seq<nat>) {
    && (forall i :: 0 <= i < |choice| ==> choice[i] < |keys|)
    && Increasing(choice)
    && (forall key :: multiset(Gather(keys, choice))[key] <= cap)
  }

  lemma {:induction false} PickOccurrences<K(!new)>(keys: seq<K>, cap: nat, n: nat, key: K)
    requires n <= |keys|
    ensures multiset(Gather(keys, Picks(keys, cap, n)))[key] == Capped(multiset(keys[..n])[key], cap)
  {
    hide Capped;
    if n > 0 {
      PickOccurrences(keys, cap, n - 1, key);
      var last, before := keys[n - 1], Gather(keys, Picks(keys, cap, n - 1));
      assert keys[..n] == keys[..n - 1] + [last];
      var taken := if IsPick(keys, cap, n - 1) then [last] else [];
      assert Gather(keys, Picks(keys, cap, n)) == before + taken;
      assert multiset(keys[..n])[key] == multiset(keys[..n - 1])[key] + (if key == last then 1 else 0);
      CappedStep(multiset(keys[..n - 1])[key], cap);
    } else {
      CappedStep(0, cap);
      assert keys[..0] == [] && Gather(keys, Picks(keys, cap, 0)) == [];
      assert multiset(keys[..0])[key] == 0;
    }
  }

  lemma CappedStep(occurrences: nat, cap: nat)
    ensures Capped(0, cap) == 0
    ensures Capped(occurrences + 1, cap) == Capped(occurrences, cap) + (if occurrences < cap then 1 else 0)
  {
  }

  /** Distinct positions below n show a key at most as often as the ranking does. */
  lemma {:induction false} ChoiceOccurrences<K(!new)>(keys: seq<K>, choice: seq<nat>, n: nat, key: K)
    requires n <= |keys|
    requires forall i :: 0 <= i < |choice| ==> choice[i] < n
    requires Increasing(choice)
    ensures multiset(Gather(keys, choice))[key] <= multiset(keys[..n])[key]
  {
    if choice != [] {
      var init, last := choice[..|choice| - 1], choice[|choice| - 1];
      ChoiceOccurrences(keys, init, last, key);
      assert Gather(keys, choice) == Gather(keys, init) + [keys[last]];
      assert keys[..n] == keys[..last] + [keys[last]] + keys[last + 1..n];
    }
  }

  lemma CardinalityMonotone<K>(a: multiset<K>, b: multiset<K>)
    requires a <= b
    ensures |a| <= |b|
  {
    assert b == a + (b - a);
  }

  /** Up to any rank, no choice within the cap has more positions than the greedy picks. */
  lemma {:induction false} PicksOutnumber<K(!new)>(keys: seq<K>, cap: nat, choice: seq<nat>, n: nat)
    requires n <= |keys| && RespectsCap(keys, cap, choice)
    requires forall i :: 0 <= i < |choice| ==> choice[i] < n
    ensures |choice| <= |Picks(keys, cap, n)|
  {
    var chosen, picked := multiset(Gather(keys, choice)), multiset(Gather(keys, Picks(keys, cap, n)));
    forall key ensures chosen[key] <= picked[key] {
      PickOccurrences(keys, cap, n, key);
      ChoiceOccurrences(keys, choice, n, key);
    }
    CardinalityMonotone(chosen, picked);
  }

  lemma {:induction false} PrefixRespectsCap<K(!new)>(keys: seq<K>, cap: nat, choice: seq<nat>, m: nat)
    requires RespectsCap(keys, cap, choice) && m <= |choice|
    ensures RespectsCap(keys, cap, choice[..m])
  {
    var head, tail := Gather(keys, choice[..m]), Gather(keys, choice[m..]);
    assert Gather(keys, choice) == head + tail;
    forall key ensures multiset(head)[key] <= cap {
      assert multiset(head + tail)[key] <= cap;
    }
  }

  /** The i-th greedy pick is ranked at least as well as the i-th item of any choice within the cap. */
  lemma {:induction false} PicksDominate<K(!new)>(keys: seq<K>, cap: nat, choice: seq<nat>, i: nat)
    requires RespectsCap(keys, cap, choice) && i < |choice|
    ensures i < |Picks(keys, cap, |keys|)| && Picks(keys, cap, |keys|)[i] <= choice[i]
  {
    var n := choice[i] + 1;
    PrefixRespectsCap(keys, cap, choice, i + 1);
    PicksOutnumber(keys, cap, choice[..i + 1], n);
    PicksGrow(keys, cap, n, |keys|);
  }

  ghost function Total(scores: seq<real>): real {
    if scores == [] then 0.0 else Total(scores[..|scores| - 1]) + scores[|scores| - 1]
  }

  lemma {:induction false} TotalMonotone(a: seq<real>, b: seq<real>)
    requires |a| <= |b|
    requires forall i :: 0 <= i < |a| ==> a[i] <= b[i]
    requires forall i :: |a| <= i < |b| ==> b[i] >= 0.0
    ensures Total(a) <= Total(b)
  {
    if |a| < |b| {
      TotalMonotone(a, b[..|b| - 1]);
    } else if a != [] {
      TotalMonotone(a[..|a| - 1], b[..|b| - 1]);
    }
  }

  ghost predicate Nonincreasing(scores: seq<real>) {
    forall i, j :: 0 <= i < j < |scores| ==> scores[i] >= scores[j]
  }

  /**
   Optimality. Whenever the cap permits `count` picks, the greedy selection has the largest total
   score of all cap-respecting choices of at most `count` candidates, and itself respects the cap.
   */
  lemma {:induction false} GreedyIsOptimal<K(!new)>(keys: seq<K>, scores: seq<real>, cap: nat, count: nat,
                                                    choice: seq<nat>)
    requires |scores| == |keys| && Nonincreasing(scores)
    requires forall i :: 0 <= i < |scores| ==> scores[i] >= 0.0
    requires count <= |Picks(keys, cap, |keys|)|
    requires RespectsCap(keys, cap, choice) && |choice| <= count
    ensures RespectsCap(keys, cap, Diversified(keys, cap, count)) && |Diversified(keys, cap, count)| == count
    ensures Total(Gather(scores, choice)) <= Total(Gather(scores, Diversified(keys, cap, count)))
  {
    hide Picks, Deferred, Increasing;
    var picks := Picks(keys, cap, |keys|);
    PicksRespectCap(keys, cap);
    PrefixRespectsCap(keys, cap, picks, count);
    assert Diversified(keys, cap, count) == picks[..count];
    forall i | 0 <= i < |choice| ensures picks[i] <= choice[i] {
      PicksDominate(keys, cap, choice, i);
    }
    TotalMonotone(Gather(scores, choice), Gather(scores, picks[..count]));
  }

  ghost predicate Increasing(p: seq<nat>) {
    forall i, j :: 0 <= i < j < |p| ==> p[i] < p[j]
  }

  lemma {:induction false} PicksIncrease<K>(keys: seq<K>, cap: nat, n: nat)
    requires n <= |keys|
    ensures Increasing(Picks(keys, cap, n)) && Increasing(Deferred(keys, cap, n))
  {
    if n > 0 {
      PicksIncrease(keys, cap, n - 1);
    }
  }

  lemma {:induction false} PicksAndDeferred<K>(keys: seq<K>, cap: nat, n: nat, k: nat)
    requires k < n <= |keys|
    ensures k in Picks(keys, cap, n) <==> IsPick(keys, cap, k)
    ensures k in Deferred(keys, cap, n) <==> !IsPick(keys, cap, k)
  {
    hide IsPick;
    if k < n - 1 {
      PicksAndDeferred(keys, cap, n - 1, k);
    }
  }

  lemma {:induction false} PicksRespectCap<K(!new)>(keys: seq<K>, cap: nat)
    ensures RespectsCap(keys, cap, Picks(keys, cap, |keys|))
  {
    PicksIncrease(keys, cap, |keys|);
    forall key ensures multiset(Gather(keys, Picks(keys, cap, |keys|)))[key] <= cap {
      PickOccurrences(keys, cap, |keys|, key);
    }
  }

  /**
   When the cap does not permit `count` picks, no cap-respecting choice is larger than the picks, and the
   selection is every pick followed by the best deferred candidates: always min(count, candidates) items.
   */
  lemma {:induction false} ShortfallFillsWithDeferred<K(!new)>(keys: seq<K>, cap: nat, count: nat, choice: seq<nat>)
    requires |Picks(keys, cap, |keys|)| < count
    ensures RespectsCap(keys, cap, choice) ==> |choice| < count
    ensures Diversified(keys, cap, count)
         == Picks(keys, cap, |keys|) + Prefix(Deferred(keys, cap, |keys|), count - |Picks(keys, cap, |keys|)|)
    ensures |Diversified(keys, cap, count)| == if count <= |keys| then count else |keys|
    ensures forall k :: 0 <= k < |keys| ==> (k in Deferred(keys, cap, |keys|) <==> k !in Picks(keys, cap, |keys|))
    ensures Increasing(Deferred(keys, cap, |keys|))
  {
    hide Picks, Deferred, IsPick;
    PicksIncrease(keys, cap, |keys|);
    forall k | 0 <= k < |keys| ensures k in Deferred(keys, cap, |keys|) <==> k !in Picks(keys, cap, |keys|) {
      PicksAndDeferred(keys, cap, |keys|, k);
    }
    if RespectsCap(keys, cap, choice) {
      PicksOutnumber(keys, cap, choice, |keys|);
    }
  }

  /** No position is selected twice. */
  lemma {:induction false} DiversifiedDistinct<K(!new)>(keys: seq<K>, cap: nat, count: nat)
    ensures var p := Diversified(keys, cap, count); forall i, j :: 0 <= i < j < |p| ==> p[i] != p[j]
  {
    hide Picks, Deferred, IsPick;
    var picks, deferred := Picks(keys, cap, |keys|), Deferred(keys, cap, |keys|);
    PicksIncrease(keys, cap, |keys|);
    forall k | 0 <= k < |keys| ensures k in deferred <==> k !in picks {
      PicksAndDeferred(keys, cap, |keys|, k);
    }
    forall i, j | 0 <= i < |picks| && 0 <= j < |deferred| ensures picks[i] != deferred[j] {
      assert deferred[j] in deferred && picks[i] in picks;
    }
  }

  // ---------------------------------------------------------------- what is capped: page identifiers

  /** The label a chunk is counted under: its page identifier; without one its file; without either its position. */
  predicate Bears(chunk: Chunk, index: nat, name: string) {
    || (chunk.pageId != "" && name == chunk.pageId)
    || (chunk.pageId == "" && chunk.file != "" && name == chunk.file)
    || (chunk.pageId == "" && chunk.file == "" && IsNumeral(name) && ReadDecimal(name) == index)
  }

  lemma {:induction false} KeyIsLabel(chunks: seq<Chunk>, index: nat, name: string)
    requires index < |chunks|
    ensures PageKey(chunks, index) == name <==> Bears(chunks[index], index, name)
  {
    DecimalIsNumeral(index);
    if IsNumeral(name) {
      NumeralIsDecimal(name);
    }
  }

  /** How many of the first n items bear the label. */
  ghost function Bearing(ranked: seq<Scored>, chunks: seq<Chunk>, n: nat, name: string): nat
    requires InRange(ranked, chunks) && n <= |ranked|
  {
    if n == 0 then 0
    else
      Bearing(ranked, chunks, n - 1, name)
      + (if Bears(chunks[ranked[n - 1].index], ranked[n - 1].index, name) then 1 else 0)
  }

  lemma {:induction false} LabelsCounted(ranked: seq<Scored>, chunks: seq<Chunk>, n: nat, name: string)
    requires InRange(ranked, chunks) && n <= |ranked|
    ensures multiset(Keys(ranked, chunks)[..n])[name] == Bearing(ranked, chunks, n, name)
  {
    hide Bears, PageKey;
    var keys := Keys(ranked, chunks);
    if n > 0 {
      LabelsCounted(ranked, chunks, n - 1, name);
      KeyIsLabel(chunks, ranked[n - 1].index, name);
      assert keys[..n] == keys[..n - 1] + [keys[n - 1]];
    }
  }

  /** A candidate is deferred exactly when as many better ranked ones as the cap bear its label. */
  lemma {:induction false} DeferredExactly(ranked: seq<Scored>, chunks: seq<Chunk>, cap: nat, k: nat, name: string)
    requires InRange(ranked, chunks) && k < |ranked| && Bears(chunks[ranked[k].index], ranked[k].index, name)
    ensures k in Deferred(Keys(ranked, chunks), cap, |ranked|) <==> cap <= Bearing(ranked, chunks, k, name)
  {
    hide Bears, PageKey;
    var keys := Keys(ranked, chunks);
    KeyIsLabel(chunks, ranked[k].index, name);
    LabelsCounted(ranked, chunks, k, name);
    PicksAndDeferred(keys, cap, |keys|, k);
  }

  lemma GatheredKeys(ranked: seq<Scored>, chunks: seq<Chunk>, positions: seq<nat>)
    requires InRange(ranked, chunks) && forall i :: 0 <= i < |positions| ==> positions[i] < |ranked|
    ensures Keys(Gather(ranked, positions), chunks) == Gather(Keys(ranked, chunks), positions)
  {
  }

  /** Whenever the ranking permits the count, the selection takes no label, so no page, more often than the cap. */
  lemma {:induction false} NoPageExceedsCap(ranked: seq<Scored>, chunks: seq<Chunk>, cap: nat, count: nat,
                                            name: string)
    requires InRange(ranked, chunks) && count <= |Picks(Keys(ranked, chunks), cap, |ranked|)|
    ensures var selected := Gather(ranked, Diversified(Keys(ranked, chunks), cap, count));
            |selected| == count && Bearing(selected, chunks, |selected|, name) <= cap
  {
    hide Picks, Deferred;
    var keys := Keys(ranked, chunks);
    var picks, chosen := Picks(keys, cap, |keys|), Diversified(keys, cap, count);
    assert chosen == picks[..count];
    PicksRespectCap(keys, cap);
    PrefixRespectsCap(keys, cap, picks, count);
    GatheredKeys(ranked, chunks, chosen);
    var selected := Gather(ranked, chosen);
    LabelsCounted(selected, chunks, |selected|, name);
    assert Keys(selected, chunks)[..|selected|] == Keys(selected, chunks);
  }

  /** Every ranked chunk has a page identifier, as the chunks of an index do. */
  ghost predicate AllPaged(ranked: seq<Scored>, chunks: seq<Chunk>)
    requires InRange(ranked, chunks)
  {
    forall k :: 0 <= k < |ranked| ==> chunks[ranked[k].index].pageId != ""
  }

  /** The page identifiers of these positions. */
  ghost function PageIdsAt(ranked: seq<Scored>, chunks: seq<Chunk>, positions: seq<nat>): (ids: seq<string>)
    requires InRange(ranked, chunks) && forall i :: 0 <= i < |positions| ==> positions[i] < |ranked|
    ensures |ids| == |positions|
  {
    seq(|positions|, i requires 0 <= i < |positions| => chunks[ranked[positions[i]].index].pageId)
  }

  /** Positions, best first, that name no page more often than the cap. */
  ghost predicate CapsPages(ranked: seq<Scored>, chunks: seq<Chunk>, cap: nat, choice: seq<nat>)
    requires InRange(ranked, chunks)
  {
    && (forall i :: 0 <= i < |choice| ==> choice[i] < |ranked|) && Increasing(choice)
    && (forall pageId :: multiset(PageIdsAt(ranked, chunks, choice))[pageId] <= cap)
  }

  lemma {:induction false} CapsPagesRespectsCap(ranked: seq<Scored>, chunks: seq<Chunk>, cap: nat, choice: seq<nat>)
    requires InRange(ranked, chunks) && AllPaged(ranked, chunks)
    ensures CapsPages(ranked, chunks, cap, choice) <==> RespectsCap(Keys(ranked, chunks), cap, choice)
  {
    hide PageKey, Increasing;
    var keys := Keys(ranked, chunks);
    if forall i :: 0 <= i < |choice| ==> choice[i] < |ranked| {
      forall i | 0 <= i < |choice| ensures Gather(keys, choice)[i] == PageIdsAt(ranked, chunks, choice)[i] {
        KeyIsLabel(chunks, ranked[choice[i]].index, chunks[ranked[choice[i]].index].pageId);
      }
      assert Gather(keys, choice) == PageIdsAt(ranked, chunks, choice);
    }
  }
}
