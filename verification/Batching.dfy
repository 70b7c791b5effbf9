/**
Greedy, order-preserving batching under two limits (src/scs/indexing/pipeline.py:713-734 and
src/scs/providers/openai_compatible.py:115-146).
*/
module Batching {
  import opened Outcome

  const INGESTION_BATCH_MAX_FILES: nat := 32
  const INGESTION_BATCH_MAX_ENTITIES: nat := 512
  const MAX_EMBEDDING_REQUEST_CHARACTERS: nat := 120_000

  function Weigh<T>(items: seq<T>, weight: T -> nat): nat {
    if items == [] then 0 else Weigh(items[..|items| - 1], weight) + weight(items[|items| - 1])
  }

  function Join<T>(batches: seq<seq<T>>): seq<T> {
    if batches == [] then [] else batches[0] + Join(batches[1..])
  }

  /** A batch within both limits; a single item may exceed the weight limit on its own. */
  predicate Fits<T>(batch: seq<T>, weight: T -> nat, maxItems: nat, maxWeight: nat) {
    0 < |batch| <= maxItems && (Weigh(batch, weight) <= maxWeight || |batch| == 1)
  }

  ghost predicate AllFit<T>(batches: seq<seq<T>>, weight: T -> nat, maxItems: nat, maxWeight: nat) {
    forall i :: 0 <= i < |batches| ==> Fits(batches[i], weight, maxItems, maxWeight)
  }

  /** No batch could have taken the first item of the next one. */
  ghost predicate Packed<T>(batches: seq<seq<T>>, weight: T -> nat, maxItems: nat, maxWeight: nat) {
    forall i, j :: 0 <= i < j < |batches| && j == i + 1 ==> Tight(batches[i], batches[j], weight, maxItems, maxWeight)
  }

  predicate Tight<T>(batch: seq<T>, next: seq<T>, weight: T -> nat, maxItems: nat, maxWeight: nat) {
    |next| > 0 && !Fits(batch + next[..1], weight, maxItems, maxWeight)
  }

  // ---------------------------------------------------------------- the two loops

  lemma JoinAppend<T>(batches: seq<seq<T>>, batch: seq<T>)
    ensures Join(batches + [batch]) == Join(batches) + batch
  {
    if batches != [] {
      assert (batches + [batch])[1..] == batches[1..] + [batch];
      JoinAppend(batches[1..], batch);
    }
  }

  /** The loop invariant shared by both callers: closed batches, the open one, and what is packed so far. */
  ghost predicate Packing<T>(done: seq<T>, batches: seq<seq<T>>, current: seq<T>, weight: T -> nat, maxItems: nat, maxWeight: nat) {
    && Join(batches) + current == done
    && AllFit(batches, weight, maxItems, maxWeight)
    && (current == [] ==> batches == [])
    && (current != [] ==> Fits(current, weight, maxItems, maxWeight))
    && Packed(if current == [] then batches else batches + [current], weight, maxItems, maxWeight)
  }

  lemma WeighSnoc<T>(items: seq<T>, item: T, weight: T -> nat)
    ensures Weigh(items + [item], weight) == Weigh(items, weight) + weight(item)
  {
  }

  lemma ExtendCurrent<T>(done: seq<T>, batches: seq<seq<T>>, current: seq<T>, item: T, weight: T -> nat, maxItems: nat, maxWeight: nat)
    requires Packing(done, batches, current, weight, maxItems, maxWeight)
    requires Fits(current + [item], weight, maxItems, maxWeight)
    ensures Packing(done + [item], batches, current + [item], weight, maxItems, maxWeight)
  {
    var before, now := batches + [current], batches + [current + [item]];
    forall i, j | 0 <= i < j < |now| && j == i + 1
      ensures Tight(now[i], now[j], weight, maxItems, maxWeight)
    {
      assert current != [];
      assert before[i] == now[i] && before[j][..1] == now[j][..1];
    }
    assert Join(batches) + (current + [item]) == done + [item];
  }

  lemma CloseCurrent<T>(done: seq<T>, batches: seq<seq<T>>, current: seq<T>, item: T, weight: T -> nat, maxItems: nat, maxWeight: nat)
    requires Packing(done, batches, current, weight, maxItems, maxWeight)
    requires current != [] && !Fits(current + [item], weight, maxItems, maxWeight)
    requires Fits([item], weight, maxItems, maxWeight)
    ensures Packing(done + [item], batches + [current], [item], weight, maxItems, maxWeight)
  {
    JoinAppend(batches, current);
    var before, now := batches + [current], batches + [current] + [[item]];
    forall i, j | 0 <= i < j < |now| && j == i + 1
      ensures Tight(now[i], now[j], weight, maxItems, maxWeight)
    {
      if j < |before| {
        assert before[i] == now[i] && before[j] == now[j];
      } else {
        assert now[i] == current && now[j][..1] == [item];
      }
    }
  }

  /** Whether the open batch is closed before an item is added. */
  predicate Closes<T>(current: seq<T>, item: T, weight: T -> nat, maxItems: nat, maxWeight: nat) {
    current != [] && (|current| >= maxItems || Weigh(current, weight) + weight(item) > maxWeight)
  }

  function NextBatches<T>(batches: seq<seq<T>>, current: seq<T>, closes: bool): seq<seq<T>> {
    if closes then batches + [current] else batches
  }

  function NextCurrent<T>(current: seq<T>, item: T, closes: bool): seq<T> {
    if closes then [item] else current + [item]
  }

  lemma PackOne<T>(done: seq<T>, batches: seq<seq<T>>, current: seq<T>, item: T, weight: T -> nat, maxItems: nat, maxWeight: nat)
    requires Packing(done, batches, current, weight, maxItems, maxWeight) && maxItems >= 1
    ensures var closes := Closes(current, item, weight, maxItems, maxWeight);
      && Packing(done + [item], NextBatches(batches, current, closes), NextCurrent(current, item, closes), weight, maxItems, maxWeight)
      && Weigh(NextCurrent(current, item, closes), weight) == (if closes then 0 else Weigh(current, weight)) + weight(item)
  {
    WeighSnoc([], item, weight);
    assert [] + [item] == [item];
    WeighSnoc(current, item, weight);
    if Closes(current, item, weight, maxItems, maxWeight) {
      CloseCurrent(done, batches, current, item, weight, maxItems, maxWeight);
    } else {
      ExtendCurrent(done, batches, current, item, weight, maxItems, maxWeight);
    }
  }

  lemma PackLast<T>(done: seq<T>, batches: seq<seq<T>>, current: seq<T>, weight: T -> nat, maxItems: nat, maxWeight: nat)
    requires Packing(done, batches, current, weight, maxItems, maxWeight)
    ensures var all := if current == [] then batches else batches + [current];
            Join(all) == done && AllFit(all, weight, maxItems, maxWeight) && Packed(all, weight, maxItems, maxWeight)
  {
    JoinAppend(batches, current);
  }

  /** Partition parsed files into acknowledgement batches without splitting a file. */
  method PlanBatches<T>(parsed: seq<T>, entities: T -> nat) returns (batches: seq<seq<T>>)
    ensures Join(batches) == parsed
    ensures AllFit(batches, entities, 32, 512) && Packed(batches, entities, 32, 512)
  {
    batches := [];
    var current: seq<T> := [];
    var currentEntities := 0;
    var i := 0;
    while i < |parsed|
      invariant 0 <= i <= |parsed| && currentEntities == Weigh(current, entities)
      invariant Packing(parsed[..i], batches, current, entities, INGESTION_BATCH_MAX_FILES, INGESTION_BATCH_MAX_ENTITIES)
    {
      var item := parsed[i];
      assert parsed[..i + 1] == parsed[..i] + [item];
      PackOne(parsed[..i], batches, current, item, entities, INGESTION_BATCH_MAX_FILES, INGESTION_BATCH_MAX_ENTITIES);
      var exceedsFiles := |current| >= INGESTION_BATCH_MAX_FILES;
      var exceedsEntities := current != [] && currentEntities + entities(item) > INGESTION_BATCH_MAX_ENTITIES;
      if exceedsFiles || exceedsEntities {
        batches := batches + [current];
        current, currentEntities := [], 0;
        assert [] + [item] == [item];
      }
      current := current + [item];
      currentEntities := currentEntities + entities(item);
      i := i + 1;
    }
    assert parsed[..|parsed|] == parsed;
    PackLast(parsed, batches, current, entities, INGESTION_BATCH_MAX_FILES, INGESTION_BATCH_MAX_ENTITIES);
    if current != [] {
      batches := batches + [current];
    }
  }

  datatype BatchError = InputTooLarge

  function Length(input: string): nat { |input| }

  ghost predicate SomeOversized(inputs: seq<string>) {
    exists i :: 0 <= i < |inputs| && |inputs[i]| > 120_000
  }

  /** Group provider inputs; one oversized input fails the whole request. */
  method BoundedBatches(inputs: seq<string>, batchSize: nat) returns (r: Result<seq<seq<string>>, BatchError>)
    requires batchSize >= 1
    ensures r.Err? <==> SomeOversized(inputs)
    ensures r.Ok? ==> Join(r.value) == inputs
    ensures r.Ok? ==> AllFit(r.value, Length, batchSize, 120_000) && Packed(r.value, Length, batchSize, 120_000)
  {
    r := GroupInputs(inputs, Length, batchSize);
  }

  ghost predicate Exceeds<T>(inputs: seq<T>, characters: T -> nat) {
    exists i :: 0 <= i < |inputs| && characters(inputs[i]) > MAX_EMBEDDING_REQUEST_CHARACTERS
  }

  /** The first inputs are grouped, and none of them is oversized. */
  ghost predicate Grouping<T>(inputs: seq<T>, i: nat, batches: seq<seq<T>>, batch: seq<T>, characters: T -> nat, batchSize: nat)
    requires i <= |inputs|
  {
    && Packing(inputs[..i], batches, batch, characters, batchSize, MAX_EMBEDDING_REQUEST_CHARACTERS)
    && !Exceeds(inputs[..i], characters)
  }

  lemma OversizedExceeds<T>(inputs: seq<T>, i: nat, characters: T -> nat)
    requires i < |inputs| && characters(inputs[i]) > MAX_EMBEDDING_REQUEST_CHARACTERS
    ensures Exceeds(inputs, characters)
  {
  }

  lemma ExceedsSnoc<T>(inputs: seq<T>, item: T, characters: T -> nat)
    requires !Exceeds(inputs, characters) && characters(item) <= MAX_EMBEDDING_REQUEST_CHARACTERS
    ensures !Exceeds(inputs + [item], characters)
  {
  }

  lemma GroupOne<T>(inputs: seq<T>, i: nat, batches: seq<seq<T>>, batch: seq<T>, characters: T -> nat, batchSize: nat)
    requires i < |inputs| && batchSize >= 1 && Grouping(inputs, i, batches, batch, characters, batchSize)
    requires characters(inputs[i]) <= MAX_EMBEDDING_REQUEST_CHARACTERS
    ensures var item := inputs[i];
      var full := batch != [] && (|batch| == batchSize || Weigh(batch, characters) + characters(item) > MAX_EMBEDDING_REQUEST_CHARACTERS);
      && Grouping(inputs, i + 1, NextBatches(batches, batch, full), NextCurrent(batch, item, full), characters, batchSize)
      && Weigh(NextCurrent(batch, item, full), characters) == (if full then 0 else Weigh(batch, characters)) + characters(item)
  {
    assert inputs[..i + 1] == inputs[..i] + [inputs[i]];
    ExceedsSnoc(inputs[..i], inputs[i], characters);
    PackOne(inputs[..i], batches, batch, inputs[i], characters, batchSize, MAX_EMBEDDING_REQUEST_CHARACTERS);
  }

  lemma GroupLast<T>(inputs: seq<T>, batches: seq<seq<T>>, batch: seq<T>, characters: T -> nat, batchSize: nat)
    requires Grouping(inputs, |inputs|, batches, batch, characters, batchSize)
    ensures !Exceeds(inputs, characters)
    ensures var all := if batch == [] then batches else batches + [batch];
      && Join(all) == inputs && AllFit(all, characters, batchSize, MAX_EMBEDDING_REQUEST_CHARACTERS)
      && Packed(all, characters, batchSize, MAX_EMBEDDING_REQUEST_CHARACTERS)
  {
    assert inputs[..|inputs|] == inputs;
    PackLast(inputs, batches, batch, characters, batchSize, MAX_EMBEDDING_REQUEST_CHARACTERS);
  }

  /** Close the open batch when the input does not fit, then add the input. */
  method PlaceInput<T>(
    ghost inputs: seq<T>, ghost i: nat, input: T, characters: T -> nat, batchSize: nat,
    batches: seq<seq<T>>, batch: seq<T>, batchCharacters: nat)
    returns (batches': seq<seq<T>>, batch': seq<T>, batchCharacters': nat)
    requires i < |inputs| && input == inputs[i] && batchSize >= 1
    requires Grouping(inputs, i, batches, batch, characters, batchSize) && batchCharacters == Weigh(batch, characters)
    requires characters(input) <= MAX_EMBEDDING_REQUEST_CHARACTERS
    ensures Grouping(inputs, i + 1, batches', batch', characters, batchSize) && batchCharacters' == Weigh(batch', characters)
  {
    GroupOne(inputs, i, batches, batch, characters, batchSize);
    batches', batch', batchCharacters' := batches, batch, batchCharacters;
    var exceedsItems := |batch| == batchSize;
    var exceedsCharacters := batchCharacters + characters(input) > MAX_EMBEDDING_REQUEST_CHARACTERS;
    if batch != [] && (exceedsItems || exceedsCharacters) {
      batches' := batches' + [batch];
      batch', batchCharacters' := [], 0;
    }
    batch' := batch' + [input];
    batchCharacters' := batchCharacters' + characters(input);
  }

  method GroupInputs<T>(inputs: seq<T>, characters: T -> nat, batchSize: nat) returns (r: Result<seq<seq<T>>, BatchError>)
    requires batchSize >= 1
    ensures r.Err? <==> Exceeds(inputs, characters)
    ensures r.Ok? ==> Join(r.value) == inputs
    ensures r.Ok? ==> AllFit(r.value, characters, batchSize, MAX_EMBEDDING_REQUEST_CHARACTERS)
    ensures r.Ok? ==> Packed(r.value, characters, batchSize, MAX_EMBEDDING_REQUEST_CHARACTERS)
  {
    var batches: seq<seq<T>> := [];
    var batch: seq<T> := [];
    var batchCharacters := 0;
    var i := 0;
    while i < |inputs|
      invariant 0 <= i <= |inputs| && batchCharacters == Weigh(batch, characters)
      invariant Grouping(inputs, i, batches, batch, characters, batchSize)
    {
      var input := inputs[i];
      if characters(input) > MAX_EMBEDDING_REQUEST_CHARACTERS {
        OversizedExceeds(inputs, i, characters);
        return Err(InputTooLarge);
      }
      batches, batch, batchCharacters := PlaceInput(inputs, i, input, characters, batchSize, batches, batch, batchCharacters);
      i := i + 1;
    }
    GroupLast(inputs, batches, batch, characters, batchSize);
    if batch != [] {
      batches := batches + [batch];
    }
    r := Ok(batches);
  }

  /** Once no single input is oversized, every batch respects the character limit. */
  lemma BoundedBatchesRespectLimit(batches: seq<seq<string>>, batchSize: nat, b: nat)
    requires AllFit(batches, Length, batchSize, MAX_EMBEDDING_REQUEST_CHARACTERS) && b < |batches|
    requires forall i :: 0 <= i < |batches[b]| ==> |batches[b][i]| <= MAX_EMBEDDING_REQUEST_CHARACTERS
    ensures Weigh(batches[b], Length) <= MAX_EMBEDDING_REQUEST_CHARACTERS
  {
  }

  // ---------------------------------------------------------------- minimality

  lemma {:induction false} WeighSlice<T>(items: seq<T>, weight: T -> nat, from: nat, to: nat)
    requires from <= to <= |items|
    ensures Weigh(items[from..to], weight) <= Weigh(items, weight)
    decreases |items|
  {
    if items != [] {
      var init := items[..|items| - 1];
      if to == |items| {
        if from < to {
          WeighSlice(init, weight, from, to - 1);
          assert items[from..to] == init[from..to - 1] + [items[|items| - 1]];
          WeighSnoc(init[from..to - 1], items[|items| - 1], weight);
        } else {
          assert items[from..to] == [];
        }
      } else {
        WeighSlice(init, weight, from, to);
        assert items[from..to] == init[from..to];
      }
    }
  }

  /** A packed partition is never behind another one that starts no later: the greedy choice stays ahead. */
  lemma {:induction false} StaysAhead<T>(packed: seq<seq<T>>, other: seq<seq<T>>, k: nat, weight: T -> nat, maxItems: nat, maxWeight: nat)
    requires AllFit(packed, weight, maxItems, maxWeight) && Packed(packed, weight, maxItems, maxWeight)
    requires AllFit(other, weight, maxItems, maxWeight)
    requires k <= |Join(other)| && Join(packed) == Join(other)[k..]
    ensures |packed| <= |other|
    decreases |other|
  {
    if packed != [] {
      assert Fits(packed[0], weight, maxItems, maxWeight);
      assert other != [];
      var first := other[0];
      assert Fits(first, weight, maxItems, maxWeight);
      assert AllFit(other[1..], weight, maxItems, maxWeight);
      if |first| <= k {
        assert Join(other)[k..] == Join(other[1..])[k - |first|..];
        StaysAhead(packed, other[1..], k - |first|, weight, maxItems, maxWeight);
      } else if |packed| > 1 {
        assert AllFit(packed[1..], weight, maxItems, maxWeight);
        assert Packed(packed[1..], weight, maxItems, maxWeight);
        FirstBatchReaches(packed, first, Join(other[1..]), k, weight, maxItems, maxWeight);
        var k' := k + |packed[0]| - |first|;
        assert Join(packed[1..]) == Join(packed)[|packed[0]|..] == Join(other)[k..][|packed[0]|..] == Join(other[1..])[k'..];
        StaysAhead(packed[1..], other[1..], k', weight, maxItems, maxWeight);
      }
    }
  }

  lemma FirstBatchReaches<T>(packed: seq<seq<T>>, first: seq<T>, rest: seq<T>, k: nat, weight: T -> nat, maxItems: nat, maxWeight: nat)
    requires |packed| > 1 && AllFit(packed, weight, maxItems, maxWeight) && Packed(packed, weight, maxItems, maxWeight)
    requires Fits(first, weight, maxItems, maxWeight) && k < |first| && Join(packed) == (first + rest)[k..]
    ensures |packed[0]| >= |first| - k
  {
    assert Fits(packed[0], weight, maxItems, maxWeight) && Fits(packed[1], weight, maxItems, maxWeight);
    assert Tight(packed[0], packed[1], weight, maxItems, maxWeight);
    var n := |packed[0]|;
    if n < |first| - k {
      var reach := packed[0] + packed[1][..1];
      assert Join(packed) == packed[0] + (packed[1] + Join(packed[1..][1..]));
      assert reach == Join(packed)[..n + 1];
      assert reach == first[k..k + n + 1];
      WeighSlice(first, weight, k, k + n + 1);
    }
  }

  /** No order-preserving partition within the limits uses fewer batches. */
  lemma PackedIsMinimal<T>(packed: seq<seq<T>>, other: seq<seq<T>>, weight: T -> nat, maxItems: nat, maxWeight: nat)
    requires AllFit(packed, weight, maxItems, maxWeight) && Packed(packed, weight, maxItems, maxWeight)
    requires AllFit(other, weight, maxItems, maxWeight) && Join(packed) == Join(other)
    ensures |packed| <= |other|
  {
    assert Join(other)[0..] == Join(other);
    StaysAhead(packed, other, 0, weight, maxItems, maxWeight);
  }

  /** The two limits and packing leave no choice: they determine the batches. */
  lemma {:induction false} PackedIsUnique<T>(a: seq<seq<T>>, b: seq<seq<T>>, weight: T -> nat, maxItems: nat, maxWeight: nat)
    requires AllFit(a, weight, maxItems, maxWeight) && Packed(a, weight, maxItems, maxWeight)
    requires AllFit(b, weight, maxItems, maxWeight) && Packed(b, weight, maxItems, maxWeight)
    requires Join(a) == Join(b)
    ensures a == b
    decreases |a|
  {
    JoinEmpty(a, weight, maxItems, maxWeight);
    JoinEmpty(b, weight, maxItems, maxWeight);
    if a != [] {
      SameFirst(a, b, weight, maxItems, maxWeight);
      SameFirst(b, a, weight, maxItems, maxWeight);
      assert Join(a)[..|a[0]|] == a[0] && Join(b)[..|b[0]|] == b[0];
      assert Join(a[1..]) == Join(a)[|a[0]|..] && Join(b[1..]) == Join(b)[|b[0]|..];
      PackedIsUnique(a[1..], b[1..], weight, maxItems, maxWeight);
      assert a == [a[0]] + a[1..] && b == [b[0]] + b[1..];
    }
  }

  lemma JoinEmpty<T>(batches: seq<seq<T>>, weight: T -> nat, maxItems: nat, maxWeight: nat)
    requires AllFit(batches, weight, maxItems, maxWeight)
    ensures Join(batches) == [] <==> batches == []
  {
  }

  lemma SameFirst<T>(a: seq<seq<T>>, b: seq<seq<T>>, weight: T -> nat, maxItems: nat, maxWeight: nat)
    requires a != [] && b != [] && Join(a) == Join(b)
    requires AllFit(a, weight, maxItems, maxWeight) && Packed(a, weight, maxItems, maxWeight)
    requires AllFit(b, weight, maxItems, maxWeight)
    ensures |a[0]| >= |b[0]|
  {
    assert Fits(b[0], weight, maxItems, maxWeight);
    if |a| == 1 {
      assert Join(a) == a[0];
    } else {
      assert Join(b)[0..] == b[0] + Join(b[1..]);
      FirstBatchReaches(a, b[0], Join(b[1..]), 0, weight, maxItems, maxWeight);
    }
  }
}
