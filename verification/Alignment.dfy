/**
Pairing node ids with the vectors of their own texts
(src/scs/providers/openai_compatible.py:84-113 and 202-245, src/scs/indexing/pipeline.py:767-812).

Texts pass through files, slices, provider batches and a response in any order.  The network and the model
behind it are parameters.
*/
module Alignment {
  import opened Outcome
  import opened Batching
  import opened Pipeline
  import opened FileViews

  const EMBED_BATCH_SIZE: nat := 128
  const DOCUMENT_PREFIX := "search_document"

  /** One entry of a response; a missing part stands for one of the wrong type. */
  datatype Entry = Malformed | Entry(index: Option<int>, embedding: Option<Vector>)

  /** A body that is no object, or has no list of data, has no entries. */
  datatype Response = Invalid | Data(entries: seq<Entry>)

  datatype Error = WrongCount | BadEntry | NotUnique | BadVector | NotContiguous | TooLarge | Unreachable | NoKey

  // ---------------------------------------------------------------- accepting a response

  predicate Usable(entry: Entry, count: nat, dimension: nat) {
    && entry.Entry?
    && entry.index.Some? && 0 <= entry.index.value < count
    && entry.embedding.Some? && |entry.embedding.value| == dimension
  }

  ghost predicate Acceptable(response: Response, count: nat, dimension: nat) {
    && response.Data?
    && |response.entries| == count
    && (forall k :: 0 <= k < count ==> Usable(response.entries[k], count, dimension))
    && (forall j, k :: 0 <= j < k < count ==> response.entries[j].index != response.entries[k].index)
  }

  predicate Covered(entries: seq<Entry>, i: nat) {
    exists k :: 0 <= k < |entries| && entries[k].Entry? && entries[k].index == Some(i)
  }

  /** Distinct positions below a bound are at most as many as the bound. */
  lemma {:induction false} Pigeonhole(positions: seq<nat>, free: set<nat>)
    requires forall j, k :: 0 <= j < k < |positions| ==> positions[j] != positions[k]
    requires forall k :: 0 <= k < |positions| ==> positions[k] in free
    ensures |positions| <= |free|
    ensures |positions| == |free| ==> forall i :: i in free ==> i in positions
  {
    if positions == [] {
      assert |free| == 0 ==> free == {};
    } else {
      var n := |positions| - 1;
      forall k | 0 <= k < n
        ensures positions[..n][k] in free - {positions[n]}
      {
        assert positions[k] != positions[n];
      }
      Pigeonhole(positions[..n], free - {positions[n]});
      if |positions| == |free| {
        forall i | i in free
          ensures i in positions
        {
          assert i == positions[n] || i in positions[..n];
        }
      }
    }
  }

  function Below(n: nat): (r: set<nat>)
    ensures (forall i: nat :: i in r <==> i < n) && |r| == n
  {
    if n == 0 then {} else Below(n - 1) + {n - 1}
  }

  /** An accepted response is a permutation: every position of the batch has exactly one entry. */
  lemma AcceptableIsPermutation(response: Response, count: nat, dimension: nat, i: nat)
    requires Acceptable(response, count, dimension) && i < count
    ensures Covered(response.entries, i)
    ensures forall j, k :: 0 <= j < k < count ==> response.entries[j].index != Some(i) || response.entries[k].index != Some(i)
  {
    var entries := response.entries;
    var positions := seq(count, k requires 0 <= k < count => PositionOf(entries[k]));
    forall k | 0 <= k < count
      ensures positions[k] in Below(count)
    {
      assert Usable(entries[k], count, dimension);
    }
    forall j, k | 0 <= j < k < count
      ensures positions[j] != positions[k]
    {
      assert Usable(entries[j], count, dimension) && Usable(entries[k], count, dimension);
    }
    Pigeonhole(positions, Below(count));
    assert i in positions;
    var k :| 0 <= k < count && positions[k] == i;
    assert Usable(entries[k], count, dimension) && entries[k].index == Some(i);
  }

  function PositionOf(entry: Entry): nat {
    if entry.Entry? && entry.index.Some? && entry.index.value >= 0 then entry.index.value else 0
  }

  /** What the vectors of an accepted response are. */
  ghost predicate Placed(entries: seq<Entry>, vectors: seq<Vector>) {
    forall k :: 0 <= k < |entries| ==>
      && entries[k].Entry? && entries[k].index.Some? && entries[k].embedding.Some?
      && 0 <= entries[k].index.value < |vectors|
      && vectors[entries[k].index.value] == entries[k].embedding.value
  }

  /** The slots filled so far are those of the entries read so far. */
  ghost predicate Filled(entries: seq<Entry>, ordered: seq<Option<Vector>>, dimension: nat) {
    && (forall k :: 0 <= k < |entries| ==>
         Usable(entries[k], |ordered|, dimension) && ordered[entries[k].index.value] == entries[k].embedding)
    && (forall j, k :: 0 <= j < k < |entries| ==> entries[j].index != entries[k].index)
    && (forall i :: 0 <= i < |ordered| && ordered[i].Some? ==> Covered(entries, i))
  }

  lemma FillOne(entries: seq<Entry>, ordered: seq<Option<Vector>>, dimension: nat, entry: Entry)
    requires Filled(entries, ordered, dimension) && Usable(entry, |ordered|, dimension) && ordered[entry.index.value].None?
    ensures Filled(entries + [entry], ordered[entry.index.value := entry.embedding], dimension)
  {
    var all, now := entries + [entry], ordered[entry.index.value := entry.embedding];
    assert all[|entries|] == entry;
    forall i | 0 <= i < |now| && now[i].Some?
      ensures Covered(all, i)
    {
      if i != entry.index.value {
        assert Covered(entries, i);
        var k :| 0 <= k < |entries| && entries[k].Entry? && entries[k].index == Some(i);
        assert all[k] == entries[k];
      }
    }
  }

  /** Put each vector at the position its entry names; accepted exactly when the entries are a permutation. */
  method ParseEmbeddings(response: Response, expectedCount: nat, dimension: nat) returns (r: Result<seq<Vector>, Error>)
    ensures r.Ok? <==> Acceptable(response, expectedCount, dimension)
    ensures r.Ok? ==> |r.value| == expectedCount && Placed(response.entries, r.value)
    ensures r != Err(NotContiguous)
    ensures r == Err(WrongCount) <==> response.Invalid? || |response.entries| != expectedCount
  {
    if response.Invalid? || |response.entries| != expectedCount {
      return Err(WrongCount);
    }
    var ordered: seq<Option<Vector>> := seq(expectedCount, _ => None);
    var k := 0;
    while k < expectedCount
      invariant 0 <= k <= expectedCount && |ordered| == expectedCount
      invariant Filled(response.entries[..k], ordered, dimension)
    {
      var entry := response.entries[k];
      if entry.Malformed? {
        return Err(BadEntry);
      }
      if entry.index.None? || !(0 <= entry.index.value < expectedCount) {
        return Err(NotUnique);
      }
      if ordered[entry.index.value].Some? {
        RepeatedIndex(response, expectedCount, dimension, k, ordered);
        return Err(NotUnique);
      }
      if entry.embedding.None? || |entry.embedding.value| != dimension {
        return Err(BadVector);
      }
      assert response.entries[..k + 1] == response.entries[..k] + [entry];
      FillOne(response.entries[..k], ordered, dimension, entry);
      ordered := ordered[entry.index.value := entry.embedding];
      k := k + 1;
    }
    assert response.entries[..expectedCount] == response.entries;
    AllFilled(response, ordered, dimension);
    var i := 0;
    while i < expectedCount
      invariant 0 <= i <= expectedCount
    {
      if ordered[i].None? {
        return Err(NotContiguous);
      }
      i := i + 1;
    }
    r := Ok(seq(expectedCount, i requires 0 <= i < expectedCount => ordered[i].value));
  }

  lemma RepeatedIndex(response: Response, count: nat, dimension: nat, k: nat, ordered: seq<Option<Vector>>)
    requires response.Data? && k < |response.entries| == count == |ordered| && response.entries[k].Entry?
    requires Filled(response.entries[..k], ordered, dimension) && response.entries[k].index.Some?
    requires 0 <= response.entries[k].index.value < count && ordered[response.entries[k].index.value].Some?
    ensures !Acceptable(response, count, dimension)
  {
  }

  lemma AllFilled(response: Response, ordered: seq<Option<Vector>>, dimension: nat)
    requires response.Data? && |response.entries| == |ordered| && Filled(response.entries, ordered, dimension)
    ensures Acceptable(response, |ordered|, dimension)
    ensures forall i :: 0 <= i < |ordered| ==> ordered[i].Some?
  {
    forall i | 0 <= i < |ordered|
      ensures ordered[i].Some?
    {
      AcceptableIsPermutation(response, |ordered|, dimension, i);
      var k :| 0 <= k < |response.entries| && response.entries[k].Entry? && response.entries[k].index == Some(i);
      assert Usable(response.entries[k], |ordered|, dimension);
    }
  }

  // ---------------------------------------------------------------- the provider

  /** The network: a request either fails or is answered. */
  type Network = seq<string> -> Option<Response>

  /** Each vector of an answer belongs to the input its index names; nothing is said about order or number. */
  ghost predicate Honest(post: Network, embed: string -> Vector) {
    forall batch :: Answers(post(batch), batch, embed)
  }

  ghost predicate Answers(answer: Option<Response>, batch: seq<string>, embed: string -> Vector) {
    answer.Some? && answer.value.Data? ==>
      forall k :: 0 <= k < |answer.value.entries| ==> Truthful(answer.value.entries[k], batch, embed)
  }

  predicate Truthful(entry: Entry, batch: seq<string>, embed: string -> Vector) {
    entry.Entry? && entry.index.Some? && entry.embedding.Some? && 0 <= entry.index.value < |batch| ==>
      entry.embedding.value == embed(batch[entry.index.value])
  }

  /** Vectors in the order of their texts. */
  ghost predicate Aligned(vectors: seq<Vector>, texts: seq<string>, embed: string -> Vector) {
    |vectors| == |texts| && forall i :: 0 <= i < |texts| ==> vectors[i] == embed(texts[i])
  }

  /** Whatever order an honest provider answers in, the parsed vectors follow the batch. */
  lemma ParsedIsAligned(answer: Response, batch: seq<string>, dimension: nat, vectors: seq<Vector>, embed: string -> Vector)
    requires Acceptable(answer, |batch|, dimension) && Answers(Some(answer), batch, embed)
    requires |vectors| == |batch| && Placed(answer.entries, vectors)
    ensures Aligned(vectors, batch, embed)
  {
    forall i | 0 <= i < |batch|
      ensures vectors[i] == embed(batch[i])
    {
      AcceptableIsPermutation(answer, |batch|, dimension, i);
      var k :| 0 <= k < |answer.entries| && answer.entries[k].Entry? && answer.entries[k].index == Some(i);
      assert Truthful(answer.entries[k], batch, embed);
    }
  }

  lemma AlignedConcat(a: seq<Vector>, s: seq<string>, b: seq<Vector>, t: seq<string>, embed: string -> Vector)
    requires Aligned(a, s, embed) && Aligned(b, t, embed)
    ensures Aligned(a + b, s + t, embed)
  {
  }

  function Prefixed(prefix: string, text: string): string {
    prefix + ": " + text
  }

  function PrefixedAll(prefix: string, texts: seq<string>): seq<string> {
    seq(|texts|, i requires 0 <= i < |texts| => Prefixed(prefix, texts[i]))
  }

  /** An input for the provider: the instruction prefix, a colon and a space, and then exactly the text. */
  predicate Carries(input: string, prefix: string, text: string) {
    && |input| == |prefix| + 2 + |text|
    && input[..|prefix|] == prefix
    && input[|prefix|..|prefix| + 2] == ": "
    && input[|prefix| + 2..] == text
  }

  /** Each text has one input, and different texts have different inputs. */
  lemma PrefixedCarries(prefix: string, text: string)
    ensures Carries(Prefixed(prefix, text), prefix, text)
    ensures forall input :: Carries(input, prefix, text) ==> input == Prefixed(prefix, text)
    ensures forall other :: Prefixed(prefix, other) == Prefixed(prefix, text) ==> other == text
  {
    forall input | Carries(input, prefix, text)
      ensures input == Prefixed(prefix, text)
    {
      assert input == input[..|prefix|] + input[|prefix|..|prefix| + 2] + input[|prefix| + 2..];
    }
    forall other | Prefixed(prefix, other) == Prefixed(prefix, text)
      ensures other == text
    {
      assert Prefixed(prefix, other)[|prefix| + 2..] == other && Prefixed(prefix, text)[|prefix| + 2..] == text;
    }
  }

  /** The vector is what the model makes of the input that carries the text. */
  ghost predicate VectorOf(vector: Vector, prefix: string, text: string, embed: string -> Vector) {
    exists input :: Carries(input, prefix, text) && vector == embed(input)
  }

  /** One vector for each text, in order, each of the text itself. */
  ghost predicate OwnVectors(vectors: seq<Vector>, prefix: string, texts: seq<string>, embed: string -> Vector) {
    |vectors| == |texts| && forall i :: 0 <= i < |texts| ==> VectorOf(vectors[i], prefix, texts[i], embed)
  }

  lemma AlignedAreOwn(vectors: seq<Vector>, prefix: string, texts: seq<string>, embed: string -> Vector)
    requires Aligned(vectors, PrefixedAll(prefix, texts), embed)
    ensures OwnVectors(vectors, prefix, texts, embed)
  {
    forall i | 0 <= i < |texts|
      ensures VectorOf(vectors[i], prefix, texts[i], embed)
    {
      PrefixedCarries(prefix, texts[i]);
      assert PrefixedAll(prefix, texts)[i] == Prefixed(prefix, texts[i]);
    }
  }

  // ---------------------------------------------------------------- when a request is served

  ghost predicate Answered(post: Network, batch: seq<string>, dimension: nat) {
    post(batch).Some? && Acceptable(post(batch).value, |batch|, dimension)
  }

  ghost predicate AllAnswered(post: Network, batches: seq<seq<string>>, dimension: nat) {
    forall b :: 0 <= b < |batches| ==> Answered(post, batches[b], dimension)
  }

  /** The requests made for some inputs: in order, within the limits, and each as full as it can be. */
  ghost predicate Sent(batches: seq<seq<string>>, inputs: seq<string>, batchSize: nat) {
    Join(batches) == inputs && AllFit(batches, Length, batchSize, 120_000) && Packed(batches, Length, batchSize, 120_000)
  }

  /** No input is too long, and every request made for them is answered acceptably. */
  ghost predicate Served(post: Network, inputs: seq<string>, batchSize: nat, dimension: nat) {
    !SomeOversized(inputs) && forall batches :: Sent(batches, inputs, batchSize) ==> AllAnswered(post, batches, dimension)
  }

  lemma ServedExactly(post: Network, inputs: seq<string>, batches: seq<seq<string>>, batchSize: nat, dimension: nat)
    requires !SomeOversized(inputs) && Sent(batches, inputs, batchSize)
    ensures Served(post, inputs, batchSize, dimension) <==> AllAnswered(post, batches, dimension)
  {
    forall other | Sent(other, inputs, batchSize)
      ensures other == batches
    {
      PackedIsUnique(other, batches, Length, batchSize, 120_000);
    }
  }

  class EmbeddingProvider {
    const dimension: nat
    const batchSize: nat
    const keyMissing: bool
    var available: bool

    constructor (dimension: nat, batchSize: nat, keyMissing: bool)
      requires batchSize >= 1
      ensures this.dimension == dimension && this.batchSize == batchSize && this.keyMissing == keyMissing
      ensures available == !keyMissing
    {
      this.dimension, this.batchSize, this.keyMissing := dimension, batchSize, keyMissing;
      available := !keyMissing;
    }

    /** Embed texts in bounded batches; a failure has a cause, and availability records the last attempt. */
    method Embed(prefix: string, texts: seq<string>, post: Network, ghost embed: string -> Vector)
      returns (r: Result<seq<Vector>, Error>)
      requires batchSize >= 1 && Honest(post, embed)
      modifies this
      ensures texts == [] ==> r == Ok([]) && available == old(available)
      ensures texts != [] && keyMissing ==> r == Err(NoKey) && available == old(available)
      ensures texts != [] && !keyMissing ==> (available <==> r.Ok?)
      ensures texts != [] && !keyMissing ==> (r.Ok? <==> Served(post, PrefixedAll(prefix, texts), batchSize, dimension))
      ensures texts != [] && !keyMissing && SomeOversized(PrefixedAll(prefix, texts)) ==> r == Err(TooLarge)
      ensures r.Ok? ==> Aligned(r.value, PrefixedAll(prefix, texts), embed) && OwnVectors(r.value, prefix, texts, embed)
    {
      if texts == [] {
        return Ok([]);
      }
      if keyMissing {
        return Err(NoKey);
      }
      var inputs := PrefixedAll(prefix, texts);
      var batches := BoundedBatches(inputs, batchSize);
      if batches.Err? {
        available := false;
        return Err(TooLarge);
      }
      r := EmbedBatches(batches.value, post, embed);
      available := r.Ok?;
      ServedExactly(post, inputs, batches.value, batchSize, dimension);
      if r.Ok? {
        AlignedAreOwn(r.value, prefix, texts, embed);
      }
    }

    method EmbedBatches(batches: seq<seq<string>>, post: Network, ghost embed: string -> Vector)
      returns (r: Result<seq<Vector>, Error>)
      requires Honest(post, embed)
      ensures r.Ok? ==> Aligned(r.value, Join(batches), embed)
      ensures r.Ok? <==> AllAnswered(post, batches, dimension)
    {
      var vectors: seq<Vector> := [];
      var b := 0;
      while b < |batches|
        invariant 0 <= b <= |batches|
        invariant Aligned(vectors, Join(batches[..b]), embed) && AllAnswered(post, batches[..b], dimension)
      {
        var batch := batches[b];
        var answer := post(batch);
        assert Answered(post, batches[b], dimension) <==> answer.Some? && Acceptable(answer.value, |batch|, dimension);
        if answer.None? {
          return Err(Unreachable);
        }
        var parsed := ParseEmbeddings(answer.value, |batch|, dimension);
        if parsed.Err? {
          return Err(parsed.error);
        }
        assert Answers(post(batch), batch, embed);
        ParsedIsAligned(answer.value, batch, dimension, parsed.value, embed);
        assert batches[..b + 1] == batches[..b] + [batch];
        JoinAppend(batches[..b], batch);
        AlignedConcat(vectors, Join(batches[..b]), parsed.value, batch, embed);
        vectors := vectors + parsed.value;
        b := b + 1;
      }
      assert batches[..|batches|] == batches;
      r := Ok(vectors);
    }
  }

  // ---------------------------------------------------------------- a batch of files

  /** The node ids and texts of a file, by position. */
  datatype FileTexts = FileTexts(ids: seq<NodeId>, texts: seq<string>)

  ghost predicate Matched(files: seq<FileTexts>) {
    forall f :: 0 <= f < |files| ==> |files[f].ids| == |files[f].texts|
  }

  function AllIds(files: seq<FileTexts>): seq<NodeId> {
    if files == [] then [] else AllIds(files[..|files| - 1]) + files[|files| - 1].ids
  }

  function AllTexts(files: seq<FileTexts>): seq<string> {
    if files == [] then [] else AllTexts(files[..|files| - 1]) + files[|files| - 1].texts
  }

  lemma {:induction false} FlattenedTogether(files: seq<FileTexts>)
    requires Matched(files)
    ensures |AllIds(files)| == |AllTexts(files)|
  {
    if files != [] {
      FlattenedTogether(files[..|files| - 1]);
      assert files[|files| - 1].ids != [] || files[|files| - 1].texts == [];
    }
  }

  /** Flattening keeps an id and its text at the same index. */
  lemma {:induction false} FlattenedAt(files: seq<FileTexts>, f: nat, i: nat) returns (at: nat)
    requires Matched(files) && f < |files| && i < |files[f].ids|
    ensures at < |AllIds(files)| == |AllTexts(files)|
    ensures AllIds(files)[at] == files[f].ids[i] && AllTexts(files)[at] == files[f].texts[i]
    decreases |files|
  {
    var n := |files| - 1;
    FlattenedTogether(files);
    FlattenedTogether(files[..n]);
    if f == n {
      at := |AllIds(files[..n])| + i;
    } else {
      at := FlattenedAt(files[..n], f, i);
    }
  }

  /** Every entry of the flattened list comes from one position of one file. */
  lemma {:induction false} FlattenedFrom(files: seq<FileTexts>, at: nat) returns (f: nat, i: nat)
    requires Matched(files) && at < |AllIds(files)|
    ensures f < |files| && i < |files[f].ids| && |AllTexts(files)| == |AllIds(files)|
    ensures AllIds(files)[at] == files[f].ids[i] && AllTexts(files)[at] == files[f].texts[i]
    decreases |files|
  {
    var n := |files| - 1;
    FlattenedTogether(files);
    FlattenedTogether(files[..n]);
    if at < |AllIds(files[..n])| {
      f, i := FlattenedFrom(files[..n], at);
    } else {
      f, i := n, at - |AllIds(files[..n])|;
    }
  }

  /** One pair for each node, in order, each with the vector of the node's own text. */
  ghost predicate Paired(pairs: seq<(NodeId, Vector)>, files: seq<FileTexts>, embed: string -> Vector) {
    && |pairs| == |AllIds(files)| == |AllTexts(files)|
    && forall i :: 0 <= i < |pairs| ==>
         pairs[i].0 == AllIds(files)[i] && VectorOf(pairs[i].1, "search_document", AllTexts(files)[i], embed)
  }

  method EmbedBatch(provider: EmbeddingProvider, files: seq<FileTexts>, post: Network, ghost embed: string -> Vector)
    returns (r: Result<seq<(NodeId, Vector)>, Error>)
    requires Matched(files) && provider.batchSize >= 1 && Honest(post, embed)
    modifies provider
    ensures r.Ok? ==> Paired(r.value, files, embed)
    ensures r.Ok? <==> Embeddable(provider, post, AllTexts(files))
  {
    var ids, texts := Flatten(files);
    FlattenedTogether(files);
    var vectors := EmbedSlices(provider, texts, post, embed);
    if vectors.Err? {
      return Err(vectors.error);
    }
    if |vectors.value| != |ids| {
      return Err(WrongCount);
    }
    r := Ok(seq(|ids|, i requires 0 <= i < |ids| => (ids[i], vectors.value[i])));
  }

  /** Texts are embedded in slices of 128, one request after another. */
  method EmbedSlices(provider: EmbeddingProvider, texts: seq<string>, post: Network, ghost embed: string -> Vector)
    returns (r: Result<seq<Vector>, Error>)
    requires provider.batchSize >= 1 && Honest(post, embed)
    modifies provider
    ensures r.Ok? ==> OwnVectors(r.value, "search_document", texts, embed)
    ensures r.Ok? <==> Embeddable(provider, post, texts)
  {
    var vectors: seq<Vector> := [];
    var offset := 0;
    while offset < |texts|
      invariant 0 <= offset && offset % 128 == 0
      invariant OwnVectors(vectors, "search_document", texts[..Least(offset, |texts|)], embed)
      invariant offset > 0 ==> !provider.keyMissing
      invariant AllServed(provider.batchSize, provider.dimension, post, texts, offset)
    {
      var end := Least(offset + EMBED_BATCH_SIZE, |texts|);
      assert texts[offset..end] == SliceAt(texts, offset) != [];
      var slice := provider.Embed(DOCUMENT_PREFIX, texts[offset..end], post, embed);
      if slice.Err? {
        return Err(slice.error);
      }
      OwnConcat(vectors, slice.value, "search_document", texts, offset, end, embed);
      ServedOneMore(provider.batchSize, provider.dimension, post, texts, offset);
      vectors := vectors + slice.value;
      offset := offset + EMBED_BATCH_SIZE;
    }
    assert texts[..|texts|] == texts;
    ServedAll(provider.batchSize, provider.dimension, post, texts, offset);
    r := Ok(vectors);
  }

  lemma OwnConcat(a: seq<Vector>, b: seq<Vector>, prefix: string, texts: seq<string>, from: nat, to: nat, embed: string -> Vector)
    requires from <= to <= |texts|
    requires OwnVectors(a, prefix, texts[..from], embed) && OwnVectors(b, prefix, texts[from..to], embed)
    ensures OwnVectors(a + b, prefix, texts[..to], embed)
  {
    forall i | 0 <= i < to
      ensures VectorOf((a + b)[i], prefix, texts[..to][i], embed)
    {
      if i < from {
        assert VectorOf(a[i], prefix, texts[..from][i], embed);
      } else {
        assert VectorOf(b[i - from], prefix, texts[from..to][i - from], embed);
      }
    }
  }

  lemma ServedOneMore(batchSize: nat, dimension: nat, post: Network, texts: seq<string>, offset: nat)
    requires AllServed(batchSize, dimension, post, texts, offset) && offset < |texts| && offset % 128 == 0
    requires Served(post, PrefixedAll("search_document", SliceAt(texts, offset)), batchSize, dimension)
    ensures AllServed(batchSize, dimension, post, texts, offset + 128)
  {
    forall o: nat | o < offset + 128 && o < |texts| && o % 128 == 0
      ensures Served(post, PrefixedAll("search_document", SliceAt(texts, o)), batchSize, dimension)
    {
      assert o < offset || o == offset;
    }
  }

  lemma ServedAll(batchSize: nat, dimension: nat, post: Network, texts: seq<string>, offset: nat)
    requires AllServed(batchSize, dimension, post, texts, offset) && offset >= |texts|
    ensures AllServed(batchSize, dimension, post, texts, |texts|)
  {
  }

  /** There is nothing to embed, or there is a key and every slice is served. */
  ghost predicate Embeddable(provider: EmbeddingProvider, post: Network, texts: seq<string>) {
    texts == [] || (!provider.keyMissing && AllServed(provider.batchSize, provider.dimension, post, texts, |texts|))
  }

  /** The texts embedded together: 128 of them, or what is left. */
  function SliceAt(texts: seq<string>, offset: nat): seq<string>
    requires offset <= |texts|
  {
    if offset + 128 <= |texts| then texts[offset..offset + 128] else texts[offset..]
  }

  /** Every slice that begins before `upTo` is served. */
  ghost predicate AllServed(batchSize: nat, dimension: nat, post: Network, texts: seq<string>, upTo: nat) {
    forall offset: nat :: offset < upTo && offset < |texts| && offset % 128 == 0 ==>
      Served(post, PrefixedAll("search_document", SliceAt(texts, offset)), batchSize, dimension)
  }

  function Least(a: nat, b: nat): nat {
    if a <= b then a else b
  }

  method Flatten(files: seq<FileTexts>) returns (ids: seq<NodeId>, texts: seq<string>)
    ensures ids == AllIds(files) && texts == AllTexts(files)
  {
    ids, texts := [], [];
    var f := 0;
    while f < |files|
      invariant 0 <= f <= |files| && ids == AllIds(files[..f]) && texts == AllTexts(files[..f])
    {
      assert files[..f + 1][..f] == files[..f];
      ids := ids + files[f].ids;
      texts := texts + files[f].texts;
      f := f + 1;
    }
    assert files[..|files|] == files;
  }

  // ---------------------------------------------------------------- what the ingestion run stores

  /** The ids and texts of a parsed file. */
  ghost predicate Describes(env: Env, f: FileEntry, file: FileTexts) {
    && env.parse(f).Some?
    && |file.ids| == |file.texts| == |env.parse(f).value|
    && forall i :: 0 <= i < |file.ids| ==>
         file.ids[i] == NodeIdAt(f.path, env.parse(f).value, i) && file.texts[i] == env.parse(f).value[i].text
  }

  /** The pairs as the store keeps them: one vector per node, a later pair replacing an earlier one. */
  function PairMap(pairs: seq<(NodeId, Vector)>): map<NodeId, Vector> {
    if pairs == [] then map[] else PairMap(pairs[..|pairs| - 1])[pairs[|pairs| - 1].0 := pairs[|pairs| - 1].1]
  }

  lemma {:induction false} PairMapAt(pairs: seq<(NodeId, Vector)>, id: NodeId)
    ensures id in PairMap(pairs) <==> exists i :: 0 <= i < |pairs| && pairs[i].0 == id
    ensures id in PairMap(pairs) ==> (id, PairMap(pairs)[id]) in pairs
  {
    if pairs != [] {
      var n := |pairs| - 1;
      PairMapAt(pairs[..n], id);
      assert pairs == pairs[..n] + [pairs[n]];
      if pairs[n].0 != id && exists i :: 0 <= i < |pairs| && pairs[i].0 == id {
        var i :| 0 <= i < |pairs| && pairs[i].0 == id;
        assert pairs[..n][i].0 == id;
      }
    }
  }

  ghost predicate DescribesBatch(env: Env, batch: seq<FileEntry>, files: seq<FileTexts>) {
    |batch| == |files| && forall k :: 0 <= k < |batch| ==> Describes(env, batch[k], files[k])
  }

  /** Each pair is what the embedding step of an ingestion run stores for its node. */
  lemma PairIsStored(env: Env, batch: seq<FileEntry>, files: seq<FileTexts>, f: nat, i: nat)
    requires env.semantic && DistinctPaths(batch) && DescribesBatch(env, batch, files) && f < |files| && i < |files[f].ids|
    ensures i < |files[f].texts| && files[f].ids[i] in VectorsAll(env, batch)
    ensures VectorsAll(env, batch)[files[f].ids[i]] == env.embed(files[f].texts[i])
  {
    var entry, id := batch[f], files[f].ids[i];
    assert Describes(env, entry, files[f]);
    var entities := env.parse(entry).value;
    NodesUpToHolds(entry.path, entities, |entities|, i);
    assert id in Planned(env, entry) && Planned(env, entry)[id] == entities[i];
    FileOfUnique(batch, entry);
    VectorsAllAt(env, batch, id);
  }

  /** Each stored vector belongs to a node that is described. */
  lemma StoredIsDescribed(env: Env, batch: seq<FileEntry>, files: seq<FileTexts>, id: NodeId) returns (f: nat, i: nat)
    requires env.semantic && DistinctPaths(batch) && DescribesBatch(env, batch, files) && id in VectorsAll(env, batch)
    ensures f < |files| && i < |files[f].ids| && files[f].ids[i] == id
  {
    VectorsAllAt(env, batch, id);
    var entry := FileOf(batch, id.path).value;
    f :| f < |batch| && batch[f] == entry;
    assert Describes(env, entry, files[f]);
    var entities := env.parse(entry).value;
    NodesUpToIds(entry.path, entities, |entities|, id);
    i :| i < |entities| && NodeIdAt(entry.path, entities, i) == id;
  }

  /** The model of a run embeds a text as the provider embeds the document input that carries it. */
  ghost predicate Models(env: Env, embed: string -> Vector) {
    forall t, input :: Carries(input, "search_document", t) ==> env.embed(t) == embed(input)
  }

  lemma PairIsOwn(
    env: Env, batch: seq<FileEntry>, files: seq<FileTexts>, pairs: seq<(NodeId, Vector)>, embed: string -> Vector, at: nat)
    requires env.semantic && DistinctPaths(batch) && DescribesBatch(env, batch, files)
    requires Matched(files) && Paired(pairs, files, embed) && Models(env, embed) && at < |pairs|
    ensures pairs[at].0 in VectorsAll(env, batch) && VectorsAll(env, batch)[pairs[at].0] == pairs[at].1
  {
    var f, i := FlattenedFrom(files, at);
    PairIsStored(env, batch, files, f, i);
    var input :| Carries(input, "search_document", AllTexts(files)[at]) && pairs[at].1 == embed(input);
  }

  /** The pairs of a batch are exactly what the embedding step of an ingestion run adds to the stored vectors. */
  lemma PairedAreStored(
    env: Env, batch: seq<FileEntry>, files: seq<FileTexts>, pairs: seq<(NodeId, Vector)>, embed: string -> Vector)
    requires env.semantic && DistinctPaths(batch) && DescribesBatch(env, batch, files)
    requires Matched(files) && Paired(pairs, files, embed)
    requires Models(env, embed)
    ensures PairMap(pairs) == VectorsAll(env, batch)
  {
    forall id: NodeId
      ensures id in PairMap(pairs) <==> id in VectorsAll(env, batch)
      ensures id in PairMap(pairs) ==> PairMap(pairs)[id] == VectorsAll(env, batch)[id]
    {
      PairMapAt(pairs, id);
      if id in PairMap(pairs) {
        var at :| 0 <= at < |pairs| && pairs[at] == (id, PairMap(pairs)[id]);
        PairIsOwn(env, batch, files, pairs, embed, at);
      }
      if id in VectorsAll(env, batch) {
        var f, i := StoredIsDescribed(env, batch, files, id);
        var at := FlattenedAt(files, f, i);
        assert pairs[at].0 == id;
      }
    }
  }
}
