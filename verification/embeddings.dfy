/** Reading an embeddings response back into input order. A value is a finite number or
    not; everything else about floats is left alone. */
module Embeddings {
  import opened Wrappers

  datatype Value = Finite(value: real) | NonFinite

  type Vector = seq<Value>

  datatype EmbedData = EmbedData(index: nat, embedding: Vector)

  datatype Malformed =
    | OutOfRange(index: nat)
    | Duplicate(index: nat)
    | Missing(index: nat)
    | EmptyVector(index: nat)
    | NonFiniteValue(index: nat)
    | InvalidJson
    | TooManyDims(index: nat)

  datatype EmbeddingError = Transport | Status(code: nat) | BadResponse(why: Malformed)

  predicate AllFinite(vector: Vector) {
    forall k :: 0 <= k < |vector| ==> vector[k].Finite?
  }

  predicate IsUsable(vector: Vector) {
    vector != [] && AllFinite(vector)
  }

  // ---------------------------------------------------------------------
  // The response as a whole.

  ghost predicate InRange(data: seq<EmbedData>, expected: nat) {
    forall k :: 0 <= k < |data| ==> data[k].index < expected
  }

  ghost predicate Distinct(data: seq<EmbedData>) {
    forall j, k :: 0 <= j < k < |data| ==> data[j].index != data[k].index
  }

  predicate Has(data: seq<EmbedData>, index: nat) {
    exists k :: 0 <= k < |data| && data[k].index == index
  }

  ghost predicate Complete(data: seq<EmbedData>, expected: nat) {
    forall i: nat :: i < expected ==> Has(data, i)
  }

  /** The indices are each of `0..expected` once, and every vector can be used. */
  ghost predicate IsPermutation(data: seq<EmbedData>, expected: nat) {
    && InRange(data, expected) && Distinct(data) && Complete(data, expected)
    && forall k :: 0 <= k < |data| ==> IsUsable(data[k].embedding)
  }

  /** `vectors` holds each entry's vector at the entry's index. */
  ghost predicate Places(data: seq<EmbedData>, vectors: seq<Vector>) {
    forall k :: 0 <= k < |data| ==> data[k].index < |vectors| && vectors[data[k].index] == data[k].embedding
  }

  // ---------------------------------------------------------------------
  // Slotting.

  ghost predicate Slotted(data: seq<EmbedData>, slots: seq<Option<Vector>>) {
    && InRange(data, |slots|) && Distinct(data)
    && (forall k :: 0 <= k < |data| ==> slots[data[k].index] == Some(data[k].embedding))
    && (forall i: nat :: i < |slots| && slots[i].Some? ==> Has(data, i))
  }

  /** Entry `k` is the first that is out of range or repeats an index. */
  ghost predicate FirstBad(data: seq<EmbedData>, k: nat, expected: nat) {
    && k < |data| && InRange(data[..k], expected) && Distinct(data[..k])
    && !(InRange(data[..k + 1], expected) && Distinct(data[..k + 1]))
  }

  /** What is said of a bad entry. */
  function BadEntry(entry: EmbedData, expected: nat): Malformed {
    if entry.index >= expected then OutOfRange(entry.index) else Duplicate(entry.index)
  }

  method FillSlots(data: seq<EmbedData>, slots: array<Option<Vector>>) returns (error: Option<Malformed>)
    requires forall i :: 0 <= i < slots.Length ==> slots[i] == None
    modifies slots
    ensures error.None? <==> InRange(data, slots.Length) && Distinct(data)
    ensures error.None? ==> Slotted(data, slots[..])
    ensures error.Some? ==>
              exists k: nat :: FirstBad(data, k, slots.Length) && error == Some(BadEntry(data[k], slots.Length))
  {
    for k := 0 to |data|
      invariant Slotted(data[..k], slots[..])
    {
      var entry := data[k];
      assert data[..k + 1] == data[..k] + [entry];
      if entry.index >= slots.Length {
        BadHere(data, k, slots.Length);
        return Some(OutOfRange(entry.index));
      }
      if slots[entry.index].Some? {
        assert Has(data[..k], entry.index);
        BadHere(data, k, slots.Length);
        return Some(Duplicate(entry.index));
      }
      slots[entry.index] := Some(entry.embedding);
      ghost var now := data[..k + 1];
      assert forall i :: 0 <= i < k ==> now[i] == data[..k][i];
      assert now[k] == entry;
      forall i: nat | i < slots.Length && slots[i].Some?
        ensures Has(now, i)
      {
        if i != entry.index {
          var j :| 0 <= j < k && data[..k][j].index == i;
          assert now[j].index == i;
        }
      }
    }
    assert data[..|data|] == data;
    error := None;
  }

  lemma BadHere(data: seq<EmbedData>, k: nat, expected: nat)
    requires k < |data| && InRange(data[..k], expected) && Distinct(data[..k])
    requires data[k].index >= expected || Has(data[..k], data[k].index)
    ensures FirstBad(data, k, expected)
  {
    var now := data[..k + 1];
    assert now[k] == data[k];
    if Has(data[..k], data[k].index) {
      var j :| 0 <= j < k && data[..k][j].index == data[k].index;
      assert now[j] == data[..k][j];
    }
  }

  predicate IsUsableSlot(slot: Option<Vector>) {
    slot.Some? && IsUsable(slot.value)
  }

  /** What is said of a slot that cannot be used: empty comes before not finite. */
  function BadSlot(slot: Option<Vector>, i: nat): Malformed {
    if slot.None? then Missing(i) else if slot.value == [] then EmptyVector(i) else NonFiniteValue(i)
  }

  /** Slot `i` is the first that cannot be used. */
  predicate FirstUnusable(slots: seq<Option<Vector>>, i: nat) {
    i < |slots| && !IsUsableSlot(slots[i]) && forall j :: 0 <= j < i ==> IsUsableSlot(slots[j])
  }

  method CheckSlots(slots: seq<Option<Vector>>) returns (result: Result<seq<Vector>, Malformed>)
    ensures result.Ok? <==> forall i :: 0 <= i < |slots| ==> slots[i].Some? && IsUsable(slots[i].value)
    ensures result.Ok? ==> |result.value| == |slots| && forall i :: 0 <= i < |slots| ==>
              Some(result.value[i]) == slots[i]
    ensures result.Err? ==> exists i: nat :: FirstUnusable(slots, i) && result.error == BadSlot(slots[i], i)
  {
    var vectors: seq<Vector> := [];
    for i := 0 to |slots|
      invariant |vectors| == i
      invariant forall j :: 0 <= j < i ==> slots[j] == Some(vectors[j]) && IsUsable(vectors[j])
    {
      assert FirstUnusable(slots, i) || IsUsableSlot(slots[i]);
      if slots[i].None? {
        return Err(Missing(i));
      }
      var vector := slots[i].value;
      if vector == [] {
        return Err(EmptyVector(i));
      }
      if !AllFinite(vector) {
        return Err(NonFiniteValue(i));
      }
      vectors := vectors + [vector];
    }
    result := Ok(vectors);
  }

  /** The error names the first entry out of range or repeated; if there is none, the first
      index without a usable vector. */
  ghost predicate Explains(data: seq<EmbedData>, expected: nat, error: Malformed) {
    || (exists k: nat :: FirstBad(data, k, expected) && error == BadEntry(data[k], expected))
    || (exists slots: seq<Option<Vector>>, i: nat ::
          |slots| == expected && Slotted(data, slots) && FirstUnusable(slots, i) && error == BadSlot(slots[i], i))
  }

  /** Succeeds exactly on a permutation with usable vectors, and then puts every vector
      where its index says. */
  method OrderedVectors(data: seq<EmbedData>, expected: nat) returns (result: Result<seq<Vector>, Malformed>)
    ensures result.Ok? <==> IsPermutation(data, expected)
    ensures result.Ok? ==> |result.value| == expected && Places(data, result.value)
    ensures result.Err? ==> Explains(data, expected, result.error)
  {
    var slots := new Option<Vector>[expected](_ => None);
    var error := FillSlots(data, slots);
    if error.Some? {
      return Err(error.value);
    }
    ghost var filled := slots[..];
    result := CheckSlots(slots[..]);
    SlotsDecide(data, filled);
  }

  /** Filled slots are complete exactly when the indices are. */
  lemma SlotsDecide(data: seq<EmbedData>, slots: seq<Option<Vector>>)
    requires Slotted(data, slots)
    ensures IsPermutation(data, |slots|)
            <==> forall i :: 0 <= i < |slots| ==> slots[i].Some? && IsUsable(slots[i].value)
  {
    if forall i :: 0 <= i < |slots| ==> slots[i].Some? && IsUsable(slots[i].value) {
      assert forall k :: 0 <= k < |data| ==> IsUsable(slots[data[k].index].value);
    }
    if IsPermutation(data, |slots|) {
      forall i | 0 <= i < |slots|
        ensures slots[i].Some? && IsUsable(slots[i].value)
      {
        assert Has(data, i);
      }
    }
  }

  // ---------------------------------------------------------------------
  // The order of the response does not matter.

  lemma Shuffled(data: seq<EmbedData>, other: seq<EmbedData>, e: EmbedData)
    requires multiset(data) == multiset(other)
    ensures e in data <==> e in other
  {
    assert e in data <==> e in multiset(data);
    assert e in other <==> e in multiset(other);
  }

  /** A response is accepted or refused in every order alike. */
  lemma ShuffleAccepted(data: seq<EmbedData>, other: seq<EmbedData>, expected: nat)
    requires multiset(data) == multiset(other)
    ensures IsPermutation(data, expected) <==> IsPermutation(other, expected)
  {
    if IsPermutation(data, expected) {
      ShuffleKeeps(data, other, expected);
    }
    if IsPermutation(other, expected) {
      ShuffleKeeps(other, data, expected);
    }
  }

  /** And every order of an accepted response reads back to the same vectors. */
  lemma ShuffleReadsSame(data: seq<EmbedData>, other: seq<EmbedData>, vectors: seq<Vector>, others: seq<Vector>)
    requires multiset(data) == multiset(other) && |vectors| == |others|
    requires IsPermutation(data, |vectors|) && Places(data, vectors) && Places(other, others)
    ensures vectors == others
  {
    ShufflePlaces(data, other, vectors);
    ShuffleKeeps(data, other, |vectors|);
    forall i | 0 <= i < |vectors|
      ensures vectors[i] == others[i]
    {
      assert Has(other, i);
    }
  }

  lemma ShufflePlaces(data: seq<EmbedData>, other: seq<EmbedData>, vectors: seq<Vector>)
    requires multiset(data) == multiset(other) && Places(data, vectors)
    ensures Places(other, vectors)
  {
    forall k | 0 <= k < |other|
      ensures other[k].index < |vectors| && vectors[other[k].index] == other[k].embedding
    {
      Shuffled(data, other, other[k]);
    }
  }

  lemma ShuffleKeeps(data: seq<EmbedData>, other: seq<EmbedData>, expected: nat)
    requires multiset(data) == multiset(other) && IsPermutation(data, expected)
    ensures IsPermutation(other, expected)
  {
    forall k | 0 <= k < |other|
      ensures other[k].index < expected && IsUsable(other[k].embedding)
    {
      Shuffled(data, other, other[k]);
    }
    forall i: nat | i < expected
      ensures Has(other, i)
    {
      assert Has(data, i);
      var k :| 0 <= k < |data| && data[k].index == i;
      Shuffled(data, other, data[k]);
    }
    DistinctShuffle(data, other);
  }

  lemma DistinctShuffle(data: seq<EmbedData>, other: seq<EmbedData>)
    requires multiset(data) == multiset(other) && Distinct(data)
    ensures Distinct(other)
  {
    forall j, k | 0 <= j < k < |other|
      ensures other[j].index != other[k].index
    {
      Shuffled(data, other, other[j]);
      Shuffled(data, other, other[k]);
      if other[j] == other[k] {
        Twice(other, j, k);
        Once(data, other[j]);
      }
    }
  }

  lemma Twice(s: seq<EmbedData>, j: nat, k: nat)
    requires j < k < |s| && s[j] == s[k]
    ensures multiset(s)[s[j]] >= 2
  {
    assert s == s[..k] + [s[k]] + s[k + 1..];
    assert s[j] in s[..k];
  }

  lemma {:induction false} Once(s: seq<EmbedData>, e: EmbedData)
    requires Distinct(s)
    ensures multiset(s)[e] <= 1
  {
    if |s| > 0 {
      var front, last := s[..|s| - 1], s[|s| - 1];
      assert s == front + [last];
      Once(front, e);
      if last == e && e in front {
        assert false;
      }
    }
  }

  // ---------------------------------------------------------------------
  // One batch.

  const EMBED_INPUT_MAX_CHARS: nat := 24_000
  const MAX_EMBEDDING_DIMS: nat := 4096

  /** What the backend answers to one request. */
  datatype Reply = Unreachable | StatusCode(code: nat) | NotJson | Data(data: seq<EmbedData>)

  function Truncated(texts: seq<string>): seq<string> {
    seq(|texts|, i requires 0 <= i < |texts| =>
      if |texts[i]| > EMBED_INPUT_MAX_CHARS then texts[i][..EMBED_INPUT_MAX_CHARS] else texts[i])
  }

  /** A batch succeeds on an empty input, or on a permutation of usable vectors within
      the dimension cap. */
  ghost predicate Succeeds(reply: Reply, count: nat) {
    || count == 0
    || (reply.Data? && IsPermutation(reply.data, count)
        && forall k :: 0 <= k < |reply.data| ==> |reply.data[k].embedding| <= MAX_EMBEDDING_DIMS)
  }

  /** Why a batch fails: the backend was not reached, answered with a status or with no
      JSON, sent a malformed response, or a vector over the dimension cap. */
  ghost predicate Refuses(reply: Reply, count: nat, error: EmbeddingError) {
    match reply
    case Unreachable => error == Transport
    case StatusCode(code) => error == Status(code)
    case NotJson => error == BadResponse(InvalidJson)
    case Data(data) =>
      error.BadResponse?
      && if IsPermutation(data, count) then exists i: nat :: FirstOver(data, i) && error.why == TooManyDims(i)
         else Explains(data, count, error.why)
  }

  /** Entry `i`'s vector is too long, and none of a smaller index is. */
  ghost predicate FirstOver(data: seq<EmbedData>, i: nat) {
    && (exists k :: 0 <= k < |data| && data[k].index == i && |data[k].embedding| > MAX_EMBEDDING_DIMS)
    && (forall k :: 0 <= k < |data| && data[k].index < i ==> |data[k].embedding| <= MAX_EMBEDDING_DIMS)
  }

  /** One vector per input, in input order, or an error; nothing is asked for no input. */
  method EmbedBatch(texts: seq<string>, post: seq<string> -> Reply)
    returns (result: Result<seq<Vector>, EmbeddingError>)
    ensures result.Ok? <==> Succeeds(post(Truncated(texts)), |texts|)
    ensures result.Ok? ==> |result.value| == |texts|
    ensures result.Ok? && texts != [] ==> Places(post(Truncated(texts)).data, result.value)
    ensures result.Err? ==> Refuses(post(Truncated(texts)), |texts|, result.error)
  {
    if texts == [] {
      return Ok([]);
    }
    match post(Truncated(texts)) {
      case Unreachable => return Err(Transport);
      case StatusCode(code) => return Err(Status(code));
      case NotJson => return Err(BadResponse(InvalidJson));
      case Data(data) =>
        var vectors := OrderedVectors(data, |texts|);
        if vectors.Err? {
          return Err(BadResponse(vectors.error));
        }
        var over := FirstOverCap(vectors.value);
        CapSame(data, vectors.value);
        if over < |vectors.value| {
          OverHere(data, vectors.value, over);
          return Err(BadResponse(TooManyDims(over)));
        }
        result := Ok(vectors.value);
    }
  }

  method FirstOverCap(vectors: seq<Vector>) returns (i: nat)
    ensures i <= |vectors|
    ensures i < |vectors| ==> |vectors[i]| > MAX_EMBEDDING_DIMS
    ensures forall j :: 0 <= j < i ==> |vectors[j]| <= MAX_EMBEDDING_DIMS
  {
    i := 0;
    while i < |vectors| && |vectors[i]| <= MAX_EMBEDDING_DIMS
      invariant i <= |vectors|
      invariant forall j :: 0 <= j < i ==> |vectors[j]| <= MAX_EMBEDDING_DIMS
    {
      i := i + 1;
    }
  }

  lemma OverHere(data: seq<EmbedData>, vectors: seq<Vector>, i: nat)
    requires IsPermutation(data, |vectors|) && Places(data, vectors) && i < |vectors|
    requires |vectors[i]| > MAX_EMBEDDING_DIMS && forall j :: 0 <= j < i ==> |vectors[j]| <= MAX_EMBEDDING_DIMS
    ensures FirstOver(data, i)
  {
    assert Has(data, i);
  }

  /** The cap over the vectors is the cap over the entries. */
  lemma CapSame(data: seq<EmbedData>, vectors: seq<Vector>)
    requires IsPermutation(data, |vectors|) && Places(data, vectors)
    ensures (forall k :: 0 <= k < |data| ==> |data[k].embedding| <= MAX_EMBEDDING_DIMS)
            <==> (forall i :: 0 <= i < |vectors| ==> |vectors[i]| <= MAX_EMBEDDING_DIMS)
  {
    if forall k :: 0 <= k < |data| ==> |data[k].embedding| <= MAX_EMBEDDING_DIMS {
      forall i | 0 <= i < |vectors|
        ensures |vectors[i]| <= MAX_EMBEDDING_DIMS
      {
        assert Has(data, i);
      }
    }
  }
}
