/** What a drain sends and keeps, told pair by pair and in plain numbers. */
module VectorMeaning {
  import opened Wrappers
  import opened Gathering
  import opened Embeddings
  import opened VectorWorker

  // ---------------------------------------------------------------------
  // What is sent.

  /** The first 24 000 characters. */
  predicate IsStartOf(input: string, text: string) {
    input <= text && |input| == if |text| <= 24_000 then |text| else 24_000
  }

  /** A request for some pairs sends the start of each pair's own text, in their order. */
  lemma InputsExact(pairs: seq<Pair>, from: nat, count: nat)
    requires from + count <= |pairs|
    ensures
      var inputs := Truncated(Texts(pairs[from..from + count]));
      |inputs| == count && forall k :: 0 <= k < count ==> IsStartOf(inputs[k], pairs[from + k].text)
  {
  }

  /** What is asked for at most: three requests for each batch; with none landed after
      fewer, a check read red. */
  lemma AttemptsExact(env: Env, pairs: seq<Pair>, b: Batch)
    requires Went(env, pairs, b)
    ensures b.posts <= 3 && (!b.landed && b.posts < 3 ==> env.red(b.start + 2 * b.posts))
  {
  }

  // ---------------------------------------------------------------------
  // What is accepted.

  /** An entry with a vector of 1 to 4096 finite numbers. */
  predicate IsGood(entry: EmbedData) {
    1 <= |entry.embedding| <= 4096 && forall k :: 0 <= k < |entry.embedding| ==> entry.embedding[k].Finite?
  }

  /** Exactly one entry has the index. */
  predicate OneAt(data: seq<EmbedData>, index: nat) {
    exists k :: 0 <= k < |data| && data[k].index == index && forall j :: 0 <= j < |data| && j != k ==>
      data[j].index != index
  }

  /** A reply to some inputs succeeds when it has one entry for each of them, every one
      good, and no other. */
  lemma SucceedsExact(reply: Reply, count: nat)
    requires count > 0
    ensures Succeeds(reply, count)
            <==> && reply.Data? && (forall i: nat :: i < count ==> OneAt(reply.data, i))
                 && forall e :: e in reply.data ==> e.index < count && IsGood(e)
  {
    if reply.Data? {
      if Succeeds(reply, count) {
        EachOnce(reply.data, count);
      } else if (forall i: nat :: i < count ==> OneAt(reply.data, i))
                && forall e :: e in reply.data ==> e.index < count && IsGood(e) {
        OnceEach(reply.data, count);
      }
    }
  }

  lemma EachOnce(data: seq<EmbedData>, count: nat)
    requires InRange(data, count) && Distinct(data) && Complete(data, count)
    ensures forall i: nat :: i < count ==> OneAt(data, i)
  {
    forall i: nat | i < count
      ensures OneAt(data, i)
    {
      assert Has(data, i);
      var k :| 0 <= k < |data| && data[k].index == i;
      assert forall j :: 0 <= j < |data| && j != k ==> data[j].index != i;
    }
  }

  lemma OnceDistinct(data: seq<EmbedData>, count: nat)
    requires (forall i: nat :: i < count ==> OneAt(data, i)) && InRange(data, count)
    ensures Distinct(data)
  {
    forall j, k | 0 <= j < k < |data|
      ensures data[j].index != data[k].index
    {
      assert OneAt(data, data[j].index);
    }
  }

  lemma OneHas(data: seq<EmbedData>, i: nat)
    requires OneAt(data, i)
    ensures Has(data, i)
  {
  }

  lemma OnceEach(data: seq<EmbedData>, count: nat)
    requires (forall i: nat :: i < count ==> OneAt(data, i)) && forall e :: e in data ==> e.index < count && IsGood(e)
    ensures IsPermutation(data, count) && forall k :: 0 <= k < |data| ==> |data[k].embedding| <= 4096
  {
    forall k | 0 <= k < |data|
      ensures data[k].index < count && IsUsable(data[k].embedding) && |data[k].embedding| <= 4096
    {
      assert data[k] in data && IsGood(data[k]);
    }
    OnceDistinct(data, count);
    forall i: nat | i < count
      ensures Has(data, i)
    {
      OneHas(data, i);
    }
  }

  // ---------------------------------------------------------------------
  // What is kept.

  function StoredHere(env: Env, pairs: seq<Pair>, fates: seq<Fate>): nat -> seq<Row> {
    (i: nat) =>
      if i < |pairs| && i < |fates| && fates[i].Tried? && env.upsert(fates[i].moment, pairs[i].path, fates[i].vector)
      then [Row(pairs[i].path, fates[i].vector)]
      else []
  }

  function ParkedHere(pairs: seq<Pair>, fates: seq<Fate>): nat -> seq<string> {
    (i: nat) => if i < |pairs| && i < |fates| && fates[i].Parked? then [pairs[i].path] else []
  }

  lemma {:induction false} GatherSame<T>(k: nat, one: nat -> seq<T>, other: nat -> seq<T>)
    requires forall i: nat :: i < k ==> one(i) == other(i)
    ensures GatherUpTo(k, one) == GatherUpTo(k, other)
  {
    if k > 0 {
      GatherSame(k - 1, one, other);
    }
  }

  lemma {:induction false} StoredGathered(env: Env, pairs: seq<Pair>, fates: seq<Fate>)
    requires |fates| == |pairs|
    ensures Stored(env, pairs, fates) == GatherUpTo(|pairs|, StoredHere(env, pairs, fates))
  {
    if |pairs| > 0 {
      var n := |pairs| - 1;
      StoredGathered(env, pairs[..n], fates[..n]);
      GatherSame(n, StoredHere(env, pairs[..n], fates[..n]), StoredHere(env, pairs, fates));
    }
  }

  lemma {:induction false} ParkedGathered(env: Env, pairs: seq<Pair>, fates: seq<Fate>)
    requires |fates| == |pairs|
    ensures Picked(env, pairs, fates, Parking) == GatherUpTo(|pairs|, ParkedHere(pairs, fates))
  {
    if |pairs| > 0 {
      var n := |pairs| - 1;
      ParkedGathered(env, pairs[..n], fates[..n]);
      GatherSame(n, ParkedHere(pairs[..n], fates[..n]), ParkedHere(pairs, fates));
    }
  }

  /** The rows stored are those of the pairs whose row was tried and taken, the paths
      parked those of the pairs never tried, both in the order of the pairs: `rows` and
      `held` say which. */
  lemma DrainKeeps(env: Env, pairs: seq<Pair>, fates: seq<Fate>, parked: seq<string>, stored: seq<Row>)
    returns (rows: seq<nat>, held: seq<nat>)
    requires Divided(env, pairs, |pairs|, fates, parked, stored)
    ensures From(stored, rows, |pairs|, StoredHere(env, pairs, fates))
    ensures From(parked, held, |pairs|, ParkedHere(pairs, fates))
  {
    assert pairs[..|pairs|] == pairs;
    StoredGathered(env, pairs, fates);
    ParkedGathered(env, pairs, fates);
    rows := Gather(|pairs|, StoredHere(env, pairs, fates));
    held := Gather(|pairs|, ParkedHere(pairs, fates));
  }
}
