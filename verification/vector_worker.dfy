/** Embedding a drain's pairs batch by batch: what is not embedded is parked. */
module VectorWorker {
  import opened Wrappers
  import opened Embeddings

  const EMBED_ATTEMPTS: nat := 3

  /** What the worker meets, moment by moment: the health verdict, the backend's reply to
      a request, and whether a row could be stored. */
  datatype Env = Env(red: nat -> bool, post: (nat, seq<string>) -> Reply, upsert: (nat, string, Vector) -> bool)

  datatype Pair = Pair(path: string, text: string)

  function Texts(pairs: seq<Pair>): seq<string> {
    seq(|pairs|, i requires 0 <= i < |pairs| => pairs[i].text)
  }

  function PathsOf(pairs: seq<Pair>): seq<string> {
    seq(|pairs|, i requires 0 <= i < |pairs| => pairs[i].path)
  }

  // ---------------------------------------------------------------------
  // One batch, with retries.

  /** The reply to attempt `a`, which follows `a` health checks and `a` earlier requests. */
  function AttemptReply(env: Env, start: nat, texts: seq<string>, a: nat): Reply {
    env.post(start + 2 * a, Truncated(texts))
  }

  /** Attempt `a` is the first to succeed, and no check before it read red. */
  ghost predicate LandsAt(env: Env, start: nat, texts: seq<string>, a: nat) {
    && Succeeds(AttemptReply(env, start, texts, a), |texts|)
    && (forall b: nat :: b < a ==>
        !Succeeds(AttemptReply(env, start, texts, b), |texts|) && !env.red(start + 2 * b + 1))
  }

  /** The checks between the first `posts` attempts did not read red. */
  ghost predicate ChecksPass(env: Env, start: nat, posts: nat) {
    forall a: nat :: a + 1 < posts ==> !env.red(start + 2 * a + 1)
  }

  /** None of the first `posts` attempts succeeds. */
  ghost predicate AllFail(env: Env, start: nat, texts: seq<string>, posts: nat) {
    forall a: nat :: a < posts ==> !Succeeds(AttemptReply(env, start, texts, a), |texts|)
  }

  /** At most three attempts, each but the first behind a health check. The clock counts
      requests and checks alike. */
  method TryBatch(env: Env, start: nat, texts: seq<string>) returns (vecs: Option<seq<Vector>>, posts: nat, clock: nat)
    requires texts != []
    ensures 1 <= posts <= EMBED_ATTEMPTS && ChecksPass(env, start, posts)
    ensures vecs.Some? ==>
              && |vecs.value| == |texts| && LandsAt(env, start, texts, posts - 1)
              && Places(AttemptReply(env, start, texts, posts - 1).data, vecs.value)
              && clock == start + 2 * posts - 1
    ensures vecs.None? ==> AllFail(env, start, texts, posts)
    ensures vecs.None? ==>
              if posts == EMBED_ATTEMPTS then clock == start + 2 * posts - 1
              else env.red(start + 2 * posts - 1) && clock == start + 2 * posts
  {
    vecs, posts, clock := None, 0, start;
    for attempt := 0 to EMBED_ATTEMPTS
      invariant posts == attempt && clock == (if attempt == 0 then start else start + 2 * attempt - 1)
      invariant AllFail(env, start, texts, attempt) && ChecksPass(env, start, attempt)
    {
      if attempt > 0 {
        var red := env.red(clock);
        clock := clock + 1;
        if red {
          break;
        }
      }
      ghost var sent := clock;
      var result := EmbedBatch(texts, input => env.post(clock, input));
      assert env.post(sent, Truncated(texts)) == AttemptReply(env, start, texts, attempt);
      posts := posts + 1;
      clock := clock + 1;
      if result.Ok? {
        return Some(result.value), posts, clock;
      }
    }
  }

  // ---------------------------------------------------------------------
  // What becomes of a pair.

  /** A pair is parked, or its row is tried at some moment with some vector. */
  datatype Fate = Parked | Tried(vector: Vector, moment: nat)

  datatype Kind = Parking | Storing | Losing

  /** A row that is tried is stored, or lost: then it is not parked either. */
  function KindOf(env: Env, pair: Pair, fate: Fate): Kind {
    if fate.Parked? then Parking
    else if env.upsert(fate.moment, pair.path, fate.vector) then Storing
    else Losing
  }

  /** The paths of the pairs of a kind, in order. */
  function Picked(env: Env, pairs: seq<Pair>, fates: seq<Fate>, kind: Kind): seq<string>
    requires |fates| == |pairs|
  {
    if |pairs| == 0 then []
    else
      var n := |pairs| - 1;
      Picked(env, pairs[..n], fates[..n], kind)
      + (if KindOf(env, pairs[n], fates[n]) == kind then [pairs[n].path] else [])
  }

  datatype Row = Row(path: string, vector: Vector)

  function RowPaths(rows: seq<Row>): seq<string> {
    seq(|rows|, i requires 0 <= i < |rows| => rows[i].path)
  }

  /** The rows stored, in order. */
  function Stored(env: Env, pairs: seq<Pair>, fates: seq<Fate>): seq<Row>
    requires |fates| == |pairs|
  {
    if |pairs| == 0 then []
    else
      var n := |pairs| - 1;
      Stored(env, pairs[..n], fates[..n])
      + (if KindOf(env, pairs[n], fates[n]) == Storing then [Row(pairs[n].path, fates[n].vector)] else [])
  }

  function AllParked(n: nat): seq<Fate> {
    seq(n, _ => Parked)
  }

  lemma {:induction false} PickedAppend(env: Env, pairs: seq<Pair>, fates: seq<Fate>, more: seq<Pair>,
                                        moreFates: seq<Fate>, kind: Kind)
    requires |fates| == |pairs| && |moreFates| == |more|
    ensures Picked(env, pairs + more, fates + moreFates, kind)
            == Picked(env, pairs, fates, kind) + Picked(env, more, moreFates, kind)
  {
    if |more| == 0 {
      assert pairs + more == pairs && fates + moreFates == fates;
    } else {
      var n := |more| - 1;
      var all, allFates := pairs + more, fates + moreFates;
      assert all[..|all| - 1] == pairs + more[..n] && allFates[..|all| - 1] == fates + moreFates[..n];
      PickedAppend(env, pairs, fates, more[..n], moreFates[..n], kind);
    }
  }

  lemma {:induction false} StoredAppend(env: Env, pairs: seq<Pair>, fates: seq<Fate>, more: seq<Pair>,
                                        moreFates: seq<Fate>)
    requires |fates| == |pairs| && |moreFates| == |more|
    ensures Stored(env, pairs + more, fates + moreFates) == Stored(env, pairs, fates) + Stored(env, more, moreFates)
  {
    if |more| == 0 {
      assert pairs + more == pairs && fates + moreFates == fates;
    } else {
      var n := |more| - 1;
      var all, allFates := pairs + more, fates + moreFates;
      assert all[..|all| - 1] == pairs + more[..n] && allFates[..|all| - 1] == fates + moreFates[..n];
      StoredAppend(env, pairs, fates, more[..n], moreFates[..n]);
    }
  }

  lemma {:induction false} ParkedPicked(env: Env, pairs: seq<Pair>)
    ensures Picked(env, pairs, AllParked(|pairs|), Parking) == PathsOf(pairs)
    ensures Stored(env, pairs, AllParked(|pairs|)) == []
  {
    if |pairs| > 0 {
      var n := |pairs| - 1;
      ParkedPicked(env, pairs[..n]);
      assert AllParked(|pairs|)[..n] == AllParked(n);
      assert PathsOf(pairs) == PathsOf(pairs[..n]) + [pairs[n].path];
    }
  }

  lemma {:induction false} TriedPicked(env: Env, pairs: seq<Pair>, fates: seq<Fate>)
    requires |fates| == |pairs| && AllTried(fates)
    ensures Picked(env, pairs, fates, Parking) == []
  {
    if |pairs| > 0 {
      TriedPicked(env, pairs[..|pairs| - 1], fates[..|pairs| - 1]);
    }
  }

  // ---------------------------------------------------------------------
  // What a drain did.

  /** One batch: the red check at `start`, `posts` requests for `count` pairs from `from`
      on, sent from the next moment on, every other one, and the upserts if one landed. */
  datatype Batch = Batch(from: nat, count: nat, start: nat, posts: nat, landed: bool) {
    function End(): nat {
      from + count
    }

    /** The moment behind everything the batch did. */
    function ClockAfter(): nat {
      start + 2 * posts + (if landed then count else if posts < EMBED_ATTEMPTS then 1 else 0)
    }
  }

  /** The reply to request `a` of the batch. */
  function BatchReply(env: Env, pairs: seq<Pair>, b: Batch, a: nat): Reply
    requires b.End() <= |pairs|
  {
    AttemptReply(env, b.start + 1, Texts(pairs[b.from..b.End()]), a)
  }

  /** The batch went as the environment has it: no check before a request read red; the
      last request landed and no earlier one, or none did and then there were three, or
      the check behind the last one read red. */
  ghost predicate Went(env: Env, pairs: seq<Pair>, b: Batch) {
    && b.count > 0 && b.End() <= |pairs| && 1 <= b.posts <= EMBED_ATTEMPTS
    && !env.red(b.start) && ChecksPass(env, b.start + 1, b.posts)
    && (forall a: nat :: a < b.posts ==>
          (Succeeds(BatchReply(env, pairs, b, a), b.count) <==> b.landed && a == b.posts - 1))
    && (b.landed || b.posts == EMBED_ATTEMPTS || env.red(b.start + 2 * b.posts))
  }

  function EndOf(batches: seq<Batch>): nat {
    if |batches| == 0 then 0 else batches[|batches| - 1].End()
  }

  function ClockOf(batches: seq<Batch>): nat {
    if |batches| == 0 then 0 else batches[|batches| - 1].ClockAfter()
  }

  /** Batch after batch, each of `size` pairs while there are that many left, each begun
      where and when the one before ended. */
  ghost predicate Ran(env: Env, size: nat, pairs: seq<Pair>, batches: seq<Batch>) {
    |batches| == 0 ||
    var front, b := batches[..|batches| - 1], batches[|batches| - 1];
    && Ran(env, size, pairs, front) && Went(env, pairs, b)
    && b.from == EndOf(front) && b.start == ClockOf(front) && b.count == Min(size, |pairs| - b.from)
  }

  /** What a batch makes of its pair `k`: the row is tried at its own moment, with the
      vector the landed reply has for the pair's own text; without one it is parked. */
  ghost predicate Makes(env: Env, pairs: seq<Pair>, b: Batch, k: nat, fate: Fate)
    requires b.End() <= |pairs| && b.posts > 0
  {
    if !b.landed then fate == Parked
    else
      && fate.Tried? && fate.moment == b.start + 2 * b.posts + k
      && BatchReply(env, pairs, b, b.posts - 1).Data?
      && EmbedData(k, fate.vector) in BatchReply(env, pairs, b, b.posts - 1).data
  }

  /** The batch makes `fates` of its pairs. */
  ghost predicate MakesAll(env: Env, pairs: seq<Pair>, b: Batch, fates: seq<Fate>) {
    && b.End() <= |pairs| && b.posts > 0 && |fates| == b.count
    && forall k :: 0 <= k < |fates| ==> Makes(env, pairs, b, k, fates[k])
  }

  /** The fates of the first pairs are what the batches, one after the other, made of them. */
  ghost predicate Made(env: Env, pairs: seq<Pair>, batches: seq<Batch>, fates: seq<Fate>) {
    |fates| == EndOf(batches) &&
    (|batches| == 0 ||
     var front, b := batches[..|batches| - 1], batches[|batches| - 1];
     && EndOf(front) == b.from && Made(env, pairs, front, fates[..b.from])
     && MakesAll(env, pairs, b, fates[b.from..]))
  }

  // ---------------------------------------------------------------------
  // The requests of a drain.

  /** A request sent for `count` pairs from `from` on. */
  datatype Request = Request(moment: nat, from: nat, count: nat)

  function RequestsOf(b: Batch): (r: seq<Request>)
    ensures |r| == b.posts
    ensures forall a :: 0 <= a < |r| ==> r[a] == Request(b.start + 1 + 2 * a, b.from, b.count)
  {
    seq(b.posts, (a: nat) => Request(b.start + 1 + 2 * a, b.from, b.count))
  }

  /** Every request of the drain, in the order they were sent. */
  function Log(batches: seq<Batch>): seq<Request> {
    if |batches| == 0 then [] else Log(batches[..|batches| - 1]) + RequestsOf(batches[|batches| - 1])
  }

  lemma {:induction false} LogBounded(env: Env, size: nat, pairs: seq<Pair>, batches: seq<Batch>)
    requires Ran(env, size, pairs, batches)
    ensures |Log(batches)| <= EMBED_ATTEMPTS * EndOf(batches) && EndOf(batches) <= |pairs|
  {
    if |batches| > 0 {
      LogBounded(env, size, pairs, batches[..|batches| - 1]);
    }
  }

  /** The moments of the requests ascend, and lie before the end of the drain. */
  lemma {:induction false} LogAscends(env: Env, size: nat, pairs: seq<Pair>, batches: seq<Batch>, r: nat, s: nat)
    requires Ran(env, size, pairs, batches) && r < s <= |Log(batches)|
    ensures Log(batches)[r].moment < if s < |Log(batches)| then Log(batches)[s].moment else ClockOf(batches)
  {
    var n := |batches| - 1;
    var front, b := batches[..n], batches[n];
    if r < |Log(front)| {
      LogAscends(env, size, pairs, front, r, Min(s, |Log(front)|));
    }
  }

  /** A batch's requests are in the log of any drain that goes on from it. */
  lemma {:induction false} LogHolds(batches: seq<Batch>, n: nat)
    requires n <= |batches|
    ensures |Log(batches[..n])| <= |Log(batches)| && Log(batches)[..|Log(batches[..n])|] == Log(batches[..n])
    decreases |batches|
  {
    if n < |batches| {
      var front := batches[..|batches| - 1];
      LogHolds(front, n);
      assert front[..n] == batches[..n];
    } else {
      assert batches[..n] == batches;
    }
  }

  lemma {:induction false} RanFront(env: Env, size: nat, pairs: seq<Pair>, batches: seq<Batch>, n: nat)
    requires Ran(env, size, pairs, batches) && n <= |batches|
    ensures Ran(env, size, pairs, batches[..n])
    ensures EndOf(batches[..n]) <= EndOf(batches) && ClockOf(batches[..n]) <= ClockOf(batches)
    decreases |batches|
  {
    if n < |batches| {
      var front := batches[..|batches| - 1];
      RanFront(env, size, pairs, front, n);
      assert front[..n] == batches[..n];
    } else {
      assert batches[..n] == batches;
    }
  }

  /** The batch that dealt with pair `i`, and what it made of it. */
  lemma {:induction false} FateMade(env: Env, size: nat, pairs: seq<Pair>, batches: seq<Batch>, fates: seq<Fate>,
                                    i: nat)
    returns (n: nat)
    requires Ran(env, size, pairs, batches) && Made(env, pairs, batches, fates) && i < |fates|
    ensures n < |batches| && Went(env, pairs, batches[n])
    ensures batches[n].from <= i < batches[n].End() && Makes(env, pairs, batches[n], i - batches[n].from, fates[i])
  {
    var last := |batches| - 1;
    var b := batches[last];
    if i < b.from {
      n := FateMade(env, size, pairs, batches[..last], fates[..b.from], i);
      assert fates[..b.from][i] == fates[i];
    } else {
      n := last;
      assert fates[b.from..][i - b.from] == fates[i];
    }
  }

  /** The request was sent for a batch with pair `i` in it and before the row was tried;
      its reply succeeded, and gave `fate` its vector, for the pair's own text. */
  ghost predicate Gave(env: Env, pairs: seq<Pair>, sent: Request, i: nat, fate: Fate)
    requires fate.Tried?
  {
    && sent.from <= i < sent.from + sent.count <= |pairs| && sent.moment < fate.moment
    && var reply := env.post(sent.moment, Truncated(Texts(pairs[sent.from..sent.from + sent.count])));
       reply.Data? && Succeeds(reply, sent.count) && EmbedData(i - sent.from, fate.vector) in reply.data
  }

  lemma LastRequestGave(env: Env, pairs: seq<Pair>, b: Batch, i: nat, fate: Fate)
    requires Went(env, pairs, b) && b.from <= i < b.End() && Makes(env, pairs, b, i - b.from, fate) && fate.Tried?
    ensures Gave(env, pairs, RequestsOf(b)[b.posts - 1], i, fate) && fate.moment < b.ClockAfter()
  {
    assert Succeeds(BatchReply(env, pairs, b, b.posts - 1), b.count);
  }

  /** Every row tried was tried with the vector that a request of THIS drain brought, and
      before any later request. */
  lemma FateRequested(env: Env, size: nat, pairs: seq<Pair>, batches: seq<Batch>, fates: seq<Fate>, i: nat)
    returns (r: nat)
    requires Ran(env, size, pairs, batches) && Made(env, pairs, batches, fates) && i < |fates| && fates[i].Tried?
    ensures r < |Log(batches)| && Gave(env, pairs, Log(batches)[r], i, fates[i])
    ensures forall s :: r < s < |Log(batches)| ==> fates[i].moment < Log(batches)[s].moment
  {
    var n := FateMade(env, size, pairs, batches, fates, i);
    LastRequestGave(env, pairs, batches[n], i, fates[i]);
    r := LastRequestAt(env, size, pairs, batches, n);
  }

  lemma LogSnoc(batches: seq<Batch>, n: nat)
    requires n < |batches|
    ensures Log(batches[..n + 1]) == Log(batches[..n]) + RequestsOf(batches[n])
  {
    var here := batches[..n + 1];
    assert here[..n] == batches[..n] && here[n] == batches[n];
  }

  /** Where the log has the last request of batch `n`; the later ones are sent behind
      everything that batch did. */
  lemma LastRequestAt(env: Env, size: nat, pairs: seq<Pair>, batches: seq<Batch>, n: nat) returns (r: nat)
    requires Ran(env, size, pairs, batches) && n < |batches| && batches[n].posts > 0
    ensures r < |Log(batches)| && Log(batches)[r] == RequestsOf(batches[n])[batches[n].posts - 1]
    ensures forall s :: r < s < |Log(batches)| ==> batches[n].ClockAfter() < Log(batches)[s].moment
  {
    var here := batches[..n + 1];
    LogHolds(batches, n + 1);
    LogSnoc(batches, n);
    r := |Log(here)| - 1;
    assert Log(batches)[r] == Log(batches)[..|Log(here)|][r];
    if n + 1 < |batches| {
      forall s | r < s < |Log(batches)|
        ensures batches[n].ClockAfter() < Log(batches)[s].moment
      {
        SentLater(env, size, pairs, batches, n + 1, s);
        assert here[n] == batches[n];
      }
    } else {
      assert here == batches;
    }
  }

  /** A request of a later batch is sent behind everything the first `n` batches did. */
  lemma {:induction false} SentLater(env: Env, size: nat, pairs: seq<Pair>, batches: seq<Batch>, n: nat, s: nat)
    requires Ran(env, size, pairs, batches) && n < |batches| && |Log(batches[..n])| <= s < |Log(batches)|
    ensures ClockOf(batches[..n]) < Log(batches)[s].moment
    decreases |batches|
  {
    var front := batches[..|batches| - 1];
    assert front[..n] == batches[..n];
    if n < |front| && s < |Log(front)| {
      SentLater(env, size, pairs, front, n, s);
    } else {
      RanFront(env, size, pairs, front, n);
    }
  }

  lemma RanAt(env: Env, size: nat, pairs: seq<Pair>, batches: seq<Batch>, n: nat)
    requires Ran(env, size, pairs, batches) && n < |batches|
    ensures Ran(env, size, pairs, batches[..n])
    ensures batches[n].from == EndOf(batches[..n]) && batches[n].start == ClockOf(batches[..n])
  {
    RanFront(env, size, pairs, batches, n + 1);
    var here := batches[..n + 1];
    assert here[..n] == batches[..n] && here[n] == batches[n];
  }

  lemma BatchBefore(env: Env, size: nat, pairs: seq<Pair>, batches: seq<Batch>, m: nat)
    requires Ran(env, size, pairs, batches) && m < |batches|
    ensures batches[m].End() <= EndOf(batches) && batches[m].ClockAfter() <= ClockOf(batches)
  {
    RanFront(env, size, pairs, batches, m + 1);
    assert batches[..m + 1][m] == batches[m];
  }

  /** A batch begins where and when all earlier ones have ended. */
  lemma BatchApart(env: Env, size: nat, pairs: seq<Pair>, batches: seq<Batch>, m: nat, n: nat)
    requires Ran(env, size, pairs, batches) && m < n < |batches|
    ensures batches[m].End() <= batches[n].from && batches[m].ClockAfter() <= batches[n].start
  {
    RanAt(env, size, pairs, batches, n);
    BatchBefore(env, size, pairs, batches[..n], m);
  }

  lemma FateMoment(env: Env, size: nat, pairs: seq<Pair>, batches: seq<Batch>, fates: seq<Fate>, i: nat)
    returns (n: nat)
    requires Ran(env, size, pairs, batches) && Made(env, pairs, batches, fates) && i < |fates| && fates[i].Tried?
    ensures n < |batches| && batches[n].from <= i < batches[n].End() && batches[n].landed
    ensures fates[i].moment == batches[n].start + 2 * batches[n].posts + (i - batches[n].from)
  {
    n := FateMade(env, size, pairs, batches, fates, i);
  }

  /** Rows are tried one after the other, in the order of the pairs. */
  lemma RowsInOrder(env: Env, size: nat, pairs: seq<Pair>, batches: seq<Batch>, fates: seq<Fate>, i: nat, j: nat)
    requires Ran(env, size, pairs, batches) && Made(env, pairs, batches, fates)
    requires i < j < |fates| && fates[i].Tried? && fates[j].Tried?
    ensures fates[i].moment < fates[j].moment
  {
    var m := FateMoment(env, size, pairs, batches, fates, i);
    var n := FateMoment(env, size, pairs, batches, fates, j);
    MomentsApart(env, size, pairs, batches, m, n, i, j);
  }

  lemma MomentsApart(env: Env, size: nat, pairs: seq<Pair>, batches: seq<Batch>, m: nat, n: nat, i: nat, j: nat)
    requires Ran(env, size, pairs, batches) && m < |batches| && n < |batches| && i < j
    requires batches[m].from <= i < batches[m].End() && batches[n].from <= j < batches[n].End() && batches[m].landed
    ensures batches[m].start + 2 * batches[m].posts + (i - batches[m].from)
            < batches[n].start + 2 * batches[n].posts + (j - batches[n].from)
  {
    if m < n {
      BatchApart(env, size, pairs, batches, m, n);
    } else if n < m {
      BatchApart(env, size, pairs, batches, n, m);
    }
  }

  ghost predicate AlwaysRed(env: Env) {
    forall n :: env.red(n)
  }

  ghost predicate Healthy(env: Env) {
    && (forall n :: !env.red(n))
    && (forall n, texts :: Succeeds(env.post(n, Truncated(texts)), |texts|))
  }

  lemma HealthyLands(env: Env, pairs: seq<Pair>, b: Batch)
    requires Healthy(env) && Went(env, pairs, b)
    ensures b.landed
  {
    assert Succeeds(BatchReply(env, pairs, b, 0), |Texts(pairs[b.from..b.End()])|);
  }

  lemma HealthyTries(env: Env, size: nat, pairs: seq<Pair>, batches: seq<Batch>, fates: seq<Fate>)
    requires Healthy(env) && Ran(env, size, pairs, batches) && Made(env, pairs, batches, fates)
    ensures AllTried(fates)
  {
    forall i | 0 <= i < |fates|
      ensures fates[i].Tried?
    {
      var n := FateMade(env, size, pairs, batches, fates, i);
      HealthyLands(env, pairs, batches[n]);
    }
  }

  /** A backend that is always red is not asked at all; one that is always well parks nothing. */
  lemma ExtremeDrains(env: Env, size: nat, pairs: seq<Pair>, batches: seq<Batch>, fates: seq<Fate>, parked: seq<string>,
                      stored: seq<Row>)
    requires Drained(env, size, pairs, batches, fates) && Divided(env, pairs, |pairs|, fates, parked, stored)
    ensures AlwaysRed(env) ==> Log(batches) == [] && stored == [] && parked == PathsOf(pairs)
    ensures Healthy(env) ==> AllTried(fates) && parked == []
  {
    assert pairs[..|pairs|] == pairs;
    if AlwaysRed(env) {
      assert batches == [];
      assert fates == fates[0..];
      ParkedPicked(env, pairs);
    }
    if Healthy(env) {
      assert fates == fates[..EndOf(batches)];
      HealthyTries(env, size, pairs, batches, fates);
      TriedPicked(env, pairs, fates);
    }
  }

  // ---------------------------------------------------------------------
  // The drain.

  lemma PlacedAnswer(data: seq<EmbedData>, vectors: seq<Vector>, k: nat)
    requires k < |vectors| && IsPermutation(data, |vectors|) && Places(data, vectors)
    ensures EmbedData(k, vectors[k]) in data
  {
    assert Has(data, k);
    var j :| 0 <= j < |data| && data[j].index == k;
    assert data[j] == EmbedData(k, vectors[k]);
  }

  /** Tries one row for each pair of a batch: every slot has its vector, so none is
      skipped for a batch that came back short. Only the rows the store takes are
      stored; the others are skipped, and no one hears of them. */
  method UpsertBatch(env: Env, start: nat, chunk: seq<Pair>, ordered: seq<Vector>)
    returns (fates: seq<Fate>, stored: seq<Row>, wrote: bool, clock: nat)
    requires |ordered| == |chunk|
    ensures |fates| == |chunk| && forall k :: 0 <= k < |chunk| ==> fates[k] == Tried(ordered[k], start + k)
    ensures stored == Stored(env, chunk, fates)
    ensures wrote <==> stored != []
    ensures clock == start + |chunk|
  {
    fates, stored, wrote, clock := [], [], false, start;
    for slot := 0 to |chunk|
      invariant |fates| == slot && clock == start + slot
      invariant forall k :: 0 <= k < slot ==> fates[k] == Tried(ordered[k], start + k)
      invariant stored == Stored(env, chunk[..slot], fates)
      invariant wrote <==> stored != []
    {
      var path, vector := chunk[slot].path, ordered[slot];
      assert chunk[..slot + 1][..slot] == chunk[..slot] && (fates + [Tried(vector, clock)])[..slot] == fates;
      fates := fates + [Tried(vector, clock)];
      if env.upsert(clock, path, vector) {
        stored := stored + [Row(path, vector)];
        wrote := true;
      }
      clock := clock + 1;
    }
    assert chunk[..|chunk|] == chunk;
  }

  predicate AllTried(fates: seq<Fate>) {
    forall i :: 0 <= i < |fates| ==> fates[i].Tried?
  }

  /** The first `idx` pairs are dealt with. */
  ghost predicate Divided(env: Env, pairs: seq<Pair>, idx: nat, fates: seq<Fate>, parked: seq<string>,
                          stored: seq<Row>)
  {
    && idx <= |pairs| && |fates| == idx
    && parked == Picked(env, pairs[..idx], fates, Parking)
    && stored == Stored(env, pairs[..idx], fates)
  }

  /** The next pairs, dealt with on their own. */
  lemma DivideMore(env: Env, pairs: seq<Pair>, idx: nat, end: nat, fates: seq<Fate>, parked: seq<string>,
                   stored: seq<Row>, moreFates: seq<Fate>, moreParked: seq<string>, moreStored: seq<Row>)
    requires Divided(env, pairs, idx, fates, parked, stored) && idx <= end <= |pairs|
    requires BatchDone(env, pairs[idx..end], moreFates, moreParked, moreStored)
    ensures Divided(env, pairs, end, fates + moreFates, parked + moreParked, stored + moreStored)
  {
    var more := pairs[idx..end];
    assert pairs[..end] == pairs[..idx] + more;
    PickedAppend(env, pairs[..idx], fates, more, moreFates, Parking);
    StoredAppend(env, pairs[..idx], fates, more, moreFates);
  }

  ghost predicate BatchDone(env: Env, chunk: seq<Pair>, fates: seq<Fate>, parked: seq<string>, stored: seq<Row>) {
    && |fates| == |chunk|
    && parked == Picked(env, chunk, fates, Parking) && stored == Stored(env, chunk, fates)
  }

  lemma BatchParked(env: Env, chunk: seq<Pair>)
    ensures BatchDone(env, chunk, AllParked(|chunk|), PathsOf(chunk), [])
  {
    ParkedPicked(env, chunk);
  }

  lemma RanMore(env: Env, size: nat, pairs: seq<Pair>, batches: seq<Batch>, b: Batch)
    requires Ran(env, size, pairs, batches) && Went(env, pairs, b)
    requires b.from == EndOf(batches) && b.start == ClockOf(batches) && b.count == Min(size, |pairs| - b.from)
    ensures Ran(env, size, pairs, batches + [b])
  {
    assert (batches + [b])[..|batches|] == batches;
  }

  lemma MadeMore(env: Env, pairs: seq<Pair>, batches: seq<Batch>, fates: seq<Fate>, b: Batch, more: seq<Fate>)
    requires Made(env, pairs, batches, fates) && MakesAll(env, pairs, b, more) && b.from == EndOf(batches)
    ensures Made(env, pairs, batches + [b], fates + more)
  {
    assert (batches + [b])[..|batches|] == batches;
    assert (fates + more)[..b.from] == fates && (fates + more)[b.from..] == more;
  }

  /** Whatever came of the attempts, the batch went as the environment has it. */
  lemma BatchWent(env: Env, pairs: seq<Pair>, b: Batch, texts: seq<string>)
    requires b.count > 0 && b.End() <= |pairs| && texts == Texts(pairs[b.from..b.End()])
    requires !env.red(b.start) && 1 <= b.posts <= EMBED_ATTEMPTS && ChecksPass(env, b.start + 1, b.posts)
    requires if b.landed then LandsAt(env, b.start + 1, texts, b.posts - 1)
             else AllFail(env, b.start + 1, texts, b.posts)
    requires b.landed || b.posts == EMBED_ATTEMPTS || env.red(b.start + 2 * b.posts)
    ensures Went(env, pairs, b)
  {
  }

  lemma BatchMakes(env: Env, pairs: seq<Pair>, b: Batch, vectors: seq<Vector>, fates: seq<Fate>)
    requires Went(env, pairs, b) && b.landed && |vectors| == |fates| == b.count
    requires Places(BatchReply(env, pairs, b, b.posts - 1).data, vectors)
    requires forall k :: 0 <= k < |fates| ==> fates[k] == Tried(vectors[k], b.start + 2 * b.posts + k)
    ensures MakesAll(env, pairs, b, fates)
  {
    forall k | 0 <= k < |fates|
      ensures Makes(env, pairs, b, k, fates[k])
    {
      PlacedAnswer(BatchReply(env, pairs, b, b.posts - 1).data, vectors, k);
    }
  }

  /** One batch through, behind a check that did not read red: every row is tried, or the
      whole batch is parked. */
  method ProcessBatch(env: Env, start: nat, pairs: seq<Pair>, from: nat, end: nat)
    returns (b: Batch, fates: seq<Fate>, parked: seq<string>, stored: seq<Row>, wrote: bool, clock: nat)
    requires from < end <= |pairs| && !env.red(start)
    ensures Went(env, pairs, b) && b.from == from && b.End() == end && b.start == start
    ensures MakesAll(env, pairs, b, fates)
    ensures BatchDone(env, pairs[from..end], fates, parked, stored)
    ensures wrote <==> stored != []
    ensures clock == b.ClockAfter()
  {
    var chunk := pairs[from..end];
    var vecs, posts;
    vecs, posts, clock := TryBatch(env, start + 1, Texts(chunk));
    b := Batch(from, |chunk|, start, posts, vecs.Some?);
    BatchWent(env, pairs, b, Texts(chunk));
    if vecs.None? {
      BatchParked(env, chunk);
      return b, AllParked(|chunk|), PathsOf(chunk), [], false, clock;
    }
    parked := [];
    fates, stored, wrote, clock := UpsertBatch(env, clock, chunk, vecs.value);
    BatchMakes(env, pairs, b, vecs.value, fates);
    TriedPicked(env, chunk, fates);
  }

  /** A drain: batch after batch, up to the end or to the first check before a batch that
      reads red; from there on everything is parked. The fates before are what the
      batches' own requests and upserts made of the pairs. */
  ghost predicate Drained(env: Env, size: nat, pairs: seq<Pair>, batches: seq<Batch>, fates: seq<Fate>) {
    && Ran(env, size, pairs, batches) && EndOf(batches) <= |fates| == |pairs|
    && Made(env, pairs, batches, fates[..EndOf(batches)])
    && (EndOf(batches) < |pairs| ==> env.red(ClockOf(batches)))
    && fates[EndOf(batches)..] == AllParked(|pairs| - EndOf(batches))
  }

  lemma DrainMore(env: Env, size: nat, pairs: seq<Pair>, batches: seq<Batch>, fates: seq<Fate>, parked: seq<string>,
                  stored: seq<Row>, b: Batch, made: seq<Fate>, held: seq<string>, rows: seq<Row>)
    requires Ran(env, size, pairs, batches) && Made(env, pairs, batches, fates) && EndOf(batches) == |fates|
    requires Divided(env, pairs, |fates|, fates, parked, stored)
    requires Went(env, pairs, b) && MakesAll(env, pairs, b, made)
    requires b.from == |fates| && b.start == ClockOf(batches) && b.count == Min(size, |pairs| - b.from)
    requires BatchDone(env, pairs[b.from..b.End()], made, held, rows)
    ensures Ran(env, size, pairs, batches + [b]) && Made(env, pairs, batches + [b], fates + made)
    ensures Divided(env, pairs, b.End(), fates + made, parked + held, stored + rows)
  {
    DivideMore(env, pairs, |fates|, b.End(), fates, parked, stored, made, held, rows);
    RanMore(env, size, pairs, batches, b);
    MadeMore(env, pairs, batches, fates, b, made);
  }

  /** The rest is parked. */
  lemma ParkRest(env: Env, size: nat, pairs: seq<Pair>, batches: seq<Batch>, fates: seq<Fate>)
    requires Ran(env, size, pairs, batches) && EndOf(batches) == |fates| <= |pairs| && Made(env, pairs, batches, fates)
    requires |fates| < |pairs| ==> env.red(ClockOf(batches))
    ensures Drained(env, size, pairs, batches, fates + AllParked(|pairs| - |fates|))
  {
    var all := fates + AllParked(|pairs| - |fates|);
    assert all[..|fates|] == fates && all[|fates|..] == AllParked(|pairs| - |fates|);
  }

  lemma DivideRest(env: Env, pairs: seq<Pair>, idx: nat, fates: seq<Fate>, parked: seq<string>, stored: seq<Row>)
    requires Divided(env, pairs, idx, fates, parked, stored)
    ensures Divided(env, pairs, |pairs|, fates + AllParked(|pairs| - idx), parked + PathsOf(pairs[idx..]), stored)
  {
    var rest := pairs[idx..|pairs|];
    assert rest == pairs[idx..];
    BatchParked(env, rest);
    DivideMore(env, pairs, idx, |pairs|, fates, parked, stored, AllParked(|rest|), PathsOf(rest), []);
    assert stored + [] == stored;
  }

  /** One round of the loop, behind a check that did not read red. */
  method NextBatch(env: Env, size: nat, pairs: seq<Pair>, start: nat, batches: seq<Batch>, fates: seq<Fate>,
                   parked: seq<string>, stored: seq<Row>)
    returns (ran: seq<Batch>, made: seq<Fate>, held: seq<string>, rows: seq<Row>, wrote: bool, clock: nat)
    requires size > 0 && !env.red(start) && start == ClockOf(batches)
    requires Ran(env, size, pairs, batches) && Made(env, pairs, batches, fates)
    requires EndOf(batches) == |fates| < |pairs| && Divided(env, pairs, |fates|, fates, parked, stored)
    ensures Ran(env, size, pairs, ran) && Made(env, pairs, ran, made)
    ensures |fates| < EndOf(ran) == |made| <= |pairs| && Divided(env, pairs, |made|, made, held, rows)
    ensures clock == ClockOf(ran) && (wrote <==> |rows| > |stored|) && |rows| >= |stored|
  {
    var end := |fates| + Min(size, |pairs| - |fates|);
    var b, more, parting, storing;
    b, more, parting, storing, wrote, clock := ProcessBatch(env, start, pairs, |fates|, end);
    DrainMore(env, size, pairs, batches, fates, parked, stored, b, more, parting, storing);
    ran, made, held, rows := batches + [b], fates + more, parked + parting, stored + storing;
  }

  method EmbedAndUpsert(env: Env, batchSize: nat, pairs: seq<Pair>)
    returns (wrote: bool, parked: seq<string>, stored: seq<Row>, batches: seq<Batch>, fates: seq<Fate>)
    ensures Drained(env, if batchSize < 1 then 1 else batchSize, pairs, batches, fates)
    ensures Divided(env, pairs, |pairs|, fates, parked, stored)
    ensures wrote <==> stored != []
    ensures |Log(batches)| <= EMBED_ATTEMPTS * |pairs|
    ensures AlwaysRed(env) ==> Log(batches) == [] && stored == [] && parked == PathsOf(pairs)
    ensures Healthy(env) ==> AllTried(fates) && parked == []
  {
    var batch := if batchSize < 1 then 1 else batchSize;
    var idx: nat, clock: nat := 0, 0;
    wrote, parked, stored, batches, fates := false, [], [], [], [];
    while idx < |pairs|
      invariant idx == EndOf(batches) == |fates| <= |pairs| && clock == ClockOf(batches)
      invariant Ran(env, batch, pairs, batches)
      invariant Made(env, pairs, batches, fates)
      invariant Divided(env, pairs, idx, fates, parked, stored)
      invariant wrote <==> stored != []
    {
      if env.red(clock) {
        break;
      }
      var any;
      batches, fates, parked, stored, any, clock := NextBatch(env, batch, pairs, clock, batches, fates, parked, stored);
      wrote, idx := wrote || any, EndOf(batches);
    }
    ParkRest(env, batch, pairs, batches, fates);
    DivideRest(env, pairs, idx, fates, parked, stored);
    parked, fates := parked + PathsOf(pairs[idx..]), fates + AllParked(|pairs| - idx);
    LogBounded(env, batch, pairs, batches);
    ExtremeDrains(env, batch, pairs, batches, fates, parked, stored);
  }

  // ---------------------------------------------------------------------
  // What the division means.

  function Only(condition: bool, p: string): seq<string> {
    if condition then [p] else []
  }

  lemma ThreeGrow(a: seq<string>, b: seq<string>, c: seq<string>, all: seq<string>, p: string, kind: Kind)
    requires multiset(a) + multiset(b) + multiset(c) == multiset(all)
    ensures multiset(a + Only(kind == Parking, p)) + multiset(b + Only(kind == Storing, p))
            + multiset(c + Only(kind == Losing, p)) == multiset(all + [p])
  {
  }

  lemma StoredPaths(env: Env, pairs: seq<Pair>, fates: seq<Fate>)
    requires |fates| == |pairs| > 0
    ensures
      var n := |pairs| - 1;
      RowPaths(Stored(env, pairs, fates))
      == RowPaths(Stored(env, pairs[..n], fates[..n])) + Only(KindOf(env, pairs[n], fates[n]) == Storing, pairs[n].path)
  {
  }

  /** Nothing is doubled: the parked, the stored and the lost are together the input. */
  lemma {:induction false} ThreeWays(env: Env, pairs: seq<Pair>, fates: seq<Fate>)
    requires |fates| == |pairs|
    ensures multiset(Picked(env, pairs, fates, Parking)) + multiset(RowPaths(Stored(env, pairs, fates)))
            + multiset(Picked(env, pairs, fates, Losing)) == multiset(PathsOf(pairs))
  {
    if |pairs| == 0 {
      assert PathsOf(pairs) == [];
    } else {
      var n := |pairs| - 1;
      ThreeWays(env, pairs[..n], fates[..n]);
      assert PathsOf(pairs) == PathsOf(pairs[..n]) + [pairs[n].path];
      StoredPaths(env, pairs, fates);
      ThreeGrow(Picked(env, pairs[..n], fates[..n], Parking), RowPaths(Stored(env, pairs[..n], fates[..n])),
                Picked(env, pairs[..n], fates[..n], Losing), PathsOf(pairs[..n]), pairs[n].path,
                KindOf(env, pairs[n], fates[n]));
    }
  }

  lemma {:induction false} LostPicked(env: Env, pairs: seq<Pair>, fates: seq<Fate>)
    requires |fates| == |pairs|
    ensures Picked(env, pairs, fates, Losing) == []
            <==> forall i :: 0 <= i < |pairs| ==> KindOf(env, pairs[i], fates[i]) != Losing
  {
    if |pairs| > 0 {
      LostPicked(env, pairs[..|pairs| - 1], fates[..|pairs| - 1]);
    }
  }

  /** A drain stores or parks every pair exactly when no row it tries is refused: a
      refused row is neither stored nor parked. */
  lemma NothingLost(env: Env, pairs: seq<Pair>, fates: seq<Fate>)
    requires |fates| == |pairs|
    ensures multiset(Picked(env, pairs, fates, Parking)) + multiset(RowPaths(Stored(env, pairs, fates)))
            == multiset(PathsOf(pairs))
            <==> forall i :: 0 <= i < |pairs| && fates[i].Tried? ==>
              env.upsert(fates[i].moment, pairs[i].path, fates[i].vector)
  {
    ThreeWays(env, pairs, fates);
    LostPicked(env, pairs, fates);
    NoneLost(multiset(Picked(env, pairs, fates, Parking)) + multiset(RowPaths(Stored(env, pairs, fates))),
             Picked(env, pairs, fates, Losing), PathsOf(pairs));
    assert forall i :: 0 <= i < |pairs| ==> (KindOf(env, pairs[i], fates[i]) != Losing
      <==> (fates[i].Tried? ==> env.upsert(fates[i].moment, pairs[i].path, fates[i].vector)));
  }

  // ---------------------------------------------------------------------
  // A row that is lost.

  /** A backend that answers every text with the one vector, and a store that takes nothing. */
  function RefusingEnv(): Env {
    Env(_ => false, (_, texts: seq<string>) => Data(OneEach(|texts|)), (_, _, _) => false)
  }

  function OneEach(n: nat): (r: seq<EmbedData>)
    ensures |r| == n
    ensures forall k :: 0 <= k < n ==> r[k] == EmbedData(k, [Finite(1.0)])
  {
    seq(n, (k: nat) => EmbedData(k, [Finite(1.0)]))
  }

  lemma OneEachFits(n: nat)
    ensures IsPermutation(OneEach(n), n)
  {
    forall i: nat | i < n
      ensures Has(OneEach(n), i)
    {
      assert OneEach(n)[i].index == i;
    }
  }

  lemma RefusingHealthy()
    ensures Healthy(RefusingEnv())
  {
    forall n: nat, texts: seq<string>
      ensures Succeeds(RefusingEnv().post(n, Truncated(texts)), |texts|)
    {
      OneEachFits(|Truncated(texts)|);
    }
  }

  lemma {:induction false} NothingStored(env: Env, pairs: seq<Pair>, fates: seq<Fate>)
    requires |fates| == |pairs| && forall n, path, vector :: !env.upsert(n, path, vector)
    ensures Stored(env, pairs, fates) == []
  {
    if |pairs| > 0 {
      NothingStored(env, pairs[..|pairs| - 1], fates[..|pairs| - 1]);
    }
  }

  /** A drain that loses rows: with the backend well and the store refusing, no pair is
      parked and none is stored. */
  method LoseRows(pairs: seq<Pair>) returns (wrote: bool, parked: seq<string>, stored: seq<Row>)
    ensures parked == [] && stored == [] && !wrote
  {
    RefusingHealthy();
    var batches, fates;
    wrote, parked, stored, batches, fates := EmbedAndUpsert(RefusingEnv(), 1, pairs);
    assert pairs[..|pairs|] == pairs;
    NothingStored(RefusingEnv(), pairs, fates);
  }

  lemma NoneLost(kept: multiset<string>, lost: seq<string>, all: seq<string>)
    requires kept + multiset(lost) == multiset(all)
    ensures kept == multiset(all) <==> lost == []
  {
    if lost != [] {
      assert lost[0] in multiset(lost);
      assert kept[lost[0]] < multiset(all)[lost[0]];
    }
  }
}
