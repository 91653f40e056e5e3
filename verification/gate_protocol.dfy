/**
 Every interleaving of the gate's callers, as a state machine.

 A step is what one caller does between two points at which another caller may
 run: a critical section, or the collection of a mailbox nobody else reads.
 `futures` are the `enter` calls that are neither finished nor dropped, `permits`
 the runs that hold a slot.
 */
module GateProtocol {
  import opened Wrappers
  import opened GateState

  /** Where an `enter` future is once it has enqueued. */
  datatype Stage =
    | Awaiting      // in the bounded wait for its mailbox
    | BoundMissed   // its bound elapsed, but it had already left the queue
    | DropMissed    // it was dropped, but it had already left the queue

  datatype Future = Future(user: Option<UserId>, stage: Stage)

  datatype World = World(
    gate: Gate,
    futures: map<nat, Future>,
    permits: map<nat, Option<UserId>>,
    nextPermit: nat)
  {
    /** The future is over and its receiver with it. */
    function EndFuture(id: nat): World {
      this.(futures := futures - {id}, gate := gate.(mail := gate.mail - {id}))
    }

    function HandOut(user: Option<UserId>): World {
      this.(permits := permits[nextPermit := user], nextPermit := nextPermit + 1)
    }

    /** What a future finds in its mailbox decides how `enter` returns. */
    function ReadMail(id: nat): World
      requires id in futures && id in gate.mail
    {
      if gate.mail[id] == Admitted then EndFuture(id).HandOut(futures[id].user) else EndFuture(id)
    }
  }

  datatype Step =
    | Enter(user: Option<UserId>)
    | TryEnter
    | Collect(id: nat)
    | ElapseBound(id: nat)
    | SettleBound(id: nat)
    | Cancel(id: nat)
    | FinishCancel(id: nat)
    | DropPermit(permit: nat)
    | CloseGate
    | SetCapacity(n: nat)
    | SetPerUserActive(n: nat)
    | SetChatQueueDepth(n: nat)

  predicate At(w: World, id: nat, stage: Stage) {
    id in w.futures && id in w.gate.mail && w.futures[id].stage == stage
  }

  predicate Enabled(w: World, step: Step) {
    match step
    case Collect(id) => At(w, id, Awaiting) && w.gate.mail[id] != Empty
    case ElapseBound(id) => At(w, id, Awaiting)
    case SettleBound(id) => At(w, id, BoundMissed)
    case Cancel(id) => At(w, id, Awaiting)
    case FinishCancel(id) => At(w, id, DropMissed)
    case DropPermit(permit) => permit in w.permits
    case _ => true
  }

  function FastPath(gate: Gate, user: Option<UserId>): bool {
    gate.queue == [] && gate.active < gate.capacity && !gate.AtUserCap(user)
  }

  function Apply(w: World, step: Step): World
    requires Enabled(w, step)
  {
    match step
    case Enter(user) =>
      if FastPath(w.gate, user) then
        w.(gate := w.gate.GrantOnEntry(user)).HandOut(user)
      else
        w.(gate := w.gate.Enqueue(user).Dispatch(),
           futures := w.futures[w.gate.nextId := Future(user, Awaiting)])
    case TryEnter =>
      if w.gate.queue == [] && w.gate.active < w.gate.capacity then
        w.(gate := w.gate.GrantInBackground()).HandOut(None)
      else w
    case Collect(id) => w.ReadMail(id)
    case ElapseBound(id) =>
      (match PositionOf(w.gate.queue, id)
       case Some(k) => w.(gate := w.gate.GiveUp(k).NotifyPositions()).EndFuture(id)
       case None => w.(futures := w.futures[id := w.futures[id].(stage := BoundMissed)]))
    case SettleBound(id) => w.ReadMail(id)
    case Cancel(id) =>
      (match PositionOf(w.gate.queue, id)
       case Some(k) => w.(gate := w.gate.GiveUp(k).Dispatch()).EndFuture(id)
       case None => w.(futures := w.futures[id := w.futures[id].(stage := DropMissed)]))
    case FinishCancel(id) =>
      if w.gate.mail[id] == Admitted then
        w.(gate := w.gate.Release(w.futures[id].user)).EndFuture(id)
      else w.EndFuture(id)
    case DropPermit(permit) =>
      w.(gate := w.gate.Release(w.permits[permit]), permits := w.permits - {permit})
    case CloseGate => w.(gate := w.gate.Close())
    case SetCapacity(n) =>
      w.(gate := w.gate.(capacity := Clamp(n, CAPACITY_MIN, CAPACITY_MAX)).Dispatch())
    case SetPerUserActive(n) =>
      w.(gate := w.gate.(perUserActive := Clamp(n, PER_USER_MIN, PER_USER_MAX)).Dispatch())
    case SetChatQueueDepth(n) =>
      w.(gate := w.gate.(chatQueueDepth := Clamp(n, QUEUE_DEPTH_MIN, QUEUE_DEPTH_MAX)))
  }

  /** The part of `LlmConfig` that reaches the gate. */
  datatype GateConfig = GateConfig(maxParallel: nat, perUserActive: nat, chatQueueDepth: nat)

  const MAX_PARALLEL_MIN: nat := 1
  const MAX_PARALLEL_MAX: nat := 64

  /** The configuration's own clamp, narrower than the gate's for the slot count. */
  function Clamped(config: GateConfig): GateConfig {
    GateConfig(Clamp(config.maxParallel, MAX_PARALLEL_MIN, MAX_PARALLEL_MAX),
               Clamp(config.perUserActive, PER_USER_MIN, PER_USER_MAX),
               Clamp(config.chatQueueDepth, QUEUE_DEPTH_MIN, QUEUE_DEPTH_MAX))
  }

  function ConfigApplied(w: World, config: GateConfig): World {
    var clamped := Clamped(config);
    Apply(Apply(Apply(w, SetPerUserActive(clamped.perUserActive)),
                SetChatQueueDepth(clamped.chatQueueDepth)),
          SetCapacity(clamped.maxParallel))
  }

  function Init(capacity: nat): World {
    World(Gate(Clamp(capacity, CAPACITY_MIN, CAPACITY_MAX),
               DEFAULT_PER_USER_ACTIVE, DEFAULT_CHAT_QUEUE_DEPTH,
               0, map[], [], 0, 0, 0, 0, map[], [], []),
          map[], map[], 0)
  }

  /** One run: any starting capacity, then any enabled steps in any order. */
  ghost predicate IsRun(run: seq<World>, steps: seq<Step>) {
    && |run| == |steps| + 1
    && (exists capacity :: run[0] == Init(capacity))
    && forall i :: 0 <= i < |steps| ==> Enabled(run[i], steps[i]) && run[i + 1] == Apply(run[i], steps[i])
  }
}
