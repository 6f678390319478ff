/** The page side of the worker protocol, `useImageWorker`: readiness, the
    current task id, the resolver and the progress callback of the pending
    request, and the filter that drops every task message whose id is not the
    current one. A request is named by its call number; its resolver and its
    progress callback are named by the same number. Task ids come from the
    caller, since the hook draws them from the clock and a random source. */
module Hook {
  import opened Raster
  import opened Pipeline

  /** Why a request resolved without an image. */
  datatype Reason = NotReady | WasmInitFailed | TaskFailed | WorkerCrashed

  datatype Result = Success(data: Image) | Failure(reason: Reason)

  datatype Client = Client(
    workerCreated: bool, workerReady: bool, wasmInitialised: bool,
    current: Option<nat>, resolver: Option<nat>, onProgress: Option<nat>,
    progress: Option<int>)

  /** Messages the page posts to the worker. */
  datatype Command =
    | InitializeWasm
    | ProcessImage(taskId: nat, image: Image, adjustments: Adjustments)
    | CancelTask(taskId: nat)

  /** What a reaction does besides changing the client's state. */
  datatype Effect =
    | Resolve(request: nat, result: Result)
    | Report(request: nat, percent: int)
    | Post(command: Command)

  /** Messages the page receives from the worker, and the worker's error event. */
  datatype Incoming =
    | WorkerReady
    | WasmInitialised(success: bool)
    | WasmInitError
    | FromTask(m: WorkerMessage)
    | WorkerError
    | UnknownType

  datatype Reaction = Reaction(client: Client, effects: seq<Effect>)

  /** The state right after mounting; creating the worker may have failed. */
  function Mounted(workerCreated: bool): (c: Client)
    ensures !c.workerReady && !c.wasmInitialised && c.current.None?
  {
    Client(workerCreated, false, false, None, None, None, None)
  }

  /** `isReady`. */
  predicate IsReady(c: Client)
  {
    c.workerReady && c.wasmInitialised
  }

  /** Forgetting the current task and both callbacks. */
  function Cleared(c: Client): (r: Client)
    ensures r.current.None? && r.resolver.None? && r.onProgress.None? && r.progress.None?
    ensures r.workerCreated == c.workerCreated && r.workerReady == c.workerReady
    ensures r.wasmInitialised == c.wasmInitialised
  {
    c.(current := None, resolver := None, onProgress := None, progress := None)
  }

  /** Calling the pending resolver, if there is one. */
  function ResolvePending(c: Client, result: Result): seq<Effect>
  {
    if c.resolver.Some? then [Resolve(c.resolver.value, result)] else []
  }

  /** A task message for the current task. */
  function TaskReaction(c: Client, m: WorkerMessage): Reaction
  {
    match m
    case Progress(_, p) =>
      Reaction(c.(progress := Some(p)),
               if c.onProgress.Some? then [Report(c.onProgress.value, p)] else [])
    case Complete(_, data) => Reaction(Cleared(c), ResolvePending(c, Success(data)))
    case Failed(_) => Reaction(Cleared(c), ResolvePending(c, Failure(TaskFailed)))
    case Cancelled(_) => Reaction(Cleared(c), [])
  }

  /** `worker.onmessage` and `worker.onerror`. */
  function Receive(c: Client, msg: Incoming): Reaction
  {
    match msg
    case WorkerReady => Reaction(c.(workerReady := true), [Post(InitializeWasm)])
    case WasmInitialised(success) =>
      Reaction(if success then c.(wasmInitialised := true) else c, [])
    case WasmInitError => Reaction(c, ResolvePending(c, Failure(WasmInitFailed)))
    case FromTask(m) =>
      if c.current != Some(m.taskId) then Reaction(c, [])
      else TaskReaction(c, m)
    case WorkerError => Reaction(c, ResolvePending(c, Failure(WorkerCrashed)))
    case UnknownType => Reaction(c, [])
  }

  /** `processImage(imageData, adjustments, onProgress)` as call number
      `request`, with `freshId` the id it draws. */
  function Submit(c: Client, request: nat, image: Image, adjustments: Adjustments,
                  wantsProgress: bool, freshId: nat): Reaction
  {
    if !c.workerCreated || !c.wasmInitialised then
      Reaction(c, [Resolve(request, Failure(NotReady))])
    else
      Reaction(c.(current := Some(freshId), resolver := Some(request),
                  onProgress := if wantsProgress then Some(request) else None),
               (if c.current.Some? then [Post(CancelTask(c.current.value))] else [])
               + [Post(ProcessImage(freshId, image, adjustments))])
  }

  /** `cancelProcessing`. */
  function CancelCurrent(c: Client): Reaction
  {
    Reaction(c, if c.workerCreated && c.current.Some? then [Post(CancelTask(c.current.value))] else [])
  }

  // ---------------------------------------------------------- invariants

  /** A task is pending exactly when a resolver is stored, and the progress
      callback, if any, belongs to the same request. */
  predicate Tracking(c: Client)
  {
    && (c.current.Some? <==> c.resolver.Some?)
    && (c.onProgress.Some? ==> c.resolver == c.onProgress)
  }

  /** WASM_INITIALIZATION_ERROR and the worker's `onerror` call the held
      resolver with a failure but keep it, together with the task id: the
      same request can be resolved again by a later message. */
  lemma ErrorKeepsPendingRequest(c: Client, msg: Incoming)
    requires msg == WasmInitError || msg == WorkerError
    ensures Receive(c, msg).client == c
    ensures c.resolver.Some? ==>
              Receive(c, msg).effects ==
                [Resolve(c.resolver.value,
                         Failure(if msg == WasmInitError then WasmInitFailed else WorkerCrashed))]
    ensures c.resolver.None? ==> Receive(c, msg).effects == []
  {
  }

  lemma ReceiveKeepsTracking(c: Client, msg: Incoming)
    requires Tracking(c)
    ensures Tracking(Receive(c, msg).client)
  {
  }

  lemma SubmitKeepsTracking(c: Client, request: nat, image: Image, adjustments: Adjustments,
                            wantsProgress: bool, freshId: nat)
    requires Tracking(c)
    ensures Tracking(Submit(c, request, image, adjustments, wantsProgress, freshId).client)
  {
  }

  // ----------------------------------------------------- the task filter

  /** A task message whose id is not the current one changes nothing and
      calls nothing. */
  lemma StaleMessageIgnored(c: Client, m: WorkerMessage)
    requires c.current != Some(m.taskId)
    ensures Receive(c, FromTask(m)).client == c
    ensures Receive(c, FromTask(m)).effects == []
  {
  }

  /** A matching completion resolves the pending request with success and
      its image, and forgets the task and both callbacks. */
  lemma CompletionResolvesOnce(c: Client, id: nat, data: Image)
    requires Tracking(c) && c.current == Some(id)
    ensures var r := Receive(c, FromTask(Complete(id, data)));
            && r.effects == [Resolve(c.resolver.value, Success(data))]
            && r.client.current.None? && r.client.resolver.None? && r.client.onProgress.None?
            && IsReady(r.client) == IsReady(c)
  {
  }

  /** A matching failure resolves the pending request without an image and
      forgets the same state. */
  lemma FailureResolvesOnce(c: Client, id: nat)
    requires Tracking(c) && c.current == Some(id)
    ensures var r := Receive(c, FromTask(Failed(id)));
            && |r.effects| == 1 && r.effects[0].Resolve?
            && r.effects[0].request == c.resolver.value && r.effects[0].result.Failure?
            && r.client.current.None? && r.client.resolver.None? && r.client.onProgress.None?
  {
  }

  /** A matching cancellation forgets the task without calling anything. */
  lemma CancellationIsSilent(c: Client, id: nat)
    requires c.current == Some(id)
    ensures var r := Receive(c, FromTask(Cancelled(id)));
            && r.effects == [] && r.client.current.None? && r.client.resolver.None?
            && r.client.onProgress.None?
  {
  }

  /** Progress for the current task is stored and reported to that
      request's callback only. */
  lemma ProgressReachesOwner(c: Client, id: nat, p: int)
    requires Tracking(c) && c.current == Some(id)
    ensures var r := Receive(c, FromTask(Progress(id, p)));
            && r.client.progress == Some(p) && r.client.current == c.current
            && forall k :: 0 <= k < |r.effects| ==> r.effects[k] == Report(c.resolver.value, p)
  {
  }

  // ------------------------------------------------------------ requests

  /** Without a worker or an initialised module a request fails at once,
      posts nothing and leaves the state alone. */
  lemma NotReadyFailsAtOnce(c: Client, request: nat, image: Image, adjustments: Adjustments,
                            wantsProgress: bool, freshId: nat)
    requires !c.workerCreated || !c.wasmInitialised
    ensures var r := Submit(c, request, image, adjustments, wantsProgress, freshId);
            && r.client == c
            && r.effects == [Resolve(request, Failure(NotReady))]
  {
  }

  /** A new request while one is pending cancels the old task first, then
      starts the new one, and the old task's messages are ignored from then
      on. */
  lemma SupersedeCancelsFirst(c: Client, request: nat, image: Image, adjustments: Adjustments,
                              wantsProgress: bool, freshId: nat, m: WorkerMessage)
    requires c.workerCreated && c.wasmInitialised && c.current.Some?
    requires c.current.value != freshId && m.taskId == c.current.value
    ensures var r := Submit(c, request, image, adjustments, wantsProgress, freshId);
            && r.effects == [Post(CancelTask(c.current.value)), Post(ProcessImage(freshId, image, adjustments))]
            && r.client.current == Some(freshId)
            && Receive(r.client, FromTask(m)) == Reaction(r.client, [])
  {
  }

  /** `WORKER_READY` posts exactly one `INITIALIZE_WASM`, and the hook is
      ready once the module reports success. */
  lemma ReadinessHandshake(c: Client)
    ensures var r := Receive(c, WorkerReady);
            && r.effects == [Post(InitializeWasm)]
            && r.client.workerReady
            && (IsReady(r.client) <==> c.wasmInitialised)
            && IsReady(Receive(r.client, WasmInitialised(true)).client)
            && (IsReady(Receive(r.client, WasmInitialised(false)).client) <==> c.wasmInitialised)
  {
  }

  // -------------------------------------- a superseded resolver stays silent

  /** Whatever the page does next. */
  datatype Action =
    | Deliver(msg: Incoming)
    | Request(request: nat, image: Image, adjustments: Adjustments, wantsProgress: bool, freshId: nat)
    | CancelRequest

  function React(c: Client, a: Action): Reaction
  {
    match a
    case Deliver(msg) => Receive(c, msg)
    case Request(k, image, adj, wants, id) => Submit(c, k, image, adj, wants, id)
    case CancelRequest => CancelCurrent(c)
  }

  /** The effects of a sequence of actions. */
  function Replay(c: Client, actions: seq<Action>): Reaction
    decreases |actions|
  {
    if |actions| == 0 then Reaction(c, [])
    else
      var first := React(c, actions[0]);
      var rest := Replay(first.client, actions[1..]);
      Reaction(rest.client, first.effects + rest.effects)
  }

  /** Whether the client still holds a callback of that request. */
  predicate Holds(c: Client, request: nat)
  {
    c.resolver == Some(request) || c.onProgress == Some(request)
  }

  /** An effect that calls back into that request. */
  predicate CallsBack(e: Effect, request: nat)
  {
    (e.Resolve? && e.request == request) || (e.Report? && e.request == request)
  }

  /** Once the client no longer holds a request's callbacks, no later action
      with another call number ever calls them. */
  lemma {:induction false} ForgottenRequestStaysSilent(c: Client, request: nat, actions: seq<Action>)
    requires !Holds(c, request)
    requires forall k :: 0 <= k < |actions| && actions[k].Request? ==> actions[k].request != request
    ensures forall k :: 0 <= k < |Replay(c, actions).effects| ==> !CallsBack(Replay(c, actions).effects[k], request)
    decreases |actions|
  {
    if |actions| > 0 {
      var first := React(c, actions[0]);
      assert !Holds(first.client, request);
      assert forall k :: 0 <= k < |first.effects| ==> !CallsBack(first.effects[k], request);
      ForgottenRequestStaysSilent(first.client, request, actions[1..]);
      var rest := Replay(first.client, actions[1..]);
      var all := first.effects + rest.effects;
      forall k | 0 <= k < |all|
        ensures !CallsBack(all[k], request)
      {
        if k < |first.effects| {
          assert all[k] == first.effects[k];
        } else {
          assert all[k] == rest.effects[k - |first.effects|];
        }
      }
    }
  }

  /** The earlier call's resolver is replaced by a new request and is never
      called again by anything that follows. */
  lemma SupersededResolverNeverCalled(c: Client, earlier: nat, request: nat, image: Image,
                                      adjustments: Adjustments, wantsProgress: bool, freshId: nat,
                                      later: seq<Action>)
    requires Tracking(c) && c.resolver == Some(earlier) && request != earlier
    requires c.workerCreated && c.wasmInitialised
    requires forall k :: 0 <= k < |later| && later[k].Request? ==> later[k].request != earlier
    ensures var r := Submit(c, request, image, adjustments, wantsProgress, freshId);
            && (forall k :: 0 <= k < |r.effects| ==> !CallsBack(r.effects[k], earlier))
            && (forall k :: 0 <= k < |Replay(r.client, later).effects| ==>
                  !CallsBack(Replay(r.client, later).effects[k], earlier))
  {
    var r := Submit(c, request, image, adjustments, wantsProgress, freshId);
    ForgottenRequestStaysSilent(r.client, earlier, later);
  }
}
