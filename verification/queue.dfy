/** The worker's task queue and message handler: `PROCESS_IMAGE` replaces a
    queued task with the same id and appends the new one, `CANCEL_TASK`
    removes a queued task and acknowledges it, and `processQueue` drains the
    queue in FIFO order behind the `isProcessing` flag. Every handler runs to
    completion between two events, and one `Resume` event stands for the drain
    loop coming back from awaiting one task. The progress messages of a task
    are the subject of `Pipeline.ProcessImage`; here a task contributes only
    its terminal message. */
module Queue {
  import opened Raster
  import opened Pipeline

  datatype Task = Task(taskId: nat, image: Image, adjustments: Adjustments)

  // ------------------------------------------------------------ the queue

  /** `findIndex` on the task id: the first queued task with that id, or -1. */
  function FindTask(q: seq<Task>, id: nat): (r: int)
    ensures -1 <= r < |q|
    ensures r == -1 <==> forall k :: 0 <= k < |q| ==> q[k].taskId != id
    ensures 0 <= r ==> q[r].taskId == id && forall k :: 0 <= k < r ==> q[k].taskId != id
  {
    if |q| == 0 then -1
    else if q[0].taskId == id then 0
    else
      var k := FindTask(q[1..], id);
      if k == -1 then -1 else k + 1
  }

  /** `splice(i, 1)`. */
  function RemoveAt(q: seq<Task>, i: nat): (r: seq<Task>)
    requires i < |q|
    ensures |r| == |q| - 1
    ensures forall k :: 0 <= k < i ==> r[k] == q[k]
    ensures forall k :: i <= k < |r| ==> r[k] == q[k + 1]
  {
    q[..i] + q[i + 1..]
  }

  /** No two queued tasks share an id. */
  predicate DistinctIds(q: seq<Task>)
  {
    forall i, j :: 0 <= i < j < |q| ==> q[i].taskId != q[j].taskId
  }

  /** Reference definition: the queue without any task of that id. */
  function Without(q: seq<Task>, id: nat): (r: seq<Task>)
  {
    if |q| == 0 then []
    else (if q[0].taskId == id then [] else [q[0]]) + Without(q[1..], id)
  }

  lemma {:induction false} WithoutMembers(q: seq<Task>, id: nat)
    ensures forall u :: u in Without(q, id) <==> u in q && u.taskId != id
    decreases |q|
  {
    if |q| > 0 {
      WithoutMembers(q[1..], id);
      assert q == [q[0]] + q[1..];
    }
  }

  lemma {:induction false} WithoutKeepsDistinct(q: seq<Task>, id: nat)
    requires DistinctIds(q)
    ensures DistinctIds(Without(q, id))
    decreases |q|
  {
    if |q| > 0 {
      var tail := Without(q[1..], id);
      WithoutKeepsDistinct(q[1..], id);
      WithoutMembers(q[1..], id);
      if q[0].taskId != id {
        var r := [q[0]] + tail;
        forall i, j | 0 <= i < j < |r|
          ensures r[i].taskId != r[j].taskId
        {
          if i == 0 {
            assert r[j] in q[1..];
            var k :| 0 <= k < |q[1..]| && q[1..][k] == r[j];
            assert q[k + 1] == r[j];
          } else {
            assert r[i] == tail[i - 1] && r[j] == tail[j - 1];
          }
        }
      }
    }
  }

  lemma TailDistinct(q: seq<Task>)
    requires |q| > 0 && DistinctIds(q)
    ensures DistinctIds(q[1..])
    ensures forall k :: 0 <= k < |q[1..]| ==> q[1..][k].taskId != q[0].taskId
  {
    forall i, j | 0 <= i < j < |q[1..]|
      ensures q[1..][i].taskId != q[1..][j].taskId
    {
      assert q[1..][i] == q[i + 1] && q[1..][j] == q[j + 1];
    }
    forall k | 0 <= k < |q[1..]|
      ensures q[1..][k].taskId != q[0].taskId
    {
      assert q[1..][k] == q[k + 1];
    }
  }

  /** Without a task of that id, the filter keeps the whole queue. */
  lemma {:induction false} WithoutAbsent(q: seq<Task>, id: nat)
    requires forall k :: 0 <= k < |q| ==> q[k].taskId != id
    ensures Without(q, id) == q
    decreases |q|
  {
    if |q| > 0 {
      assert forall k :: 0 <= k < |q[1..]| ==> q[1..][k] == q[k + 1];
      WithoutAbsent(q[1..], id);
      assert q == [q[0]] + q[1..];
    }
  }

  /** In a queue without duplicate ids, removing the first task with an id
      removes every task with that id. */
  lemma {:induction false} RemoveFirstIsWithout(q: seq<Task>, id: nat)
    requires DistinctIds(q)
    ensures FindTask(q, id) == -1 ==> Without(q, id) == q
    ensures FindTask(q, id) >= 0 ==> Without(q, id) == RemoveAt(q, FindTask(q, id))
    decreases |q|
  {
    if FindTask(q, id) == -1 {
      WithoutAbsent(q, id);
    } else if q[0].taskId == id {
      WithoutHeadMatch(q, id);
    } else {
      TailDistinct(q);
      RemoveFirstIsWithout(q[1..], id);
      FindBehindHead(q, id);
      RemoveBehindHead(q, FindTask(q[1..], id));
    }
  }

  /** When the head has the id, it is the only task with it. */
  lemma WithoutHeadMatch(q: seq<Task>, id: nat)
    requires |q| > 0 && q[0].taskId == id && DistinctIds(q)
    ensures Without(q, id) == RemoveAt(q, 0)
  {
    TailDistinct(q);
    WithoutAbsent(q[1..], id);
    assert RemoveAt(q, 0) == q[1..];
  }

  /** Past a head with another id, the search continues in the tail. */
  lemma FindBehindHead(q: seq<Task>, id: nat)
    requires |q| > 0 && q[0].taskId != id
    ensures FindTask(q, id) == -1 <==> FindTask(q[1..], id) == -1
    ensures FindTask(q, id) >= 0 ==> FindTask(q, id) == FindTask(q[1..], id) + 1
    ensures Without(q, id) == [q[0]] + Without(q[1..], id)
  {
  }

  lemma RemoveBehindHead(q: seq<Task>, k: nat)
    requires k + 1 < |q|
    ensures RemoveAt(q, k + 1) == [q[0]] + RemoveAt(q[1..], k)
  {
  }

  /** The queue update of `PROCESS_IMAGE`: drop the first queued task with
      the same id, then append the new task. */
  function Resubmit(q: seq<Task>, t: Task): (r: seq<Task>)
    ensures |r| >= 1 && r[|r| - 1] == t
    ensures |r| == (if FindTask(q, t.taskId) == -1 then |q| + 1 else |q|)
  {
    var k := FindTask(q, t.taskId);
    (if k == -1 then q else RemoveAt(q, k)) + [t]
  }

  /** On a queue with one task per id, resubmitting replaces the task of that
      id by the new one at the back; the queue keeps one task per id. */
  lemma ResubmitReplaces(q: seq<Task>, t: Task)
    requires DistinctIds(q)
    ensures Resubmit(q, t) == Without(q, t.taskId) + [t]
    ensures DistinctIds(Resubmit(q, t))
  {
    RemoveFirstIsWithout(q, t.taskId);
    WithoutKeepsDistinct(q, t.taskId);
    WithoutMembers(q, t.taskId);
    AppendFreshKeepsDistinct(Without(q, t.taskId), t);
  }

  /** Appending a task whose id is not queued keeps one task per id. */
  lemma AppendFreshKeepsDistinct(w: seq<Task>, t: Task)
    requires DistinctIds(w) && forall u :: u in w ==> u.taskId != t.taskId
    ensures DistinctIds(w + [t])
  {
    var r := w + [t];
    forall i, j | 0 <= i < j < |r|
      ensures r[i].taskId != r[j].taskId
    {
      if j == |r| - 1 {
        assert r[i] == w[i] && r[i] in w;
      } else {
        assert r[i] == w[i] && r[j] == w[j];
      }
    }
  }

  /** The queue update of `CANCEL_TASK`, and whether a task was found. */
  function CancelQueued(q: seq<Task>, id: nat): (r: (seq<Task>, bool))
    ensures r.1 <==> exists k :: 0 <= k < |q| && q[k].taskId == id
    ensures !r.1 ==> r.0 == q
    ensures r.1 ==> |r.0| == |q| - 1
  {
    var k := FindTask(q, id);
    if k == -1 then (q, false) else (RemoveAt(q, k), true)
  }

  /** On a queue with one task per id, cancelling removes exactly the tasks
      of that id and keeps the rest in order. */
  lemma CancelRemovesTask(q: seq<Task>, id: nat)
    requires DistinctIds(q)
    ensures CancelQueued(q, id).0 == Without(q, id)
    ensures DistinctIds(CancelQueued(q, id).0)
    ensures forall u :: u in CancelQueued(q, id).0 ==> u.taskId != id
  {
    RemoveFirstIsWithout(q, id);
    WithoutKeepsDistinct(q, id);
    WithoutMembers(q, id);
  }

  // ----------------------------------------------------------- the worker

  /** Whether an initialisation failure inside `processImage` ends the drain
      loop (the code as written) or is reported like any other failure. */
  datatype Policy = AsWritten | Guarded

  /** `isProcessing` is the flag; `draining` says whether a `processQueue`
      loop is still alive to take the next task. */
  datatype Worker = Worker(initialised: bool, queue: seq<Task>, isProcessing: bool, draining: bool)

  const Fresh: Worker := Worker(false, [], false, false)

  /** The messages the worker handles, plus the drain loop's resumption. */
  datatype Event =
    | InitializeWasm(loads: bool)
    | ProcessImage(task: Task)
    | CancelTask(taskId: nat)
    | Resume
    | UnknownMessage

  /** What the worker posts: the initialisation reply or a task message. */
  datatype Output = InitReply(success: bool) | Posted(m: WorkerMessage)

  datatype Step = Step(worker: Worker, out: seq<Output>)

  /** The terminal message of a task run on an initialised module. */
  function Outcome(t: Task, invoke: (Call, Image) -> Option<Image>): (m: WorkerMessage)
    ensures Terminal(m) && m.taskId == t.taskId
    ensures m.Complete? <==> RunStages(ActiveStages(t.adjustments, StageOrder), t.image, Bind(t.adjustments, invoke)).Some?
  {
    match RunStages(ActiveStages(t.adjustments, StageOrder), t.image, Bind(t.adjustments, invoke))
    case None => Failed(t.taskId)
    case Some(r) => Complete(t.taskId, r)
  }

  /** One pass of `processQueue`'s loop. On an uninitialised module the
      throw of `processImage` escapes the loop as written, leaving
      `isProcessing` set; the guarded policy reports it as a failure. */
  function DrainStep(policy: Policy, w: Worker, invoke: (Call, Image) -> Option<Image>): (r: Step)
    ensures w.draining && |w.queue| > 0 ==> r.worker.queue == w.queue[1..]
    ensures !w.draining ==> r == Step(w, [])
  {
    if !w.draining then Step(w, [])
    else if |w.queue| == 0 then Step(w.(isProcessing := false, draining := false), [])
    else
      var t := w.queue[0];
      var rest := w.queue[1..];
      if w.initialised then Step(w.(queue := rest), [Posted(Outcome(t, invoke))])
      else match policy
        case AsWritten => Step(w.(queue := rest, draining := false), [])
        case Guarded => Step(w.(queue := rest), [Posted(Failed(t.taskId))])
  }

  /** `self.onmessage`, and the drain loop resuming. */
  function Handle(policy: Policy, w: Worker, e: Event, invoke: (Call, Image) -> Option<Image>): Step
  {
    match e
    case InitializeWasm(loads) =>
      if w.initialised then Step(w, [])
      else if loads then Step(w.(initialised := true), [InitReply(true)])
      else Step(w, [InitReply(false)])
    case ProcessImage(t) =>
      var w1 := w.(queue := Resubmit(w.queue, t));
      if w.isProcessing then Step(w1, [])
      else DrainStep(policy, w1.(isProcessing := true, draining := true), invoke)
    case CancelTask(id) =>
      var (q, found) := CancelQueued(w.queue, id);
      Step(w.(queue := q), if found then [Posted(Cancelled(id))] else [])
    case Resume => DrainStep(policy, w, invoke)
    case UnknownMessage => Step(w, [])
  }

  /** A sequence of events from a starting worker. */
  function Run(policy: Policy, w: Worker, events: seq<Event>, invoke: (Call, Image) -> Option<Image>): Step
    decreases |events|
  {
    if |events| == 0 then Step(w, [])
    else
      var first := Handle(policy, w, events[0], invoke);
      var rest := Run(policy, first.worker, events[1..], invoke);
      Step(rest.worker, first.out + rest.out)
  }

  /** An output that ends a task. */
  predicate Answers(o: Output)
  {
    o.Posted? && Terminal(o.m)
  }

  // ------------------------------------------------- the handler's promises

  /** Each event keeps the queue at one task per id. */
  lemma HandleKeepsIdsDistinct(policy: Policy, w: Worker, e: Event, invoke: (Call, Image) -> Option<Image>)
    requires DistinctIds(w.queue)
    ensures DistinctIds(Handle(policy, w, e, invoke).worker.queue)
  {
    match e
    case ProcessImage(t) =>
      ResubmitReplaces(w.queue, t);
      var q := Resubmit(w.queue, t);
      assert forall i, j :: 0 <= i < j < |q[1..]| ==> q[1..][i] == q[i + 1] && q[1..][j] == q[j + 1];
    case CancelTask(id) =>
      CancelRemovesTask(w.queue, id);
    case Resume =>
      var q := w.queue;
      if |q| > 0 {
        assert forall i, j :: 0 <= i < j < |q[1..]| ==> q[1..][i] == q[i + 1] && q[1..][j] == q[j + 1];
      }
    case InitializeWasm(_) =>
    case UnknownMessage =>
  }

  /** `CANCEL_TASK` acknowledges exactly when a queued task had the id; a
      task the drain already took out of the queue is not affected. */
  lemma CancelAcknowledges(policy: Policy, w: Worker, id: nat, invoke: (Call, Image) -> Option<Image>)
    ensures var r := Handle(policy, w, CancelTask(id), invoke);
            && (r.out == [Posted(Cancelled(id))] <==> exists k :: 0 <= k < |w.queue| && w.queue[k].taskId == id)
            && (r.out == [] <==> forall k :: 0 <= k < |w.queue| ==> w.queue[k].taskId != id)
            && (r.out == [] ==> r.worker == w)
            && r.worker.isProcessing == w.isProcessing && r.worker.draining == w.draining
  {
  }

  /** While a drain is running, `PROCESS_IMAGE` only queues: the flag keeps a
      second drain from starting. */
  lemma NoSecondDrain(policy: Policy, w: Worker, t: Task, invoke: (Call, Image) -> Option<Image>)
    requires w.isProcessing
    ensures Handle(policy, w, ProcessImage(t), invoke).out == []
    ensures Handle(policy, w, ProcessImage(t), invoke).worker.draining == w.draining
    ensures t in Handle(policy, w, ProcessImage(t), invoke).worker.queue
  {
  }

  /** An idle worker starts draining on `PROCESS_IMAGE`, and an initialised
      one answers the oldest queued task at once. */
  lemma RequestStartsDrain(policy: Policy, w: Worker, t: Task, invoke: (Call, Image) -> Option<Image>)
    requires !w.isProcessing && w.initialised
    ensures var r := Handle(policy, w, ProcessImage(t), invoke);
            && r.worker.isProcessing && r.worker.draining
            && |r.out| == 1 && Answers(r.out[0])
            && r.out[0].m.taskId == Resubmit(w.queue, t)[0].taskId
  {
  }

  // ----------------------------------------------------- as written: wedge

  /** The flag is set but no loop is left to clear it. */
  predicate Wedged(w: Worker)
  {
    w.isProcessing && !w.draining
  }

  /** A `PROCESS_IMAGE` that reaches a fresh worker before `INITIALIZE_WASM`
      throws out of the drain loop: nothing is posted and the flag stays set. */
  lemma EarlyRequestWedges(t: Task, invoke: (Call, Image) -> Option<Image>)
    ensures var r := Handle(AsWritten, Fresh, ProcessImage(t), invoke);
            r.out == [] && Wedged(r.worker) && r.worker.queue == []
  {
  }

  /** Once wedged, a worker stays wedged whatever arrives, and it never
      answers a task again. */
  lemma WedgeIsPermanent(w: Worker, e: Event, invoke: (Call, Image) -> Option<Image>)
    requires Wedged(w)
    ensures Wedged(Handle(AsWritten, w, e, invoke).worker)
    ensures forall k :: 0 <= k < |Handle(AsWritten, w, e, invoke).out| ==>
              !Answers(Handle(AsWritten, w, e, invoke).out[k])
  {
  }

  lemma {:induction false} WedgedWorkerNeverAnswers(w: Worker, events: seq<Event>,
                                                    invoke: (Call, Image) -> Option<Image>)
    requires Wedged(w)
    ensures Wedged(Run(AsWritten, w, events, invoke).worker)
    ensures forall k :: 0 <= k < |Run(AsWritten, w, events, invoke).out| ==>
              !Answers(Run(AsWritten, w, events, invoke).out[k])
    decreases |events|
  {
    if |events| > 0 {
      var first := Handle(AsWritten, w, events[0], invoke);
      WedgeIsPermanent(w, events[0], invoke);
      WedgedWorkerNeverAnswers(first.worker, events[1..], invoke);
      var rest := Run(AsWritten, first.worker, events[1..], invoke);
      var out := first.out + rest.out;
      forall k | 0 <= k < |out|
        ensures !Answers(out[k])
      {
        if k < |first.out| {
          assert out[k] == first.out[k];
        } else {
          assert out[k] == rest.out[k - |first.out|];
        }
      }
    }
  }

  /** The discrepancy: a request before initialisation, a successful
      initialisation and any later traffic, and no task is ever answered. */
  lemma RequestBeforeInitSilencesWorker(t: Task, later: seq<Event>, invoke: (Call, Image) -> Option<Image>)
    ensures var r := Run(AsWritten, Fresh, [ProcessImage(t), InitializeWasm(true)] + later, invoke);
            forall k :: 0 <= k < |r.out| ==> !Answers(r.out[k])
  {
    var events := [ProcessImage(t), InitializeWasm(true)] + later;
    var first := Handle(AsWritten, Fresh, ProcessImage(t), invoke);
    EarlyRequestWedges(t, invoke);
    assert events[1..] == [InitializeWasm(true)] + later;
    WedgedWorkerNeverAnswers(first.worker, events[1..], invoke);
  }

  // ---------------------------------------------------------------- drains

  /** With the throw reported, the flag and the loop go together. */
  predicate Consistent(w: Worker)
  {
    w.isProcessing == w.draining
  }

  lemma HandleKeepsConsistent(w: Worker, e: Event, invoke: (Call, Image) -> Option<Image>)
    requires Consistent(w)
    ensures Consistent(Handle(Guarded, w, e, invoke).worker)
  {
  }

  /** Every pass of a live loop on a non-empty queue answers exactly the
      oldest queued task: always under the guarded policy, and on an
      initialised module as written. */
  lemma DrainStepAnswersHead(policy: Policy, w: Worker, invoke: (Call, Image) -> Option<Image>)
    requires w.draining && |w.queue| > 0
    requires policy == Guarded || w.initialised
    ensures var r := DrainStep(policy, w, invoke);
            |r.out| == 1 && Answers(r.out[0]) && r.out[0].m.taskId == w.queue[0].taskId
            && r.worker.draining && r.worker.initialised == w.initialised
  {
  }

  /** The ids of the tasks a sequence of outputs answers, in order. */
  function AnsweredIds(out: seq<Output>): seq<nat>
  {
    if |out| == 0 then []
    else (if Answers(out[0]) then [out[0].m.taskId] else []) + AnsweredIds(out[1..])
  }

  lemma {:induction false} AnsweredIdsAppend(a: seq<Output>, b: seq<Output>)
    ensures AnsweredIds(a + b) == AnsweredIds(a) + AnsweredIds(b)
    decreases |a|
  {
    if |a| > 0 {
      assert (a + b)[1..] == a[1..] + b;
      AnsweredIdsAppend(a[1..], b);
    } else {
      assert a + b == b;
    }
  }

  function Ids(q: seq<Task>): (r: seq<nat>)
    ensures |r| == |q|
    ensures forall k :: 0 <= k < |q| ==> r[k] == q[k].taskId
  {
    if |q| == 0 then [] else [q[0].taskId] + Ids(q[1..])
  }

  /** `n` resumptions of the drain loop with no other traffic. */
  function Resumes(n: nat): (r: seq<Event>)
    ensures |r| == n && forall k :: 0 <= k < n ==> r[k] == Resume
  {
    if n == 0 then [] else [Resume] + Resumes(n - 1)
  }

  /** Left alone, a live loop answers every queued task in FIFO order and
      then clears the flag: under the guarded policy from any state, and as
      written once the module is initialised. */
  lemma {:induction false} DrainAnswersInOrder(policy: Policy, w: Worker, invoke: (Call, Image) -> Option<Image>)
    requires Consistent(w) && w.draining
    requires policy == Guarded || w.initialised
    ensures var r := Run(policy, w, Resumes(|w.queue| + 1), invoke);
            && AnsweredIds(r.out) == Ids(w.queue)
            && r.worker.queue == [] && !r.worker.isProcessing && !r.worker.draining
    decreases |w.queue|
  {
    var first := DrainStep(policy, w, invoke);
    var rest := Run(policy, first.worker, Resumes(|w.queue|), invoke);
    FirstResume(policy, w, |w.queue|, invoke);
    if |w.queue| == 0 {
      assert rest == Step(first.worker, []);
    } else {
      DrainStepAnswersHead(policy, w, invoke);
      DrainAnswersInOrder(policy, first.worker, invoke);
      AnsweredIdsAppend(first.out, rest.out);
      assert AnsweredIds(first.out) == [w.queue[0].taskId] by {
        assert first.out[1..] == [];
      }
      assert Ids(w.queue) == [w.queue[0].taskId] + Ids(w.queue[1..]);
    }
  }

  /** The first of `n + 1` resumptions is one drain step. */
  lemma FirstResume(policy: Policy, w: Worker, n: nat, invoke: (Call, Image) -> Option<Image>)
    ensures var first := DrainStep(policy, w, invoke);
            var rest := Run(policy, first.worker, Resumes(n), invoke);
            Run(policy, w, Resumes(n + 1), invoke) == Step(rest.worker, first.out + rest.out)
  {
    assert Resumes(n + 1)[1..] == Resumes(n);
  }
}
