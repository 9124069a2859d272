/** Request collapsing (src/coordinator/wait_group.cpp): the shared tables and what each critical
    section does to them. A `shared_ptr<PendingFetch>` is an index into the table of all fetches ever
    made; each index is one generation of waiters. */
module WaitGroupRules {
  import opened NodeInfos

  /** A coroutine, one per request. */
  type Task = nat

  datatype Fetch = Fetch(waiters: seq<Task>, result: Option<Value>, completed: bool)

  datatype Shared = Shared(pending: map<Key, nat>, fetches: seq<Fetch>)

  predicate Valid(s: Shared) { forall k :: k in s.pending ==> s.pending[k] < |s.fetches| }

  /** The handle `try_join` returns. */
  function JoinHandle(s: Shared, key: Key): nat { if key in s.pending then s.pending[key] else |s.fetches| }

  function Join(s: Shared, key: Key): Shared {
    if key in s.pending then s
    else Shared(s.pending[key := |s.fetches|], s.fetches + [Fetch([], None, false)])
  }

  function Erase(s: Shared, key: Key): Shared { s.(pending := s.pending - {key}) }

  function Publish(s: Shared, f: nat, value: Option<Value>): Shared
    requires f < |s.fetches|
  {
    s.(fetches := s.fetches[f := Fetch([], value, true)])
  }

  function Suspend(s: Shared, f: nat, t: Task): Shared
    requires f < |s.fetches|
  {
    if s.fetches[f].completed then s
    else s.(fetches := s.fetches[f := s.fetches[f].(waiters := s.fetches[f].waiters + [t])])
  }
}

/** The object; one method per critical section, so that a caller can be interleaved between them. */
module WaitGroups {
  import opened NodeInfos
  import opened WaitGroupRules

  class WaitGroup {
    var pending: map<Key, nat>
    var fetches: seq<Fetch>

    ghost function State(): Shared reads this { Shared(pending, fetches) }

    constructor ()
      ensures State() == Shared(map[], [])
    {
      pending, fetches := map[], [];
    }

    method TryJoin(key: Key) returns (isInitiator: bool, handle: nat)
      requires Valid(State())
      modifies this
      ensures State() == Join(old(State()), key) && Valid(State())
      ensures isInitiator == (key !in old(pending)) && handle == JoinHandle(old(State()), key)
    {
      isInitiator := key !in pending;
      if isInitiator {
        pending := pending[key := |fetches|];
        fetches := fetches + [Fetch([], None, false)];
      }
      handle := pending[key];
    }

    /** First half of `complete`: None when nothing was pending, and then there is no second half. */
    method CompleteErase(key: Key) returns (fetch: Option<nat>)
      requires Valid(State())
      modifies this
      ensures State() == Erase(old(State()), key) && Valid(State())
      ensures fetch == if key in old(pending) then Some(old(pending)[key]) else None
    {
      if key !in pending { return None; }
      fetch := Some(pending[key]);
      pending := pending - {key};
    }

    /** Second half: the coroutines to resume. */
    method CompletePublish(f: nat, value: Option<Value>) returns (toResume: seq<Task>)
      requires Valid(State()) && f < |fetches|
      modifies this
      ensures State() == Publish(old(State()), f, value) && Valid(State())
      ensures toResume == old(fetches)[f].waiters
    {
      toResume := fetches[f].waiters;
      fetches := fetches[f := Fetch([], value, true)];
    }

    method AwaitReady(f: nat) returns (ready: bool)
      requires f < |fetches|
      ensures ready == fetches[f].completed
    {
      ready := fetches[f].completed;
    }

    method AwaitSuspend(f: nat, t: Task) returns (suspended: bool)
      requires Valid(State()) && f < |fetches|
      modifies this
      ensures State() == Suspend(old(State()), f, t) && Valid(State())
      ensures suspended == !old(fetches)[f].completed
    {
      if fetches[f].completed { return false; }
      fetches := fetches[f := fetches[f].(waiters := fetches[f].waiters + [t])];
      return true;
    }

    method AwaitResume(f: nat) returns (r: Option<Value>)
      requires f < |fetches|
      ensures r == fetches[f].result
    {
      r := fetches[f].result;
    }
  }
}

/** Any number of requests using one wait group (src/coordinator/coordinator.cpp:58-76), interleaved at
    every critical section, at the unlocked ready check and at every single resume. */
module WaitGroupRuns {
  import opened NodeInfos
  import opened Sequences
  import opened WaitGroupRules

  datatype Status = OkStatus | NotFoundStatus | ErrorStatus
  datatype Response = Response(status: Status, value: Value)

  /** What the initiator passes to `complete` after its proxied request returned. */
  function Published(resp: Response): Option<Value> { if resp.status.OkStatus? then Some(resp.value) else None }

  /** Where a request is. The first five are the initiator's stations, the others a joiner's. */
  datatype Station =
    | Fetching(key: Key, fetch: nat)
    | Publishing(fetch: nat, resp: Response)
    | Resuming(fetch: nat, resp: Response, todo: seq<Task>)
    | Completed(fetch: nat, resp: Response)
    | NothingToComplete
    | Joined(fetch: nat)
    | NotReady(fetch: nat)
    | Waiting(fetch: nat)
    | Ready(fetch: nat)
    | Served(fetch: nat, result: Option<Value>)

  /** How often the request has suspended in `wait` and been resumed there is recorded as history. */
  datatype Request = Request(at: Station, suspends: nat, resumes: nat)

  /** `starter[f]` records which request started generation f, for which key. */
  datatype Start = Start(task: Task, key: Key)

  datatype System = System(shared: Shared, requests: map<Task, Request>, starter: seq<Start>)

  datatype Step =
    | JoinStep(key: Key)
    | EraseStep(resp: Response)
    | PublishStep
    | ResumeStep
    | ReturnStep
    | ReadyStep
    | SuspendStep
    | TakeStep

  predicate Init(s: System) { s == System(Shared(map[], []), map[], []) }

  function Move(s: System, t: Task, at: Station): System
    requires t in s.requests
  {
    s.(requests := s.requests[t := s.requests[t].(at := at)])
  }

  /** Can request `t` take this step? */
  predicate Enabled(s: System, t: Task, step: Step) {
    match step
    case JoinStep(_) => t !in s.requests
    case EraseStep(_) => t in s.requests && s.requests[t].at.Fetching?
    case PublishStep => t in s.requests && s.requests[t].at.Publishing? && s.requests[t].at.fetch < |s.shared.fetches|
    case ResumeStep =>
      && t in s.requests && s.requests[t].at.Resuming? && s.requests[t].at.todo != []
      && s.requests[t].at.todo[0] in s.requests
    case ReturnStep => t in s.requests && s.requests[t].at.Resuming? && s.requests[t].at.todo == []
    case ReadyStep => t in s.requests && s.requests[t].at.Joined? && s.requests[t].at.fetch < |s.shared.fetches|
    case SuspendStep => t in s.requests && s.requests[t].at.NotReady? && s.requests[t].at.fetch < |s.shared.fetches|
    case TakeStep => t in s.requests && s.requests[t].at.Ready? && s.requests[t].at.fetch < |s.shared.fetches|
  }

  /** Resuming a coroutine continues it after its suspension point, whatever state it is in. */
  function ResumeTask(s: System, w: Task, f: nat): System
    requires w in s.requests
  {
    s.(requests := s.requests[w := Request(Ready(f), s.requests[w].suspends, s.requests[w].resumes + 1)])
  }

  function Next(s: System, t: Task, step: Step): System
    requires Enabled(s, t, step)
  {
    match step
    case JoinStep(key) =>
      var f := JoinHandle(s.shared, key);
      if key in s.shared.pending then
        s.(requests := s.requests[t := Request(Joined(f), 0, 0)])
      else
        System(Join(s.shared, key), s.requests[t := Request(Fetching(key, f), 0, 0)], s.starter + [Start(t, key)])
    case EraseStep(resp) =>
      var key := s.requests[t].at.key;
      if key in s.shared.pending then
        Move(s, t, Publishing(s.shared.pending[key], resp)).(shared := Erase(s.shared, key))
      else
        Move(s, t, NothingToComplete)
    case PublishStep =>
      var f, resp := s.requests[t].at.fetch, s.requests[t].at.resp;
      Move(s, t, Resuming(f, resp, s.shared.fetches[f].waiters)).(shared := Publish(s.shared, f, Published(resp)))
    case ResumeStep =>
      var Resuming(f, v, todo) := s.requests[t].at;
      ResumeTask(Move(s, t, Resuming(f, v, todo[1..])), todo[0], f)
    case ReturnStep =>
      Move(s, t, Completed(s.requests[t].at.fetch, s.requests[t].at.resp))
    case ReadyStep =>
      var f := s.requests[t].at.fetch;
      Move(s, t, if s.shared.fetches[f].completed then Ready(f) else NotReady(f))
    case SuspendStep =>
      var f := s.requests[t].at.fetch;
      if s.shared.fetches[f].completed then Move(s, t, Ready(f))
      else
        s.(shared := Suspend(s.shared, f, t),
           requests := s.requests[t := Request(Waiting(f), s.requests[t].suspends + 1, s.requests[t].resumes)])
    case TakeStep =>
      var f := s.requests[t].at.fetch;
      Move(s, t, Served(f, s.shared.fetches[f].result))
  }

  ghost predicate Steps(s: System, s': System) {
    exists t, step :: Enabled(s, t, step) && s' == Next(s, t, step)
  }

  ghost predicate Run(ss: seq<System>) {
    && |ss| > 0 && Init(ss[0])
    && (forall i :: 0 <= i < |ss| - 1 ==> Steps(ss[i], ss[i + 1]))
  }

  // ---------------------------------------------------------------- the invariant

  /** The station of the request that started generation f. */
  function StarterAt(s: System, f: nat): Station
    requires f < |s.starter| && s.starter[f].task in s.requests
  {
    s.requests[s.starter[f].task].at
  }

  /** A generation is in the state its starter is in. */
  ghost predicate GenerationOk(s: System, f: nat)
    requires f < |s.starter| == |s.shared.fetches|
  {
    && s.starter[f].task in s.requests
    && var Fetch(waiters, result, completed) := s.shared.fetches[f];
       match StarterAt(s, f)
       case Fetching(key, g) =>
         g == f && key == s.starter[f].key && !completed && key in s.shared.pending && s.shared.pending[key] == f
       case Publishing(g, _) => g == f && !completed
       case Resuming(g, resp, todo) => g == f && completed && result == Published(resp) && waiters == []
       case Completed(g, resp) => g == f && completed && result == Published(resp) && waiters == []
       case _ => false
  }

  /** The coroutines of generation f that are owed a resume. */
  ghost function Owed(s: System, f: nat): seq<Task>
    requires f < |s.starter| == |s.shared.fetches|
  {
    if s.starter[f].task in s.requests && StarterAt(s, f).Resuming? then StarterAt(s, f).todo
    else s.shared.fetches[f].waiters
  }

  /** Owed a resume are exactly the waiting coroutines, each once. */
  ghost predicate OwedOk(s: System, f: nat)
    requires f < |s.starter| == |s.shared.fetches|
  {
    && Distinct(Owed(s, f))
    && (forall w :: w in Owed(s, f) ==> w in s.requests && s.requests[w].at == Waiting(f))
    && (forall w :: w in s.requests && s.requests[w].at == Waiting(f) ==> w in Owed(s, f))
  }

  ghost predicate RequestOk(s: System, t: Task)
    requires t in s.requests && |s.starter| == |s.shared.fetches|
  {
    var Request(at, suspends, resumes) := s.requests[t];
    && !at.NothingToComplete?
    && at.fetch < |s.shared.fetches|
    && (at.Fetching? || at.Publishing? || at.Resuming? || at.Completed? ==> s.starter[at.fetch].task == t)
    && (at.Waiting? ==> suspends == 1 && resumes == 0)
    && (!at.Waiting? ==> suspends == resumes)
    && (at.Joined? || at.NotReady? ==> suspends == 0)
    && suspends <= 1
    && (at.Ready? || at.Served? ==> s.shared.fetches[at.fetch].completed)
    && (at.Served? ==> at.result == s.shared.fetches[at.fetch].result)
  }

  ghost predicate PendingOk(s: System)
    requires |s.starter| == |s.shared.fetches|
  {
    forall k :: k in s.shared.pending ==>
      && s.shared.pending[k] < |s.starter|
      && s.starter[s.shared.pending[k]].task in s.requests
      && StarterAt(s, s.shared.pending[k]) == Fetching(k, s.shared.pending[k])
  }

  ghost predicate Inv(s: System) {
    && |s.starter| == |s.shared.fetches|
    && PendingOk(s)
    && (forall f :: 0 <= f < |s.starter| ==> GenerationOk(s, f) && OwedOk(s, f))
    && (forall t :: t in s.requests ==> RequestOk(s, t))
  }

  // ---------------------------------------------------------------- each step keeps it

  lemma JoinKeepsGenerations(s: System, t: Task, key: Key)
    requires Inv(s) && Enabled(s, t, JoinStep(key))
    ensures var s' := Next(s, t, JoinStep(key));
            && |s'.starter| == |s'.shared.fetches|
            && forall f :: 0 <= f < |s'.starter| ==> GenerationOk(s', f) && OwedOk(s', f)
  {
    var s' := Next(s, t, JoinStep(key));
    forall f | 0 <= f < |s'.starter| ensures GenerationOk(s', f) && OwedOk(s', f) {
      if f < |s.starter| { assert GenerationOk(s, f) && OwedOk(s, f); }
    }
  }

  lemma JoinKeepsRequests(s: System, t: Task, key: Key)
    requires Inv(s) && Enabled(s, t, JoinStep(key))
    ensures var s' := Next(s, t, JoinStep(key));
            |s'.starter| == |s'.shared.fetches| && PendingOk(s') && forall x :: x in s'.requests ==> RequestOk(s', x)
  {
    var s' := Next(s, t, JoinStep(key));
    forall x | x in s'.requests ensures RequestOk(s', x) {
      if x != t { assert RequestOk(s, x); }
    }
  }

  lemma EraseKeepsGenerations(s: System, t: Task, resp: Response)
    requires Inv(s) && Enabled(s, t, EraseStep(resp))
    ensures var s' := Next(s, t, EraseStep(resp));
            && |s'.starter| == |s'.shared.fetches|
            && forall f :: 0 <= f < |s'.starter| ==> GenerationOk(s', f) && OwedOk(s', f)
  {
    var s' := Next(s, t, EraseStep(resp));
    assert RequestOk(s, t) && GenerationOk(s, s.requests[t].at.fetch);
    forall f | 0 <= f < |s'.starter| ensures GenerationOk(s', f) && OwedOk(s', f) {
      assert GenerationOk(s, f) && OwedOk(s, f);
    }
  }

  lemma EraseKeepsRequests(s: System, t: Task, resp: Response)
    requires Inv(s) && Enabled(s, t, EraseStep(resp))
    ensures var s' := Next(s, t, EraseStep(resp));
            |s'.starter| == |s'.shared.fetches| && PendingOk(s') && forall x :: x in s'.requests ==> RequestOk(s', x)
  {
    var s' := Next(s, t, EraseStep(resp));
    assert RequestOk(s, t) && GenerationOk(s, s.requests[t].at.fetch);
    forall x | x in s'.requests ensures RequestOk(s', x) {
      assert RequestOk(s, x);
    }
  }

  lemma PublishKeepsGenerations(s: System, t: Task)
    requires Inv(s) && Enabled(s, t, PublishStep)
    ensures var s' := Next(s, t, PublishStep);
            && |s'.starter| == |s'.shared.fetches|
            && forall f :: 0 <= f < |s'.starter| ==> GenerationOk(s', f) && OwedOk(s', f)
  {
    var s' := Next(s, t, PublishStep);
    assert RequestOk(s, t) && GenerationOk(s, s.requests[t].at.fetch);
    forall f | 0 <= f < |s'.starter| ensures GenerationOk(s', f) && OwedOk(s', f) {
      assert GenerationOk(s, f) && OwedOk(s, f);
    }
  }

  lemma PublishKeepsRequests(s: System, t: Task)
    requires Inv(s) && Enabled(s, t, PublishStep)
    ensures var s' := Next(s, t, PublishStep);
            |s'.starter| == |s'.shared.fetches| && PendingOk(s') && forall x :: x in s'.requests ==> RequestOk(s', x)
  {
    var s' := Next(s, t, PublishStep);
    var g := s.requests[t].at.fetch;
    assert RequestOk(s, t) && GenerationOk(s, s.requests[t].at.fetch);
    forall x | x in s'.requests ensures RequestOk(s', x) {
      assert RequestOk(s, x);
      assert s.requests[x].at.fetch != g ==>
               s'.shared.fetches[s.requests[x].at.fetch] == s.shared.fetches[s.requests[x].at.fetch];
    }
  }

  /** The resumed coroutine is taken off its own generation's list. */
  lemma ResumeKeepsOwed(s: System, t: Task)
    requires Enabled(s, t, ResumeStep) && |s.starter| == |s.shared.fetches|
    requires RequestOk(s, t) && OwedOk(s, s.requests[t].at.fetch)
    ensures OwedOk(Next(s, t, ResumeStep), s.requests[t].at.fetch)
  {
  }

  lemma ResumeKeepsOthersOwed(s: System, t: Task, f: nat)
    requires Enabled(s, t, ResumeStep) && |s.starter| == |s.shared.fetches| && f < |s.starter|
    requires RequestOk(s, t) && f != s.requests[t].at.fetch && GenerationOk(s, f) && OwedOk(s, f)
    requires s.requests[s.requests[t].at.todo[0]].at == Waiting(s.requests[t].at.fetch)
    ensures OwedOk(Next(s, t, ResumeStep), f)
  {
  }

  lemma ResumeKeepsGeneration(s: System, t: Task, f: nat)
    requires Enabled(s, t, ResumeStep) && |s.starter| == |s.shared.fetches| && f < |s.starter|
    requires RequestOk(s, t) && GenerationOk(s, f)
    requires s.requests[s.requests[t].at.todo[0]].at.Waiting?
    ensures GenerationOk(Next(s, t, ResumeStep), f)
  {
  }

  lemma ResumeKeepsRequest(s: System, t: Task, x: Task)
    requires Enabled(s, t, ResumeStep) && |s.starter| == |s.shared.fetches| && x in s.requests
    requires RequestOk(s, t) && RequestOk(s, x)
    requires s.requests[s.requests[t].at.todo[0]].at == Waiting(s.requests[t].at.fetch)
    requires s.shared.fetches[s.requests[t].at.fetch].completed
    ensures RequestOk(Next(s, t, ResumeStep), x)
  {
  }

  lemma ResumeKeeps(s: System, t: Task)
    requires Inv(s) && Enabled(s, t, ResumeStep)
    ensures Inv(Next(s, t, ResumeStep))
  {
    var s' := Next(s, t, ResumeStep);
    var Resuming(g, v, todo) := s.requests[t].at;
    assert RequestOk(s, t) && GenerationOk(s, g) && OwedOk(s, g);
    assert todo[0] in todo && s.requests[todo[0]].at == Waiting(g);
    forall f | 0 <= f < |s'.starter| ensures GenerationOk(s', f) && OwedOk(s', f) {
      assert GenerationOk(s, f) && OwedOk(s, f);
      ResumeKeepsGeneration(s, t, f);
      if f == g { ResumeKeepsOwed(s, t); } else { ResumeKeepsOthersOwed(s, t, f); }
    }
    forall x | x in s'.requests ensures RequestOk(s', x) { ResumeKeepsRequest(s, t, x); }
    assert PendingOk(s') by { ResumeKeepsPending(s, t); }
  }

  lemma ResumeKeepsPending(s: System, t: Task)
    requires Enabled(s, t, ResumeStep) && |s.starter| == |s.shared.fetches| && PendingOk(s)
    requires s.requests[s.requests[t].at.todo[0]].at.Waiting?
    ensures PendingOk(Next(s, t, ResumeStep))
  {
  }

  lemma SuspendKeepsGenerations(s: System, t: Task)
    requires Inv(s) && Enabled(s, t, SuspendStep)
    ensures var s' := Next(s, t, SuspendStep);
            && |s'.starter| == |s'.shared.fetches|
            && forall f :: 0 <= f < |s'.starter| ==> GenerationOk(s', f) && OwedOk(s', f)
  {
    var s' := Next(s, t, SuspendStep);
    assert RequestOk(s, t);
    forall f | 0 <= f < |s'.starter| ensures GenerationOk(s', f) && OwedOk(s', f) {
      assert GenerationOk(s, f) && OwedOk(s, f);
    }
  }

  lemma SuspendKeepsRequests(s: System, t: Task)
    requires Inv(s) && Enabled(s, t, SuspendStep)
    ensures var s' := Next(s, t, SuspendStep);
            |s'.starter| == |s'.shared.fetches| && PendingOk(s') && forall x :: x in s'.requests ==> RequestOk(s', x)
  {
    var s' := Next(s, t, SuspendStep);
    var g := s.requests[t].at.fetch;
    assert RequestOk(s, t);
    forall x | x in s'.requests ensures RequestOk(s', x) {
      assert RequestOk(s, x);
      assert s.requests[x].at.fetch != g ==>
               s'.shared.fetches[s.requests[x].at.fetch] == s.shared.fetches[s.requests[x].at.fetch];
    }
  }

  lemma ReturnKeepsGenerations(s: System, t: Task)
    requires Inv(s) && Enabled(s, t, ReturnStep)
    ensures var s' := Next(s, t, ReturnStep);
            && |s'.starter| == |s'.shared.fetches|
            && forall f :: 0 <= f < |s'.starter| ==> GenerationOk(s', f) && OwedOk(s', f)
  {
    var s' := Next(s, t, ReturnStep);
    assert RequestOk(s, t);
    forall f | 0 <= f < |s'.starter| ensures GenerationOk(s', f) && OwedOk(s', f) {
      assert GenerationOk(s, f) && OwedOk(s, f);
    }
  }

  lemma ReturnKeepsRequests(s: System, t: Task)
    requires Inv(s) && Enabled(s, t, ReturnStep)
    ensures var s' := Next(s, t, ReturnStep);
            |s'.starter| == |s'.shared.fetches| && PendingOk(s') && forall x :: x in s'.requests ==> RequestOk(s', x)
  {
  }

  lemma ReadyKeepsGenerations(s: System, t: Task)
    requires Inv(s) && Enabled(s, t, ReadyStep)
    ensures var s' := Next(s, t, ReadyStep);
            && |s'.starter| == |s'.shared.fetches|
            && forall f :: 0 <= f < |s'.starter| ==> GenerationOk(s', f) && OwedOk(s', f)
  {
    var s' := Next(s, t, ReadyStep);
    assert RequestOk(s, t);
    forall f | 0 <= f < |s'.starter| ensures GenerationOk(s', f) && OwedOk(s', f) {
      assert GenerationOk(s, f) && OwedOk(s, f);
    }
  }

  lemma ReadyKeepsRequests(s: System, t: Task)
    requires Inv(s) && Enabled(s, t, ReadyStep)
    ensures var s' := Next(s, t, ReadyStep);
            |s'.starter| == |s'.shared.fetches| && PendingOk(s') && forall x :: x in s'.requests ==> RequestOk(s', x)
  {
  }

  lemma TakeKeepsGenerations(s: System, t: Task)
    requires Inv(s) && Enabled(s, t, TakeStep)
    ensures var s' := Next(s, t, TakeStep);
            && |s'.starter| == |s'.shared.fetches|
            && forall f :: 0 <= f < |s'.starter| ==> GenerationOk(s', f) && OwedOk(s', f)
  {
    var s' := Next(s, t, TakeStep);
    assert RequestOk(s, t);
    forall f | 0 <= f < |s'.starter| ensures GenerationOk(s', f) && OwedOk(s', f) {
      assert GenerationOk(s, f) && OwedOk(s, f);
    }
  }

  lemma TakeKeepsRequests(s: System, t: Task)
    requires Inv(s) && Enabled(s, t, TakeStep)
    ensures var s' := Next(s, t, TakeStep);
            |s'.starter| == |s'.shared.fetches| && PendingOk(s') && forall x :: x in s'.requests ==> RequestOk(s', x)
  {
  }

  lemma StepKeeps(s: System, t: Task, step: Step)
    requires Inv(s) && Enabled(s, t, step)
    ensures Inv(Next(s, t, step))
  {
    hide Next, GenerationOk, OwedOk, RequestOk, PendingOk, Enabled;
    match step
    case JoinStep(key) => JoinKeepsGenerations(s, t, key); JoinKeepsRequests(s, t, key);
    case EraseStep(resp) => EraseKeepsGenerations(s, t, resp); EraseKeepsRequests(s, t, resp);
    case PublishStep => PublishKeepsGenerations(s, t); PublishKeepsRequests(s, t);
    case ResumeStep => ResumeKeeps(s, t);
    case ReturnStep => ReturnKeepsGenerations(s, t); ReturnKeepsRequests(s, t);
    case ReadyStep => ReadyKeepsGenerations(s, t); ReadyKeepsRequests(s, t);
    case SuspendStep => SuspendKeepsGenerations(s, t); SuspendKeepsRequests(s, t);
    case TakeStep => TakeKeepsGenerations(s, t); TakeKeepsRequests(s, t);
  }

  lemma {:induction false} RunKeeps(ss: seq<System>, i: nat)
    requires Run(ss) && i < |ss|
    ensures Inv(ss[i])
  {
    if i == 0 {
    } else {
      RunKeeps(ss, i - 1);
      assert Steps(ss[i - 1], ss[i - 1 + 1]);
      var t, step :| Enabled(ss[i - 1], t, step) && ss[i] == Next(ss[i - 1], t, step);
      StepKeeps(ss[i - 1], t, step);
    }
  }

  // ---------------------------------------------------------------- the theorems

  /** At most one request at a time is fetching a key, and when it calls `complete` the pending entry
      is its own generation, so `complete` never returns early or finishes somebody else's. */
  lemma OneInitiatorPerKey(ss: seq<System>, i: nat, t: Task, u: Task)
    requires Run(ss) && i < |ss|
    requires t in ss[i].requests && ss[i].requests[t].at.Fetching?
    requires u in ss[i].requests && ss[i].requests[u].at.Fetching?
    ensures ss[i].requests[t].at.key == ss[i].requests[u].at.key ==> t == u
    ensures var Fetching(key, f) := ss[i].requests[t].at;
            key in ss[i].shared.pending && ss[i].shared.pending[key] == f
  {
    RunKeeps(ss, i);
    assert RequestOk(ss[i], t) && RequestOk(ss[i], u);
    assert GenerationOk(ss[i], ss[i].requests[t].at.fetch) && GenerationOk(ss[i], ss[i].requests[u].at.fetch);
  }

  /** No lost wakeup: while a request waits, the starter of its generation has not returned from
      `complete` and still owes it exactly one resume. */
  lemma WaiterIsOwedResume(ss: seq<System>, i: nat, t: Task)
    requires Run(ss) && i < |ss| && t in ss[i].requests && ss[i].requests[t].at.Waiting?
    ensures var s := ss[i]; var f := s.requests[t].at.fetch;
            && f < |s.starter| == |s.shared.fetches|
            && s.starter[f].task in s.requests
            && (StarterAt(s, f).Fetching? || StarterAt(s, f).Publishing? || StarterAt(s, f).Resuming?)
            && multiset(Owed(s, f))[t] == 1
  {
    RunKeeps(ss, i);
    var s := ss[i];
    var f := s.requests[t].at.fetch;
    assert RequestOk(s, t);
    assert GenerationOk(s, f) && OwedOk(s, f);
    OnceMultiplicity(Owed(s, f), t);
  }

  lemma {:induction false} OnceMultiplicity(ts: seq<Task>, t: Task)
    requires Distinct(ts)
    ensures multiset(ts)[t] == if t in ts then 1 else 0
  {
    if ts == [] {
    } else {
      var n := |ts| - 1;
      assert ts == ts[..n] + [ts[n]];
      OnceMultiplicity(ts[..n], t);
    }
  }

  /** Every request suspends at most once and is resumed at most once; one that got past the wait was
      resumed exactly as often as it had suspended. */
  lemma ResumedExactlyOnce(ss: seq<System>, i: nat, t: Task)
    requires Run(ss) && i < |ss| && t in ss[i].requests
    ensures var r := ss[i].requests[t];
            r.resumes <= r.suspends <= 1 && (!r.at.Waiting? ==> r.resumes == r.suspends)
  {
    RunKeeps(ss, i);
    assert RequestOk(ss[i], t);
  }

  /** A coroutine about to be resumed is suspended in this generation's wait. */
  lemma ResumesOnlySuspended(ss: seq<System>, i: nat, t: Task)
    requires Run(ss) && i < |ss| && t in ss[i].requests
    requires ss[i].requests[t].at.Resuming? && ss[i].requests[t].at.todo != []
    ensures var Resuming(f, _, todo) := ss[i].requests[t].at;
            todo[0] in ss[i].requests && ss[i].requests[todo[0]].at == Waiting(f)
  {
    RunKeeps(ss, i);
    assert RequestOk(ss[i], t) && OwedOk(ss[i], ss[i].requests[t].at.fetch);
  }

  /** What a joiner is served is what the starter of its generation passed to `complete`. */
  lemma ServedWithGenerationResult(ss: seq<System>, i: nat, t: Task)
    requires Run(ss) && i < |ss| && t in ss[i].requests && ss[i].requests[t].at.Served?
    ensures var s := ss[i]; var Served(f, result) := s.requests[t].at;
            && f < |s.starter| && s.starter[f].task in s.requests
            && (StarterAt(s, f).Resuming? || StarterAt(s, f).Completed?)
            && Published(StarterAt(s, f).resp) == result
  {
    RunKeeps(ss, i);
    assert RequestOk(ss[i], t) && GenerationOk(ss[i], ss[i].requests[t].at.fetch);
  }

  /** A joiner's key is its generation's key: `Join` hands out the fetch pending for that key. */
  lemma JoinsOwnKey(ss: seq<System>, i: nat, t: Task, key: Key)
    requires Run(ss) && i < |ss| && Enabled(ss[i], t, JoinStep(key))
    ensures var s' := Next(ss[i], t, JoinStep(key));
            s'.requests[t].at.fetch < |s'.starter| && s'.starter[s'.requests[t].at.fetch].key == key
  {
    RunKeeps(ss, i);
    if key in ss[i].shared.pending {
      assert GenerationOk(ss[i], ss[i].shared.pending[key]);
    }
  }

  // ---------------------------------------------------------------- progress

  /** Steps the starter of a generation still has to take, from its own next step to its return. */
  ghost function Remaining(s: System, f: nat): nat
    requires f < |s.starter| == |s.shared.fetches| && s.starter[f].task in s.requests
  {
    match StarterAt(s, f)
    case Fetching(_, _) => |Owed(s, f)| + 3
    case Publishing(_, _) => |Owed(s, f)| + 2
    case Resuming(_, _, todo) => |todo| + 1
    case _ => 0
  }

  /** The starter is never blocked, and each of its steps brings its return one step nearer; by
      `WaiterIsOwedResume` nobody of the generation is waiting when it has returned. */
  lemma StarterMakesProgress(ss: seq<System>, i: nat, f: nat, resp: Response)
    requires Run(ss) && i < |ss| && f < |ss[i].starter|
    ensures f < |ss[i].shared.fetches| && |ss[i].starter| == |ss[i].shared.fetches|
    ensures ss[i].starter[f].task in ss[i].requests
    ensures Remaining(ss[i], f) == 0 <==> StarterAt(ss[i], f).Completed?
    ensures Remaining(ss[i], f) > 0 ==>
              exists step :: Enabled(ss[i], ss[i].starter[f].task, step) && Shortens(ss[i], f, step)
  {
    RunKeeps(ss, i);
    var s := ss[i];
    assert GenerationOk(s, f) && OwedOk(s, f);
    var t := s.starter[f].task;
    if Remaining(s, f) > 0 {
      var step := match StarterAt(s, f)
        case Fetching(_, _) => EraseStep(resp)
        case Publishing(_, _) => PublishStep
        case Resuming(_, _, todo) => if todo == [] then ReturnStep else ResumeStep
        case _ => ReturnStep;
      StarterStepShortens(s, f, step);
    }
  }

  lemma StarterStepShortens(s: System, f: nat, step: Step)
    requires f < |s.starter| == |s.shared.fetches| && GenerationOk(s, f) && OwedOk(s, f)
    requires match StarterAt(s, f)
             case Fetching(_, _) => step.EraseStep?
             case Publishing(_, _) => step.PublishStep?
             case Resuming(_, _, todo) => if todo == [] then step.ReturnStep? else step.ResumeStep?
             case _ => false
    ensures Enabled(s, s.starter[f].task, step) && Shortens(s, f, step)
  {
  }

  ghost predicate Shortens(s: System, f: nat, step: Step)
    requires f < |s.starter| == |s.shared.fetches| && s.starter[f].task in s.requests
    requires Enabled(s, s.starter[f].task, step)
  {
    var s' := Next(s, s.starter[f].task, step);
    && s'.starter == s.starter && |s'.shared.fetches| == |s.shared.fetches|
    && s.starter[f].task in s'.requests
    && Remaining(s', f) == Remaining(s, f) - 1
  }

  /** Once the starter resumes its waiters, steps of others neither move it nor add to what it has to do. */
  lemma OthersLeaveStarter(s: System, f: nat, t: Task, step: Step)
    requires Inv(s) && f < |s.starter| && s.starter[f].task in s.requests
    requires Enabled(s, t, step) && t != s.starter[f].task
    requires StarterAt(s, f).Resuming? || StarterAt(s, f).Completed?
    ensures var s' := Next(s, t, step);
            && f < |s'.starter| == |s'.shared.fetches| && s'.starter[f] == s.starter[f]
            && s.starter[f].task in s'.requests && StarterAt(s', f) == StarterAt(s, f)
  {
    hide OwedOk, PendingOk;
    StepKeeps(s, t, step);
    assert GenerationOk(s, f);
    if t in s.requests { assert RequestOk(s, t); }
    if step.ResumeStep? { ResumedIsWaiting(s, t); }
  }

  lemma ResumedIsWaiting(s: System, t: Task)
    requires Inv(s) && Enabled(s, t, ResumeStep)
    ensures s.requests[s.requests[t].at.todo[0]].at.Waiting?
  {
    var f := s.requests[t].at.fetch;
    assert RequestOk(s, t) && GenerationOk(s, f) && OwedOk(s, f);
    assert s.requests[t].at.todo[0] in Owed(s, f);
  }

  /** From its publication to its return the starter is one step nearer its return each time it moves, and
      nobody else can set it back: the resume loop is bounded in every interleaving. */
  lemma {:induction false} ResumeLoopBounded(ss: seq<System>, i: nat, j: nat, f: nat)
    requires Run(ss) && i <= j < |ss| && f < |ss[i].starter| && ss[i].starter[f].task in ss[i].requests
    requires StarterAt(ss[i], f).Resuming? || StarterAt(ss[i], f).Completed?
    ensures |ss[i].starter| == |ss[i].shared.fetches| && f < |ss[j].starter| == |ss[j].shared.fetches|
    ensures ss[j].starter[f] == ss[i].starter[f] && ss[j].starter[f].task in ss[j].requests
    ensures StarterAt(ss[j], f).Resuming? || StarterAt(ss[j], f).Completed?
    ensures Remaining(ss[j], f) <= Remaining(ss[i], f)
    ensures Remaining(ss[j], f) == Remaining(ss[i], f) <==> StarterAt(ss[j], f) == StarterAt(ss[i], f)
    decreases j
  {
    hide Next, Enabled, Inv;
    RunKeeps(ss, i);
    InvSizes(ss[i]);
    if i == j {
    } else {
      ResumeLoopBounded(ss, i, j - 1, f);
      RunKeeps(ss, j - 1);
      assert Steps(ss[j - 1], ss[j - 1 + 1]);
      var t, step :| Enabled(ss[j - 1], t, step) && ss[j] == Next(ss[j - 1], t, step);
      if t == ss[j - 1].starter[f].task {
        StarterMoves(ss[j - 1], f, step);
      } else {
        OthersLeaveStarter(ss[j - 1], f, t, step);
      }
    }
  }

  lemma InvSizes(s: System)
    requires Inv(s)
    ensures |s.starter| == |s.shared.fetches|
  {
  }

  lemma StarterMoves(s: System, f: nat, step: Step)
    requires Inv(s) && f < |s.starter| && s.starter[f].task in s.requests && Enabled(s, s.starter[f].task, step)
    requires StarterAt(s, f).Resuming? || StarterAt(s, f).Completed?
    ensures |s.starter| == |s.shared.fetches| && Shortens(s, f, step)
    ensures var s' := Next(s, s.starter[f].task, step); StarterAt(s', f).Resuming? || StarterAt(s', f).Completed?
  {
    assert GenerationOk(s, f) && OwedOk(s, f);
    StarterStepShortens(s, f, step);
  }
}

/** The object under any schedule: its state is the shared state of a run. */
module WaitGroupSchedules {
  import opened NodeInfos
  import opened WaitGroupRules
  import opened WaitGroups
  import opened WaitGroupRuns

  /** One step of one request, by the methods of the object. */
  method Perform(wg: WaitGroup, s: System, t: Task, step: Step) returns (s': System)
    requires wg.State() == s.shared && Inv(s) && Enabled(s, t, step)
    modifies wg
    ensures s' == Next(s, t, step) && wg.State() == s'.shared && Inv(s')
  {
    hide Inv;
    StepKeeps(s, t, step);
    SharedValid(s);
    match step {
      case JoinStep(key) =>
        var isInitiator, handle := wg.TryJoin(key);
        s' := s.(shared := Shared(wg.pending, wg.fetches));
        if isInitiator {
          s' := s'.(requests := s.requests[t := Request(Fetching(key, handle), 0, 0)],
                    starter := s.starter + [Start(t, key)]);
        } else {
          s' := s'.(requests := s.requests[t := Request(Joined(handle), 0, 0)]);
        }
      case EraseStep(resp) =>
        var fetch := wg.CompleteErase(s.requests[t].at.key);
        s' := Move(s, t, if fetch.Some? then Publishing(fetch.value, resp) else NothingToComplete);
        s' := s'.(shared := Shared(wg.pending, wg.fetches));
      case PublishStep =>
        var Publishing(f, resp) := s.requests[t].at;
        var todo := wg.CompletePublish(f, Published(resp));
        s' := Move(s, t, Resuming(f, resp, todo)).(shared := Shared(wg.pending, wg.fetches));
      case ResumeStep =>
        var Resuming(f, resp, todo) := s.requests[t].at;
        s' := ResumeTask(Move(s, t, Resuming(f, resp, todo[1..])), todo[0], f);
      case ReturnStep =>
        s' := Move(s, t, Completed(s.requests[t].at.fetch, s.requests[t].at.resp));
      case ReadyStep =>
        var f := s.requests[t].at.fetch;
        var ready := wg.AwaitReady(f);
        s' := Move(s, t, if ready then Ready(f) else NotReady(f));
      case SuspendStep =>
        var f := s.requests[t].at.fetch;
        var suspended := wg.AwaitSuspend(f, t);
        if suspended {
          var r := s.requests[t];
          s' := s.(requests := s.requests[t := Request(Waiting(f), r.suspends + 1, r.resumes)],
                   shared := Shared(wg.pending, wg.fetches));
        } else {
          s' := Move(s, t, Ready(f));
        }
      case TakeStep =>
        var f := s.requests[t].at.fetch;
        var result := wg.AwaitResume(f);
        s' := Move(s, t, Served(f, result));
    }
  }

  lemma SharedValid(s: System)
    requires Inv(s)
    ensures Valid(s.shared)
  {
  }

  /** What a schedule leads to; turns of requests that cannot take the step are passed over. */
  function Follow(schedule: seq<(Task, Step)>): System {
    if schedule == [] then System(Shared(map[], []), map[], [])
    else
      var s, (t, step) := Follow(schedule[..|schedule| - 1]), schedule[|schedule| - 1];
      if Enabled(s, t, step) then Next(s, t, step) else s
  }

  /** A wait group from its construction on, under any schedule: it ends in the shared state of the system
      the schedule leads to, which a run reaches. */
  method Serve(schedule: seq<(Task, Step)>) returns (wg: WaitGroup, s: System, ghost ss: seq<System>)
    ensures fresh(wg) && wg.State() == s.shared && s == Follow(schedule)
    ensures Run(ss) && ss[|ss| - 1] == s
  {
    hide Inv;
    wg := new WaitGroup();
    s := System(Shared(map[], []), map[], []);
    ss := [s];
    RunKeeps(ss, 0);
    for i := 0 to |schedule|
      invariant wg.State() == s.shared && s == Follow(schedule[..i])
      invariant Run(ss) && ss[|ss| - 1] == s && Inv(s)
    {
      var (t, step) := schedule[i];
      assert schedule[..i + 1][..i] == schedule[..i];
      if Enabled(s, t, step) {
        ghost var before := s;
        s := Perform(wg, s, t, step);
        assert Steps(before, s);
        OneMoreStep(ss, s);
        ss := ss + [s];
      }
    }
    assert schedule[..|schedule|] == schedule;
  }

  lemma OneMoreStep(ss: seq<System>, s: System)
    requires Run(ss) && Steps(ss[|ss| - 1], s)
    ensures Run(ss + [s])
  {
    hide Steps;
    var more := ss + [s];
    forall i | 0 <= i < |more| - 1 ensures Steps(more[i], more[i + 1]) {
      if i < |ss| - 1 { assert Steps(ss[i], ss[i + 1]); }
    }
  }
}
