/** The lifecycle of the requests of a session, as a state machine.  One step is one section under the scheduler lock, or
    what one operation does between two such sections; `lock` is the holder of the server session's own lock.  New
    requests, which take only the scheduler lock, may arrive between any two steps, and so may the closing of either
    side of the session. */
module Sessions {
  import opened Basics

  type Rid = nat

  datatype SessionState = Normal | ServerClosed | ClientClosed

  /** What the session knows of a request: whether it still has a client thread and an event, how often the session
      opened and closed it, and how often its client was told that it is over. */
  datatype Request = Request(thread: bool, event: bool, opens: nat, closes: nat, completed: nat) {

    /** The client is told: its event is signalled, or else its wait is ended unless it is terminating. */
    function Completed(terminating: bool): Request {
      if thread && (event || !terminating) then this.(completed := completed + 1) else this
    }

    function Closed(): Request {
      this.(closes := closes + 1)
    }
  }

  /** The operation that holds the server session's lock, and how far it is. */
  datatype Holder =
    | Free
    | Popped(r: Rid)          // ReceiveRequest took `r` from the list
    | Receiving(r: Rid)       // and made it current
    | ReceiveFailed(r: Rid)   // and failed, so `r` is current no more
    | Replying(r: Rid)        // SendReply took the current request
    | Sweeping                // CleanupRequests looks for a request
    | Swept(r: Rid)           // and took one
    | Closing(prev: Option<Rid>)     // OnClientClosed looks for a request
    | ClosingCurrent(r: Rid)  // and looks at the current one
    | ClosingQueued(r: Rid, prev: Option<Rid>) // or took one from the list
  {
    /** The request that is neither queued nor current while the operation deals with it. */
    function Held(): Option<Rid> {
      if Popped? || ReceiveFailed? || Replying? || Swept? || ClosingQueued? then Some(r) else None
    }
  }

  /** How far one end of the session is in closing: it reads the state, writes it if it read `Normal`, and then cleans
      up (the client's end only if it wrote). */
  datatype Closer = Open | Looked(normal: bool) | Wrote | Running | Done

  datatype State = State(session: SessionState, list: seq<Rid>, current: Option<Rid>, lock: Holder,
                         requests: map<Rid, Request>, server: Closer, client: Closer)

  const INITIAL := State(Normal, [], None, Free, map[], Open, Open)

  datatype Action =
    | Accept(r: Rid, event: bool)
    | BeginReceive | SetCurrent | ReceiveOk | ReceiveFail | AnswerFailed(terminating: bool)
    | BeginReply | FinishReply(terminating: bool)
    | ServerLooks | ServerWrites | BeginCleanup | SweepNext | FinishSweep(terminating: bool)
    | ClientLooks | ClientWrites | BeginClientClosed | CloseNext(terminating: bool) | FinishCurrent | FinishQueued

  predicate Enabled(s: State, a: Action) {
    match a
    case Accept(r, _) => s.session == Normal && r !in s.requests
    case BeginReceive => s.lock == Free && s.session == Normal && s.current == None && s.list != []
    case SetCurrent => s.lock.Popped?
    case ReceiveOk => s.lock.Receiving?
    case ReceiveFail => s.lock.Receiving?
    case AnswerFailed(_) => s.lock.ReceiveFailed?
    case BeginReply => s.lock == Free && s.current.Some?
    case FinishReply(_) => s.lock.Replying?
    case ServerLooks => s.server == Open
    case ServerWrites => s.server.Looked?
    case BeginCleanup => s.server == Wrote && s.lock == Free
    case SweepNext => s.lock == Sweeping
    case FinishSweep(_) => s.lock.Swept?
    case ClientLooks => s.client == Open
    case ClientWrites => s.client.Looked?
    case BeginClientClosed => s.client == Wrote && s.lock == Free
    case CloseNext(_) => s.lock.Closing?
    case FinishCurrent => s.lock.ClosingCurrent?
    case FinishQueued => s.lock.ClosingQueued?
  }

  /** Request `r` with `q` in place of its record. */
  function With(s: State, r: Rid, q: Request): map<Rid, Request> {
    s.requests[r := q]
  }

  function Get(s: State, r: Rid): Request {
    if r in s.requests then s.requests[r] else Request(false, false, 0, 0, 0)
  }

  /** The state after a step. */
  function Do(s: State, a: Action): State
    requires Enabled(s, a)
  {
    match a
    case Accept(r, event) => s.(list := s.list + [r], requests := s.requests[r := Request(true, event, 1, 0, 0)])
    case BeginReceive =>
      // Without a thread the request is dropped on the floor.
      var r := s.list[0];
      if Get(s, r).thread then s.(list := s.list[1..], lock := Popped(r)) else s.(list := s.list[1..])
    case SetCurrent => s.(current := Some(s.lock.r), lock := Receiving(s.lock.r))
    case ReceiveOk => s.(lock := Free)
    case ReceiveFail => s.(current := None, lock := ReceiveFailed(s.lock.r))
    case AnswerFailed(terminating) =>
      s.(requests := With(s, s.lock.r, Get(s, s.lock.r).Completed(terminating).Closed()), lock := Free)
    case BeginReply => s.(current := None, lock := Replying(s.current.value))
    case FinishReply(terminating) =>
      s.(requests := With(s, s.lock.r, Get(s, s.lock.r).Completed(terminating).Closed()), lock := Free)
    case ServerLooks => s.(server := Looked(s.session == Normal))
    case ServerWrites => s.(server := Wrote, session := if s.server.normal then ServerClosed else s.session)
    case BeginCleanup => s.(server := Running, lock := Sweeping)
    case SweepNext =>
      if s.current.Some? then s.(current := None, lock := Swept(s.current.value))
      else if s.list != [] then s.(list := s.list[1..], lock := Swept(s.list[0]))
      else s.(lock := Free, server := Done)
    case FinishSweep(terminating) =>
      s.(requests := With(s, s.lock.r, Get(s, s.lock.r).Completed(terminating).Closed()), lock := Sweeping)
    case ClientLooks => s.(client := Looked(s.session == Normal))
    case ClientWrites =>
      if s.client.normal then s.(client := Wrote, session := ClientClosed) else s.(client := Done)
    case BeginClientClosed => s.(client := Running, lock := Closing(None))
    case CloseNext(terminating) =>
      if s.current.Some? && s.current != s.lock.prev then
        var q := Get(s, s.current.value);
        var taken := q.(opens := q.opens + 1);
        s.(requests := With(s, s.current.value, if terminating then taken.(thread := false, event := false) else taken),
           lock := ClosingCurrent(s.current.value))
      else if s.list != [] then s.(list := s.list[1..], lock := ClosingQueued(s.list[0], s.lock.prev))
      else s.(lock := Free, client := Done)
    case FinishCurrent => s.(requests := With(s, s.lock.r, Get(s, s.lock.r).Closed()), lock := Closing(Some(s.lock.r)))
    case FinishQueued =>
      var q := Get(s, s.lock.r);
      s.(requests := With(s, s.lock.r, if q.event then q.Completed(true).Closed() else q.Closed()),
         lock := Closing(s.lock.prev))
  }

  /** Whether a step calls `NotifyAvailable`. */
  predicate Notifies(s: State, a: Action)
    requires Enabled(s, a)
  {
    match a
    case Accept(_, _) => s.list == []
    case ReceiveFail => s.list != []
    case BeginReply => s.list != []
    case CloseNext(_) => !(s.current.Some? && s.current != s.lock.prev) && s.list == []
    case _ => false
  }

  /** `IsSignaledImpl`. */
  predicate Signaled(s: State) {
    s.session != Normal || (s.list != [] && s.current == None)
  }

  // ---- The invariant --------------------------------------------------------------------------

  function B(b: bool): nat {
    if b then 1 else 0
  }

  /** In how many places a request is: queued, current, or in the hands of an operation. */
  function Places(s: State, r: Rid): nat {
    B(r in s.list) + B(s.current == Some(r)) + B(s.lock.Held() == Some(r))
  }

  predicate Live(s: State, r: Rid) {
    Places(s, r) > 0
  }

  predicate RequestOk(s: State, r: Rid)
    requires r in s.requests
  {
    var q := s.requests[r];
    && Places(s, r) <= 1
    && q.opens == q.closes + Places(s, r) + B(s.lock == ClosingCurrent(r))
    && (if Live(s, r) then q.completed == 0 else q.completed <= 1 && (q.event ==> q.completed == 1))
    && (q.event ==> q.thread)
    && (r in s.list ==> q.thread)
    && ((s.lock.Popped? || s.lock.Receiving? || s.lock.ReceiveFailed? || s.lock.ClosingQueued?) && s.lock.r == r ==> q.thread)
    && (Live(s, r) && (s.client.Open? || s.client.Looked? || s.client.Wrote?) ==> q.thread)
    && (Live(s, r) && s.lock.Closing? && s.lock.prev != Some(r) ==> q.thread)
  }

  /** Every request in a place was accepted, and the list holds it once. */
  predicate Known(s: State) {
    && NoDuplicates(s.list)
    && (forall r :: r in s.list ==> r in s.requests)
    && (s.current.Some? ==> s.current.value in s.requests)
    && (s.lock.Held().Some? ==> s.lock.r in s.requests)
  }

  /** The operations' own bookkeeping. */
  predicate Shape(s: State) {
    && (s.lock.Receiving? || s.lock.ClosingCurrent? ==> s.current == Some(s.lock.r))
    && (s.lock.Popped? ==> s.current == None)
    && (s.lock.Sweeping? || s.lock.Swept? <==> s.server == Running)
    && (s.lock.Closing? || s.lock.ClosingCurrent? || s.lock.ClosingQueued? <==> s.client == Running)
    && (s.lock.Closing? && s.lock.prev.Some? ==> s.current == s.lock.prev)
    && (s.lock.ClosingQueued? && s.lock.prev.Some? ==> s.current == s.lock.prev)
    && (s.lock.ClosingQueued? && s.lock.prev == None ==> s.current == None)
  }

  /** What the closing of the two ends has achieved. */
  predicate Closings(s: State) {
    && (s.server.Wrote? || s.server.Running? || s.server.Done? ==> s.session != Normal)
    && (s.server == Looked(false) ==> s.session != Normal)
    && (s.client.Wrote? || s.client.Running? ==> s.session != Normal)
    && (s.server == Done ==> s.list == [] && s.current == None
                             && s.lock.Held() == None)
  }

  predicate Inv(s: State) {
    && Known(s) && Shape(s) && Closings(s)
    && forall r :: r in s.requests ==> RequestOk(s, r)
  }

  // ---- Every step keeps it --------------------------------------------------------------------

  lemma {:induction false} TailFacts(q: seq<Rid>)
    requires q != [] && NoDuplicates(q)
    ensures NoDuplicates(q[1..]) && q[0] in q
    ensures forall x :: x in q[1..] <==> x in q && x != q[0]
  {
    assert q == [q[0]] + q[1..];
    assert forall i :: 0 <= i < |q[1..]| ==> q[1..][i] == q[i + 1];
  }

  lemma {:induction false} AppendFacts(q: seq<Rid>, r: Rid)
    requires NoDuplicates(q) && r !in q
    ensures NoDuplicates(q + [r])
  {
  }

  lemma {:induction false} StepKnown(s: State, a: Action)
    requires Inv(s) && Enabled(s, a)
    ensures Known(Do(s, a))
  {
    hide NoDuplicates, Closings, RequestOk;
    if s.list != [] {
      TailFacts(s.list);
    }
    if a.Accept? {
      AppendFacts(s.list, a.r);
    }
  }

  lemma {:induction false} StepShape(s: State, a: Action)
    requires Inv(s) && Enabled(s, a)
    ensures Shape(Do(s, a))
  {
    hide Known, Closings, RequestOk;
  }

  lemma {:induction false} StepClosings(s: State, a: Action)
    requires Inv(s) && Enabled(s, a)
    ensures Closings(Do(s, a))
  {
  }

  lemma {:induction false} TakeStep(s: State, a: Action, r: Rid)
    requires Inv(s) && Enabled(s, a) && r in Do(s, a).requests
    requires a.Accept? || a.BeginReceive? || a.SetCurrent?
    ensures RequestOk(Do(s, a), r)
  {
    hide NoDuplicates, Closings;
    if s.list != [] {
      TailFacts(s.list);
    }
    if r in s.requests {
      assert RequestOk(s, r);
    }
  }

  lemma {:induction false} ReceiveStep(s: State, a: Action, r: Rid)
    requires Inv(s) && Enabled(s, a) && r in Do(s, a).requests
    requires a.ReceiveOk? || a.ReceiveFail? || a.AnswerFailed?
    ensures RequestOk(Do(s, a), r)
  {
    hide NoDuplicates, Closings;
    if s.list != [] {
      TailFacts(s.list);
    }
    if r in s.requests {
      assert RequestOk(s, r);
    }
  }

  lemma {:induction false} ReplyStep(s: State, a: Action, r: Rid)
    requires Inv(s) && Enabled(s, a) && r in Do(s, a).requests
    requires a.BeginReply? || a.FinishReply?
    ensures RequestOk(Do(s, a), r)
  {
    hide NoDuplicates, Closings;
    if s.list != [] {
      TailFacts(s.list);
    }
    if r in s.requests {
      assert RequestOk(s, r);
    }
  }

  lemma {:induction false} SweepStep(s: State, a: Action, r: Rid)
    requires Inv(s) && Enabled(s, a) && r in Do(s, a).requests && a.SweepNext?
    ensures RequestOk(Do(s, a), r)
  {
    hide NoDuplicates, Closings;
    if s.list != [] {
      TailFacts(s.list);
    }
    assert RequestOk(s, r);
  }

  lemma {:induction false} SweepEnd(s: State, a: Action, r: Rid)
    requires Inv(s) && Enabled(s, a) && r in Do(s, a).requests && a.FinishSweep?
    ensures RequestOk(Do(s, a), r)
  {
    hide NoDuplicates, Closings;
    assert RequestOk(s, r);
  }

  lemma {:induction false} CloserStep(s: State, a: Action, r: Rid)
    requires Inv(s) && Enabled(s, a) && r in Do(s, a).requests
    requires a.ServerLooks? || a.ServerWrites? || a.ClientLooks? || a.ClientWrites? || a.BeginClientClosed? || a.BeginCleanup?
    ensures RequestOk(Do(s, a), r)
  {
    hide Known, Closings, Places;
    assert RequestOk(s, r);
    assert Places(Do(s, a), r) == Places(s, r) by {
      SamePlaces(s, a, r);
    }
  }

  lemma {:induction false} SamePlaces(s: State, a: Action, r: Rid)
    requires Enabled(s, a)
    requires a.ServerLooks? || a.ServerWrites? || a.ClientLooks? || a.ClientWrites? || a.BeginClientClosed? || a.BeginCleanup?
    ensures Places(Do(s, a), r) == Places(s, r)
  {
  }

  lemma {:induction false} CloseStep(s: State, a: Action, r: Rid)
    requires Inv(s) && Enabled(s, a) && r in Do(s, a).requests
    requires a.CloseNext?
    ensures RequestOk(Do(s, a), r)
  {
    hide NoDuplicates, Closings;
    if s.list != [] {
      TailFacts(s.list);
    }
    if r in s.requests {
      assert RequestOk(s, r);
    }
  }

  lemma {:induction false} FinishStep(s: State, a: Action, r: Rid)
    requires Inv(s) && Enabled(s, a) && r in Do(s, a).requests
    requires a.FinishCurrent? || a.FinishQueued?
    ensures RequestOk(Do(s, a), r)
  {
    hide NoDuplicates, Closings, Places;
    PlacesFinished(s, a, r);
    assert RequestOk(s, r);
  }

  lemma {:induction false} PlacesFinished(s: State, a: Action, r: Rid)
    requires Inv(s) && Enabled(s, a) && (a.FinishCurrent? || a.FinishQueued?)
    ensures r in Do(s, a).requests ==> r in s.requests
    ensures Places(Do(s, a), r) == Places(s, r) - B(a.FinishQueued? && s.lock.r == r)
    ensures a.FinishQueued? && s.lock.r == r ==> Places(s, r) == 1
    ensures s.lock == ClosingCurrent(r) ==> Places(s, r) == 1
    ensures Live(Do(s, a), r) ==> r in s.list || s.current == Some(r)
  {
    if r in s.requests {
      assert RequestOk(s, r);
    }
  }

  lemma {:induction false} StepRequest(s: State, a: Action, r: Rid)
    requires Inv(s) && Enabled(s, a) && r in Do(s, a).requests
    ensures RequestOk(Do(s, a), r)
  {
    hide Inv, RequestOk, Do;
    if a.Accept? || a.BeginReceive? || a.SetCurrent? {
      TakeStep(s, a, r);
    } else if a.ReceiveOk? || a.ReceiveFail? || a.AnswerFailed? {
      ReceiveStep(s, a, r);
    } else if a.BeginReply? || a.FinishReply? {
      ReplyStep(s, a, r);
    } else if a.SweepNext? {
      SweepStep(s, a, r);
    } else if a.FinishSweep? {
      SweepEnd(s, a, r);
    } else if a.ServerLooks? || a.ServerWrites? || a.ClientLooks? || a.ClientWrites? || a.BeginClientClosed? || a.BeginCleanup? {
      CloserStep(s, a, r);
    } else if a.CloseNext? {
      CloseStep(s, a, r);
    } else {
      FinishStep(s, a, r);
    }
  }

  lemma {:induction false} StepInv(s: State, a: Action)
    requires Inv(s) && Enabled(s, a)
    ensures Inv(Do(s, a))
  {
    hide Known, Shape, Closings, RequestOk, Do;
    StepKnown(s, a);
    StepShape(s, a);
    StepClosings(s, a);
    forall r | r in Do(s, a).requests
      ensures RequestOk(Do(s, a), r)
    {
      StepRequest(s, a, r);
    }
  }

  // ---- Runs -----------------------------------------------------------------------------------

  /** The actions of a run are each enabled when their turn comes. */
  predicate IsRun(s: State, run: seq<Action>)
    decreases run
  {
    run == [] || (Enabled(s, run[0]) && IsRun(Do(s, run[0]), run[1..]))
  }

  /** The state at the end of a run. */
  function After(s: State, run: seq<Action>): State
    requires IsRun(s, run)
    decreases run
  {
    if run == [] then s else After(Do(s, run[0]), run[1..])
  }

  lemma {:induction false} RunInv(s: State, run: seq<Action>)
    requires Inv(s) && IsRun(s, run)
    ensures Inv(After(s, run))
    decreases run
  {
    if run != [] {
      StepInv(s, run[0]);
      RunInv(Do(s, run[0]), run[1..]);
    }
  }

  /** In every run every accepted request is in exactly one place or finished.  While it is in a place the session holds
      one more open than close of it (two more while the client's closing looks at it), and its client has not been told.
      When it is finished the session has closed it exactly as often as it opened it, and its client has been told at
      most once, and exactly once if the request still has its event. */
  lemma {:induction false} EveryRequestIsSomewhere(run: seq<Action>, r: Rid)
    requires IsRun(INITIAL, run) && r in After(INITIAL, run).requests
    ensures var s := After(INITIAL, run);
            var q := s.requests[r];
            && Places(s, r) <= 1
            && (Places(s, r) == 1 ==> q.opens - q.closes == 1 + B(s.lock == ClosingCurrent(r)) && q.completed == 0)
            && (Places(s, r) == 0 ==> q.opens == q.closes && q.completed <= 1 && (q.event ==> q.completed == 1))
  {
    RunInv(INITIAL, run);
    var s := After(INITIAL, run);
    assert RequestOk(s, r);
  }

  /** In every run a queued request has a thread, so receiving it never takes the exit that would lose it; and the
      current request has one whenever the client's closing asks it whether it is terminating. */
  lemma {:induction false} QueuedHasThread(run: seq<Action>)
    requires IsRun(INITIAL, run)
    ensures var s := After(INITIAL, run);
            && (forall r :: r in s.list ==> r in s.requests && s.requests[r].thread)
            && (Enabled(s, BeginReceive) ==> Do(s, BeginReceive).lock == Popped(s.list[0]))
            && (s.lock.Closing? && s.current.Some? && s.current != s.lock.prev ==>
                  s.current.value in s.requests && s.requests[s.current.value].thread)
  {
    RunInv(INITIAL, run);
    var s := After(INITIAL, run);
    forall r | r in s.list
      ensures r in s.requests && s.requests[r].thread
    {
      assert RequestOk(s, r);
    }
    if s.current.Some? {
      assert RequestOk(s, s.current.value);
    }
    if s.list != [] {
      assert s.list[0] in s.list;
    }
  }

  /** Once the server's end has cleaned up, the session is empty for good: every request it accepted is finished, and no
      step can bring one back. */
  lemma {:induction false} CleanedUpForGood(run: seq<Action>, more: seq<Action>)
    requires IsRun(INITIAL, run) && After(INITIAL, run).server == Done
    requires IsRun(After(INITIAL, run), more)
    ensures var s := After(After(INITIAL, run), more);
            && s.server == Done && s.list == [] && s.current == None
            && forall r :: r in s.requests ==> s.requests[r].opens == s.requests[r].closes && Places(s, r) == 0
  {
    RunInv(INITIAL, run);
    StaysDone(After(INITIAL, run), more);
    var s := After(After(INITIAL, run), more);
    RunInv(After(INITIAL, run), more);
    forall r | r in s.requests
      ensures s.requests[r].opens == s.requests[r].closes && Places(s, r) == 0
    {
      assert RequestOk(s, r);
    }
  }

  lemma {:induction false} StaysDone(s: State, run: seq<Action>)
    requires Inv(s) && s.server == Done && IsRun(s, run)
    ensures After(s, run).server == Done
    decreases run
  {
    if run != [] {
      StepInv(s, run[0]);
      StaysDone(Do(s, run[0]), run[1..]);
    }
  }

  /** No lost wakeup: a step that makes the server session signalled also notifies, unless it is the step in which an end
      of the session writes that it closed. */
  lemma {:induction false} NoLostWakeup(run: seq<Action>, a: Action)
    requires IsRun(INITIAL, run) && Enabled(After(INITIAL, run), a)
    requires !Signaled(After(INITIAL, run)) && Signaled(Do(After(INITIAL, run), a))
    ensures Notifies(After(INITIAL, run), a) || a == ServerWrites || a == ClientWrites
  {
    RunInv(INITIAL, run);
    WakeupStep(After(INITIAL, run), a);
  }

  lemma {:induction false} WakeupStep(s: State, a: Action)
    requires Inv(s) && Enabled(s, a) && !Signaled(s) && Signaled(Do(s, a))
    ensures Notifies(s, a) || a == ServerWrites || a == ClientWrites
  {
    hide Known, RequestOk;
  }

  /** Some step of the run notifies. */
  predicate NotifiesIn(s: State, run: seq<Action>)
    requires IsRun(s, run)
    decreases run
  {
    run != [] && (Notifies(s, run[0]) || NotifiesIn(Do(s, run[0]), run[1..]))
  }

  /** The wakeup that the client's closing write owes is not lost: once the client has written that it closed, it cannot
      be done without a step in between that notifies. */
  lemma {:induction false} ClosingNotifies(s: State, run: seq<Action>)
    requires (s.client.Wrote? || s.client.Running?) && IsRun(s, run) && After(s, run).client == Done
    ensures NotifiesIn(s, run)
    decreases run
  {
    if !Notifies(s, run[0]) {
      ClosingStep(s, run[0]);
      ClosingNotifies(Do(s, run[0]), run[1..]);
    }
  }

  /** The client's cleanup ends in a step that notifies, and in no other. */
  lemma {:induction false} ClosingStep(s: State, a: Action)
    requires (s.client.Wrote? || s.client.Running?) && Enabled(s, a)
    ensures Do(s, a).client == Done ==> Notifies(s, a)
    ensures Do(s, a).client != Done ==> Do(s, a).client.Wrote? || Do(s, a).client.Running?
  {
  }

  lemma {:induction false} FinishedStep(s: State, a: Action, r: Rid)
    requires Inv(s) && Enabled(s, a) && r in s.requests && Places(s, r) == 0
    ensures var n := Do(s, a); r in n.requests && n.requests[r] == s.requests[r] && Places(n, r) == 0
  {
    hide NoDuplicates, Closings, RequestOk;
    if s.list != [] {
      TailFacts(s.list);
    }
  }

  /** A finished request is never touched again. */
  lemma {:induction false} FinishedForGood(s: State, run: seq<Action>, r: Rid)
    requires Inv(s) && IsRun(s, run) && r in s.requests && Places(s, r) == 0
    ensures var n := After(s, run); r in n.requests && n.requests[r] == s.requests[r] && Places(n, r) == 0
    decreases run
  {
    if run != [] {
      StepInv(s, run[0]);
      FinishedStep(s, run[0], r);
      FinishedForGood(Do(s, run[0]), run[1..], r);
    }
  }

  // ---- When the client is told --------------------------------------------------------------------

  /** The last step of an operation on a request. */
  predicate IsLast(a: Action) {
    a.AnswerFailed? || a.FinishReply? || a.FinishSweep? || a.FinishQueued?
  }

  /** The operation that has request `r` in its hands is done with it. */
  predicate Finishes(s: State, a: Action, r: Rid) {
    s.lock.Held() == Some(r) && IsLast(a)
  }

  /** The client's closing finds that the thread of the current request `r` is terminating, and takes thread and event
      from the request. */
  predicate Detaches(s: State, a: Action, r: Rid) {
    a == CloseNext(true) && s.lock.Closing? && s.current == Some(r) && s.lock.prev != Some(r)
  }

  /** Whether the last step of a request that still has its thread tells the client: by its event always, by ending its
      wait unless the thread is terminating, and not at all if the client's closing drops it. */
  predicate TellsBy(a: Action, event: bool) {
    match a
    case AnswerFailed(terminating) => event || !terminating
    case FinishReply(terminating) => event || !terminating
    case FinishSweep(terminating) => event || !terminating
    case _ => event
  }

  datatype Ending = Pending | Told | Untold

  /** What becomes of request `r` in a run, read off the steps alone. */
  function EndOf(s: State, run: seq<Action>, r: Rid, event: bool, attached: bool): Ending
    requires IsRun(s, run)
    decreases run
  {
    if run == [] then Pending
    else if Finishes(s, run[0], r) then if attached && TellsBy(run[0], event) then Told else Untold
    else EndOf(Do(s, run[0]), run[1..], r, event, attached && !Detaches(s, run[0], r))
  }

  lemma {:induction false} LiveStep(s: State, a: Action, r: Rid)
    requires Inv(s) && Enabled(s, a) && r in s.requests && Live(s, r)
    ensures r in Do(s, a).requests && (Live(Do(s, a), r) <==> !Finishes(s, a, r))
  {
    hide Inv, Do, Places;
    if a.BeginReceive? || a.SweepNext? || a.CloseNext? {
      LiveTake(s, a, r);
    } else if IsLast(a) {
      LiveLast(s, a, r);
    } else {
      LiveKeep(s, a, r);
    }
  }

  /** Taking the next request from the list or from the current place keeps it in the hands of the operation. */
  lemma {:induction false} LiveTake(s: State, a: Action, r: Rid)
    requires Inv(s) && Enabled(s, a) && r in s.requests && Live(s, r)
    requires a.BeginReceive? || a.SweepNext? || a.CloseNext?
    ensures r in Do(s, a).requests && Live(Do(s, a), r)
  {
    hide NoDuplicates, Closings;
    if s.list != [] {
      TailFacts(s.list);
      assert RequestOk(s, s.list[0]);
    }
  }

  lemma {:induction false} LiveLast(s: State, a: Action, r: Rid)
    requires Inv(s) && Enabled(s, a) && r in s.requests && Live(s, r) && IsLast(a)
    ensures r in Do(s, a).requests && (Live(Do(s, a), r) <==> !Finishes(s, a, r))
  {
    hide Known, Closings;
    assert RequestOk(s, r);
  }

  lemma {:induction false} LiveKeep(s: State, a: Action, r: Rid)
    requires Inv(s) && Enabled(s, a) && r in s.requests && Live(s, r)
    requires !a.BeginReceive? && !a.SweepNext? && !a.CloseNext? && !IsLast(a)
    ensures r in Do(s, a).requests && Live(Do(s, a), r)
  {
    hide Known, Closings, RequestOk;
  }

  lemma {:induction false} RecordStep(s: State, a: Action, r: Rid)
    requires Inv(s) && Enabled(s, a) && r in s.requests && Live(s, r)
    ensures var q, n := s.requests[r], Get(Do(s, a), r);
            if Finishes(s, a, r) then n.completed == B(q.thread && TellsBy(a, q.event))
            else
              && n.completed == 0 && n.thread == (q.thread && !Detaches(s, a, r))
              && (n.thread ==> n.event == q.event)
  {
    hide Inv, Do;
    if IsLast(a) {
      RecordLast(s, a, r);
    } else {
      RecordOther(s, a, r);
    }
  }

  lemma {:induction false} RecordLast(s: State, a: Action, r: Rid)
    requires Inv(s) && Enabled(s, a) && r in s.requests && Live(s, r) && IsLast(a)
    ensures var q, n := s.requests[r], Get(Do(s, a), r);
            if Finishes(s, a, r) then n.completed == B(q.thread && TellsBy(a, q.event))
            else n == q && q.completed == 0
  {
    hide Known, Closings, Shape;
    assert RequestOk(s, r);
  }

  lemma {:induction false} RecordOther(s: State, a: Action, r: Rid)
    requires Inv(s) && Enabled(s, a) && r in s.requests && Live(s, r) && !IsLast(a)
    ensures var q, n := s.requests[r], Get(Do(s, a), r);
            n.completed == 0 && n.thread == (q.thread && !Detaches(s, a, r)) && (n.thread ==> n.event == q.event)
  {
    hide Known, Closings, RequestOk;
    NotToldYet(s, r);
  }

  lemma {:induction false} EndIsTold(s: State, run: seq<Action>, r: Rid)
    requires Inv(s) && IsRun(s, run) && r in s.requests && Live(s, r)
    ensures var n := After(s, run);
            && r in n.requests
            && match EndOf(s, run, r, s.requests[r].event, s.requests[r].thread)
               case Pending => Live(n, r) && n.requests[r].completed == 0
               case Told => !Live(n, r) && n.requests[r].completed == 1
               case Untold => !Live(n, r) && n.requests[r].completed == 0
    decreases run
  {
    hide Known, Shape, Closings, Do, Finishes, Detaches, TellsBy, RequestOk, Places;
    if run == [] {
      NotToldYet(s, r);
    } else {
      var n := Do(s, run[0]);
      StepInv(s, run[0]);
      LiveStep(s, run[0], r);
      RecordStep(s, run[0], r);
      if Finishes(s, run[0], r) {
        FinishedForGood(n, run[1..], r);
      } else {
        EndIsTold(n, run[1..], r);
        EventOfDetached(n, run[1..], r, s.requests[r].event);
      }
    }
  }

  lemma {:induction false} NotToldYet(s: State, r: Rid)
    requires Inv(s) && r in s.requests && Live(s, r)
    ensures s.requests[r].completed == 0
  {
    assert RequestOk(s, r);
  }

  /** Without a thread the event does not matter. */
  lemma {:induction false} EventOfDetached(s: State, run: seq<Action>, r: Rid, event: bool)
    requires Inv(s) && IsRun(s, run) && r in s.requests && (s.requests[r].thread ==> s.requests[r].event == event)
    ensures EndOf(s, run, r, event, s.requests[r].thread) == EndOf(s, run, r, s.requests[r].event, s.requests[r].thread)
  {
    hide Inv, Do, Finishes, TellsBy;
    if !s.requests[r].thread {
      EndDetached(s, run, r, event, s.requests[r].event);
    }
  }

  lemma {:induction false} EndDetached(s: State, run: seq<Action>, r: Rid, event: bool, event': bool)
    requires IsRun(s, run)
    ensures EndOf(s, run, r, event, false) == EndOf(s, run, r, event', false)
    decreases run
  {
    hide Do, Finishes, TellsBy;
    if run != [] {
      EndDetached(Do(s, run[0]), run[1..], r, event, event');
    }
  }

  /** Exactly when the client of a request is told, in every run from its acceptance on.  With an event it is told when the
      request is finished, and a waiting thread is told then unless it is terminating; the two exceptions are a request
      that the client's closing finds current with a terminating thread, and one without an event that the client's closing
      drops from the list. */
  lemma {:induction false} ToldExactly(run: seq<Action>, r: Rid, event: bool, more: seq<Action>)
    requires IsRun(INITIAL, run) && Enabled(After(INITIAL, run), Accept(r, event))
    requires IsRun(Do(After(INITIAL, run), Accept(r, event)), more)
    ensures var s := Do(After(INITIAL, run), Accept(r, event));
            var n := After(s, more);
            && r in n.requests && n.requests[r].completed == B(EndOf(s, more, r, event, true) == Told)
            && (Live(n, r) <==> EndOf(s, more, r, event, true) == Pending)
  {
    RunInv(INITIAL, run);
    StepInv(After(INITIAL, run), Accept(r, event));
    EndIsTold(Do(After(INITIAL, run), Accept(r, event)), more, r);
  }
}
