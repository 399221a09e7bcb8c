/** Choosing the thread for every core: what `UpdateHighestPriorityThreadsImpl` computes, and what holds of it. */
module SchedulerUpdates {
  import opened Basics
  import opened ReadyQueues

  const HIGHEST_MIGRATION_PRIORITY: nat := 2

  /** Threads that a process pinned to cores, and the one that handles its exceptions. */
  datatype Process = Process(pinned: map<nat, Tid>, exceptionThread: Option<Tid>)

  type Processes = map<nat, Process>

  /** The shared priority queue, the threads' active cores (-1 for none), the threads chosen so far, the
      schedulers' recorded threads, and the cores whose record changed. */
  datatype State = State(sched: seq<seq<Tid>>, sugg: seq<seq<Tid>>, active: map<Tid, int>,
                         top: seq<Option<Tid>>, highest: seq<Option<Tid>>, pending: set<nat>)
  {
    function Cores(): nat { |sched| }

    /** `GetActiveCore` of thread `t`. */
    function On(t: Tid): int {
      if t in active then active[t] else -1
    }

    /** `UpdateHighestPriorityThread` on the scheduler of core `c`. */
    function Record(c: nat, t: Option<Tid>): State
      requires c < |highest| && c < |top|
    {
      if highest[c] == t then this.(top := top[c := t])
      else this.(top := top[c := t], highest := highest[c := t], pending := pending + {c})
    }
  }

  // ---- The invariant of the queues ------------------------------------------------------------

  predicate Shaped(s: State) {
    |s.sugg| == |s.top| == |s.highest| == s.Cores()
  }

  predicate ActiveOk(th: Threads, s: State, t: Tid)
    requires t in th
  {
    && (forall c :: c in th[t].affinity ==> c < s.Cores())
    && (s.On(t) == -1 || (0 <= s.On(t) && (s.On(t) as nat) in th[t].affinity))
  }

  ghost predicate CoreOk(th: Threads, s: State, c: nat)
    requires Shaped(s) && c < s.Cores()
  {
    && QueueOk(th, s.sched[c]) && QueueOk(th, s.sugg[c])
    && (forall t :: t in s.sched[c] <==> t in th && s.On(t) == c)
    && (forall t :: t in s.sugg[c] <==> t in th && c in th[t].affinity && s.On(t) != c)
  }

  /** Every runnable thread waits in the queue of its active core and is suggested for the other cores of its
      affinity, nowhere else. */
  ghost predicate QueuesOk(th: Threads, s: State) {
    && Shaped(s)
    && (forall t :: t in th ==> ActiveOk(th, s, t))
    && (forall c :: 0 <= c < s.Cores() ==> CoreOk(th, s, c))
  }

  /** The chosen thread of a core waits there, and is the first unless it is bound to the core. */
  ghost predicate TopOk(th: Threads, s: State, c: nat)
    requires QueuesOk(th, s) && c < s.Cores()
  {
    match s.top[c]
    case None => true
    case Some(t) => t in th && t in s.sched[c] && (t == s.sched[c][0] || th[t].affinity == {c})
  }

  ghost predicate Good(th: Threads, s: State) {
    && QueuesOk(th, s)
    && (forall c :: 0 <= c < s.Cores() ==> TopOk(th, s, c))
    && (forall c :: 0 <= c < s.Cores() ==> s.highest[c] == s.top[c])
  }

  /** Two cores never choose the same thread. */
  lemma {:induction false} TopsDistinct(th: Threads, s: State, c: nat, d: nat)
    requires Good(th, s) && c < s.Cores() && d < s.Cores() && s.top[c].Some? && s.top[c] == s.top[d]
    ensures c == d
  {
    assert CoreOk(th, s, c) && CoreOk(th, s, d) && TopOk(th, s, c) && TopOk(th, s, d);
  }

  // ---- Migration ------------------------------------------------------------------------------

  /** `SetActiveCore(c)` and `ChangeCore`: thread `t` goes from core `from` (or none) to core `c`. */
  function Migrated(th: Threads, s: State, t: Tid, c: nat): State
    requires QueuesOk(th, s) && t in th && c < s.Cores() && s.On(t) != c
  {
    assert ActiveOk(th, s, t);
    assert CoreOk(th, s, c);
    var from := s.On(t);
    var sched := s.sched[c := Pushed(th, s.sched[c], t)];
    var sugg := s.sugg[c := Removed(s.sugg[c], t)];
    if from == -1 then s.(sched := sched, sugg := sugg, active := s.active[t := c])
    else
      assert CoreOk(th, s, from);
      s.(sched := sched[from := Removed(s.sched[from], t)],
         sugg := sugg[from := Pushed(th, s.sugg[from], t)],
         active := s.active[t := c])
  }

  lemma {:induction false} MigratedCore(th: Threads, s: State, t: Tid, c: nat, d: nat)
    requires QueuesOk(th, s) && t in th && c in th[t].affinity && s.On(t) != c
    requires c < s.Cores() && d < s.Cores()
    ensures Shaped(Migrated(th, s, t, c)) && Migrated(th, s, t, c).Cores() == s.Cores()
    ensures forall x :: x in th ==> ActiveOk(th, Migrated(th, s, t, c), x)
    ensures CoreOk(th, Migrated(th, s, t, c), d)
  {
    hide QueueOk, Pushed, Removed;
    var m := Migrated(th, s, t, c);
    assert ActiveOk(th, s, t);
    forall x | x in th
      ensures ActiveOk(th, m, x)
    {
      assert ActiveOk(th, s, x);
    }
    assert CoreOk(th, s, c) && CoreOk(th, s, d);
    PushedOk(th, s.sched[c], t);
    RemovedOk(th, s.sugg[c], t);
    var from := s.On(t);
    if from != -1 {
      assert CoreOk(th, s, from);
      RemovedOk(th, s.sched[from], t);
      PushedOk(th, s.sugg[from], t);
    }
  }

  /** A migration inside a thread's affinity keeps the queues in order. */
  lemma {:induction false} MigratedOk(th: Threads, s: State, t: Tid, c: nat)
    requires QueuesOk(th, s) && t in th && c in th[t].affinity && s.On(t) != c && c < s.Cores()
    ensures QueuesOk(th, Migrated(th, s, t, c))
  {
    hide CoreOk, ActiveOk, Migrated;
    MigratedCore(th, s, t, c, c);
    forall d | 0 <= d < Migrated(th, s, t, c).Cores()
      ensures CoreOk(th, Migrated(th, s, t, c), d)
    {
      MigratedCore(th, s, t, c, d);
    }
  }

  // ---- The first pass: a thread for every core ------------------------------------------------

  /** A runnable pinned thread is bound to the core it is pinned to. */
  predicate PinsBound(th: Threads, procs: Processes, s: State) {
    forall p, c :: p in procs && c in procs[p].pinned && procs[p].pinned[c] in th ==>
      th[procs[p].pinned[c]].affinity == {c} && s.On(procs[p].pinned[c]) == c
  }

  /** The thread that core `c` should run: the front of its queue, unless the front's process pinned another thread
      there and the front neither has kernel waiters nor handles an exception. */
  function Choice(th: Threads, procs: Processes, s: State, c: nat): Option<Tid>
    requires c < s.Cores()
  {
    match Front(s.sched[c])
    case None => None
    case Some(t) =>
      if t in th && th[t].process in procs && c in procs[th[t].process].pinned then
        var process := procs[th[t].process];
        var pinned := process.pinned[c];
        if pinned != t && th[t].kernelWaiters == 0 && process.exceptionThread != Some(t) then
          if pinned in th then Some(pinned) else None
        else Some(t)
      else Some(t)
  }

  function FirstPass(th: Threads, procs: Processes, s: State, c: nat): State
    requires Shaped(s) && c <= s.Cores()
    decreases s.Cores() - c
  {
    if c == s.Cores() then s else FirstPass(th, procs, s.Record(c, Choice(th, procs, s, c)), c + 1)
  }

  /** The records that changed are the ones whose bit is set. */
  predicate ChangesSeen(s0: State, s: State) {
    && |s.highest| == |s0.highest|
    && forall c :: 0 <= c < |s.highest| && c !in s.pending ==> s.highest[c] == s0.highest[c]
  }

  lemma {:induction false} FirstPassChooses(th: Threads, procs: Processes, s0: State, s: State, c: nat)
    requires Shaped(s) && c <= s.Cores() && ChangesSeen(s0, s)
    requires forall d :: 0 <= d < c ==> s.top[d] == Choice(th, procs, s, d) == s.highest[d]
    ensures var r := FirstPass(th, procs, s, c);
            && r.sched == s.sched && r.sugg == s.sugg && r.active == s.active && Shaped(r) && ChangesSeen(s0, r)
            && forall d :: 0 <= d < s.Cores() ==> r.top[d] == Choice(th, procs, s, d) == r.highest[d]
    decreases s.Cores() - c
  {
    if c < s.Cores() {
      FirstPassChooses(th, procs, s0, s.Record(c, Choice(th, procs, s, c)), c + 1);
    }
  }

  lemma {:induction false} ChoiceWaits(th: Threads, procs: Processes, s: State, c: nat)
    requires QueuesOk(th, s) && PinsBound(th, procs, s) && c < s.Cores()
    ensures match Choice(th, procs, s, c)
            case None => true
            case Some(t) => t in th && t in s.sched[c] && (t == s.sched[c][0] || th[t].affinity == {c})
  {
    assert CoreOk(th, s, c);
    if s.sched[c] != [] {
      var t := s.sched[c][0];
      assert t in s.sched[c];
      if Choice(th, procs, s, c) != Some(t) && Choice(th, procs, s, c).Some? {
        var p := th[t].process;
        assert p in procs && c in procs[p].pinned;
        var pinned := procs[p].pinned[c];
        assert pinned in th;
        assert th[pinned].affinity == {c};
        assert s.On(pinned) == c;
        assert pinned in s.sched[c];
      }
    }
  }

  lemma {:induction false} FirstPassGood(th: Threads, procs: Processes, s: State)
    requires QueuesOk(th, s) && PinsBound(th, procs, s)
    ensures Good(th, FirstPass(th, procs, s, 0))
  {
    var r := FirstPass(th, procs, s, 0);
    FirstPassChooses(th, procs, s, s, 0);
    forall c | 0 <= c < r.Cores()
      ensures CoreOk(th, r, c)
    {
      assert CoreOk(th, s, c);
    }
    forall t | t in th
      ensures ActiveOk(th, r, t)
    {
      assert ActiveOk(th, s, t);
    }
    forall c | 0 <= c < r.Cores()
      ensures TopOk(th, r, c)
    {
      ChoiceWaits(th, procs, s, c);
    }
  }

  // ---- Filling an idle core -------------------------------------------------------------------

  datatype Scan = Migrate(t: Tid) | Stop(t: Tid) | Exhausted

  /** The chosen thread of the core that `t` is on. */
  function TopAt(s: State, t: Tid): Option<Tid>
    requires Shaped(s)
  {
    if 0 <= s.On(t) < s.Cores() then s.top[s.On(t)] else None
  }

  /** `t` is not chosen on its core, and the thread that is may not be migrated over. */
  predicate TooHigh(th: Threads, s: State, t: Tid)
    requires Shaped(s)
  {
    var top := TopAt(s, t);
    top != Some(t) && top.Some? && top.value in th && th[top.value].priority < HIGHEST_MIGRATION_PRIORITY
  }

  /** Walks the threads suggested for `c` from the `i`-th on, past those that are chosen on their own core. */
  function ScanFrom(th: Threads, s: State, c: nat, i: nat): (r: Scan)
    requires Shaped(s) && c < s.Cores() && i <= |s.sugg[c]|
    ensures r.Migrate? || r.Stop? ==> r.t in s.sugg[c] && TopAt(s, r.t) != Some(r.t)
    ensures r.Stop? ==> TooHigh(th, s, r.t)
    ensures r.Migrate? ==> !TooHigh(th, s, r.t)
    ensures r.Exhausted? ==> forall j :: i <= j < |s.sugg[c]| ==> TopAt(s, s.sugg[c][j]) == Some(s.sugg[c][j])
    decreases |s.sugg[c]| - i
  {
    if i == |s.sugg[c]| then Exhausted
    else if TopAt(s, s.sugg[c][i]) == Some(s.sugg[c][i]) then ScanFrom(th, s, c, i + 1)
    else if TooHigh(th, s, s.sugg[c][i]) then Stop(s.sugg[c][i])
    else Migrate(s.sugg[c][i])
  }

  /** The thread that would run on the core of `t` without it. */
  function Successor(s: State, t: Tid): Option<Tid> {
    if 0 <= s.On(t) < s.Cores() then Next(s.sched[s.On(t)], t) else None
  }

  /** The first suggested thread, from the `i`-th on, whose core has another thread to run. */
  function CandidateFrom(s: State, c: nat, i: nat): (r: nat)
    requires Shaped(s) && c < s.Cores() && i <= |s.sugg[c]|
    ensures i <= r <= |s.sugg[c]|
    ensures r < |s.sugg[c]| ==> Successor(s, s.sugg[c][r]).Some?
    ensures forall j :: i <= j < r ==> Successor(s, s.sugg[c][j]) == None
    decreases |s.sugg[c]| - i
  {
    if i == |s.sugg[c]| || Successor(s, s.sugg[c][i]).Some? then i else CandidateFrom(s, c, i + 1)
  }

  lemma {:induction false} RecordKeepsQueues(th: Threads, s: State, c: nat, t: Option<Tid>)
    requires QueuesOk(th, s) && c < s.Cores()
    ensures QueuesOk(th, s.Record(c, t))
  {
    var r := s.Record(c, t);
    forall x | x in th
      ensures ActiveOk(th, r, x)
    {
      assert ActiveOk(th, s, x);
    }
    forall d | 0 <= d < r.Cores()
      ensures CoreOk(th, r, d)
    {
      assert CoreOk(th, s, d);
    }
  }

  /** What a migration to an empty core does to the queues, core by core. */
  lemma {:induction false} MigratedQueues(th: Threads, s: State, t: Tid, c: nat, d: nat)
    requires QueuesOk(th, s) && t in th && s.On(t) != c && c < s.Cores() && d < s.Cores() && s.sched[c] == []
    ensures var m := Migrated(th, s, t, c);
            && m.Cores() == s.Cores() == |m.sugg| && m.active == s.active[t := c]
            && m.top == s.top && m.highest == s.highest && m.pending == s.pending
            && m.sched[d] == (if d == c then [t] else if d == s.On(t) then Removed(s.sched[d], t) else s.sched[d])
            && (d != c && d != s.On(t) ==> m.sugg[d] == s.sugg[d])
  {
    hide QueueOk, Removed;
    assert ActiveOk(th, s, t) && CoreOk(th, s, c);
    if s.On(t) != -1 {
      assert CoreOk(th, s, s.On(t));
    }
  }

  lemma {:induction false} CoreQueues(th: Threads, s: State, c: nat)
    requires QueuesOk(th, s) && c < s.Cores()
    ensures QueueOk(th, s.sched[c]) && QueueOk(th, s.sugg[c])
    ensures forall t :: t in s.sched[c] <==> t in th && s.On(t) == c
    ensures forall t :: t in s.sugg[c] <==> t in th && c in th[t].affinity && s.On(t) != c
  {
    hide QueueOk;
    assert CoreOk(th, s, c);
  }

  /** A suggested thread that is chosen on its own core is the first there. */
  lemma {:induction false} SuggestedTopIsFront(th: Threads, s: State, c: nat, t: Tid)
    requires Good(th, s) && c < s.Cores() && t in s.sugg[c] && TopAt(s, t) == Some(t)
    ensures 0 <= s.On(t) < s.Cores() && s.On(t) != c && t in th && c in th[t].affinity
    ensures s.sched[s.On(t)] != [] && s.sched[s.On(t)][0] == t
    ensures Successor(s, t) == Front(Removed(s.sched[s.On(t)], t))
    ensures Successor(s, t) == None <==> s.sched[s.On(t)] == [t]
  {
    CoreQueues(th, s, c);
    assert TopOk(th, s, s.On(t));
    assert c in th[t].affinity;
    NextOfFront(s.sched[s.On(t)]);
  }

  /** The thread that moves to the idle core `c`: the first that its own core does not run, or else the first whose
      core has another thread to run. */
  function Mover(th: Threads, s: State, c: nat): (r: Option<Tid>)
    requires Shaped(s) && c < s.Cores()
    ensures r.Some? ==> r.value in s.sugg[c] && (TopAt(s, r.value) == Some(r.value) ==> Successor(s, r.value).Some?)
  {
    match ScanFrom(th, s, c, 0)
    case Stop(_) => None
    case Migrate(t) => Some(t)
    case Exhausted => var i := CandidateFrom(s, c, 0); if i == |s.sugg[c]| then None else Some(s.sugg[c][i])
  }

  /** The state in which the core that loses `t` runs the next thread. */
  function Released(s: State, t: Tid): State
    requires Shaped(s)
  {
    if TopAt(s, t) == Some(t) then s.Record(s.On(t), Successor(s, t)) else s
  }

  /** `t` moves to the idle core `c` and is chosen there. */
  function Moved(th: Threads, s: State, t: Tid, c: nat): State
    requires QueuesOk(th, s) && t in th && s.On(t) != c && c < s.Cores()
  {
    ReleasedKeepsQueues(th, s, t);
    Migrated(th, Released(s, t), t, c).Record(c, Some(t))
  }

  /** One round of the migration loop, for the idle core `c`. */
  function Step(th: Threads, s: State, c: nat): State
    requires Good(th, s) && c < s.Cores()
  {
    match Mover(th, s, c)
    case None => s
    case Some(t) => CoreQueues(th, s, c); Moved(th, s, t, c)
  }

  lemma {:induction false} ReleasedKeepsQueues(th: Threads, s: State, t: Tid)
    requires QueuesOk(th, s)
    ensures QueuesOk(th, Released(s, t))
    ensures var r := Released(s, t); r.sched == s.sched && r.sugg == s.sugg && r.active == s.active
  {
    if TopAt(s, t) == Some(t) {
      RecordKeepsQueues(th, s, s.On(t), Successor(s, t));
    }
  }

  /** What a move to an empty core does, core by core. */
  lemma {:induction false} MovedQueues(th: Threads, s: State, t: Tid, c: nat, d: nat)
    requires QueuesOk(th, s) && t in th && c in th[t].affinity && s.On(t) != c && s.sched[c] == []
    requires c < s.Cores() && d < s.Cores()
    ensures var m := Moved(th, s, t, c);
            && QueuesOk(th, m) && m.Cores() == s.Cores() && m.active == s.active[t := c]
            && m.sched[d] == (if d == c then [t] else if d == s.On(t) then Removed(s.sched[d], t) else s.sched[d])
            && (d != c && d != s.On(t) ==> m.sugg[d] == s.sugg[d])
            && m.top[d] == (if d == c then Some(t) else Released(s, t).top[d])
            && m.highest[d] == (if d == c then Some(t) else Released(s, t).highest[d])
            && m.pending <= Released(s, t).pending + {c} && Released(s, t).pending <= m.pending
            && (m.highest[c] != Released(s, t).highest[c] ==> c in m.pending)
  {
    hide CoreOk, ActiveOk, Migrated, Removed, QueueOk, Released;
    ReleasedKeepsQueues(th, s, t);
    var r := Released(s, t);
    assert r.On(t) == s.On(t);
    MigratedOk(th, r, t, c);
    MigratedQueues(th, r, t, c, d);
    RecordKeepsQueues(th, Migrated(th, r, t, c), c, Some(t));
  }

  lemma {:induction false} MovedTop(th: Threads, s: State, t: Tid, c: nat, d: nat)
    requires Good(th, s) && c < s.Cores() && d < s.Cores() && s.sched[c] == []
    requires t in th && c in th[t].affinity && t in s.sugg[c] && s.On(t) != c
    requires TopAt(s, t) == Some(t) ==> Successor(s, t).Some?
    ensures QueuesOk(th, Moved(th, s, t, c)) && Moved(th, s, t, c).Cores() == s.Cores()
    ensures TopOk(th, Moved(th, s, t, c), d)
    ensures Moved(th, s, t, c).top[d] == Moved(th, s, t, c).highest[d]
  {
    hide CoreOk, ActiveOk, Moved, Migrated, Removed, QueueOk, Successor;
    MovedQueues(th, s, t, c, d);
    assert TopOk(th, s, d);
    if d == s.On(t) {
      CoreQueues(th, s, d);
      RemovedOk(th, s.sched[d], t);
      if TopAt(s, t) == Some(t) {
        SuggestedTopIsFront(th, s, c, t);
      }
    }
  }

  /** A round keeps every chosen thread on its core, recorded, and no thread chosen twice. */
  lemma {:induction false} StepGood(th: Threads, s: State, c: nat)
    requires Good(th, s) && c < s.Cores() && s.sched[c] == []
    ensures Good(th, Step(th, s, c)) && Step(th, s, c).Cores() == s.Cores()
  {
    hide CoreOk, ActiveOk, Moved, TopOk, TopAt, Successor, Mover;
    match Mover(th, s, c)
    case None =>
    case Some(t) =>
      CoreQueues(th, s, c);
      MovedTop(th, s, t, c, c);
      forall d | 0 <= d < s.Cores()
        ensures TopOk(th, Moved(th, s, t, c), d) && Moved(th, s, t, c).top[d] == Moved(th, s, t, c).highest[d]
      {
        MovedTop(th, s, t, c, d);
      }
  }

  lemma {:induction false} StepChanges(th: Threads, s0: State, s: State, c: nat)
    requires Good(th, s) && c < s.Cores() && s.sched[c] == [] && ChangesSeen(s0, s)
    ensures Step(th, s, c).Cores() == s.Cores() && ChangesSeen(s0, Step(th, s, c))
  {
    hide CoreOk, ActiveOk, Moved, TopOk, Successor, Mover;
    StepGood(th, s, c);
    match Mover(th, s, c)
    case None =>
    case Some(t) =>
      CoreQueues(th, s, c);
      forall d | 0 <= d < s.Cores() && d !in Moved(th, s, t, c).pending
        ensures Moved(th, s, t, c).highest[d] == s0.highest[d]
      {
        MovedQueues(th, s, t, c, d);
      }
  }

  /** A round leaves every other core that has nothing scheduled as it is, and takes no core its thread away. */
  lemma {:induction false} StepElsewhere(th: Threads, s: State, c: nat, d: nat)
    requires Good(th, s) && c < s.Cores() && d < s.Cores() && c != d && s.sched[c] == []
    ensures Good(th, Step(th, s, c)) && Step(th, s, c).Cores() == s.Cores()
    ensures s.sched[d] == [] ==> Step(th, s, c).sched[d] == [] && Step(th, s, c).top[d] == None
    ensures s.top[d].Some? ==> Step(th, s, c).top[d].Some?
  {
    hide CoreOk, ActiveOk, Moved, Successor, Mover;
    StepGood(th, s, c);
    match Mover(th, s, c)
    case None => assert TopOk(th, s, d);
    case Some(t) =>
      CoreQueues(th, s, c);
      CoreQueues(th, s, d);
      MovedQueues(th, s, t, c, d);
      assert TopOk(th, s, d);
  }

  /** The cores marked idle have nothing scheduled from core `c` on. */
  predicate EmptyFrom(s: State, idle: set<nat>, c: nat) {
    forall d :: c <= d < s.Cores() && d in idle ==> s.sched[d] == []
  }

  lemma {:induction false} StepKeepsEmpty(th: Threads, s: State, idle: set<nat>, c: nat)
    requires Good(th, s) && c < s.Cores() && EmptyFrom(s, idle, c) && c in idle
    ensures Good(th, Step(th, s, c)) && Step(th, s, c).Cores() == s.Cores()
    ensures EmptyFrom(Step(th, s, c), idle, c + 1)
  {
    hide Good, Step;
    assert s.sched[c] == [];
    StepGood(th, s, c);
    forall d | c + 1 <= d < s.Cores() && d in idle
      ensures Step(th, s, c).sched[d] == []
    {
      StepElsewhere(th, s, c, d);
    }
  }

  /** The state after the rounds of the idle cores below `c`, lowest core first. */
  function Rounds(th: Threads, s: State, idle: set<nat>, c: nat): (r: State)
    requires Good(th, s) && c <= s.Cores() && EmptyFrom(s, idle, 0)
    ensures Good(th, r) && r.Cores() == s.Cores() && EmptyFrom(r, idle, c)
  {
    if c == 0 then s
    else
      var r := Rounds(th, s, idle, c - 1);
      if c - 1 in idle then
        StepKeepsEmpty(th, r, idle, c - 1);
        Step(th, r, c - 1)
      else r
  }

  // ---- Work conservation ----------------------------------------------------------------------

  /** `t` runs on its own core and nothing else is scheduled there. */
  predicate Alone(s: State, t: Tid)
    requires Shaped(s)
  {
    TopAt(s, t) == Some(t) && s.sched[s.On(t)] == [t]
  }

  /** Core `c` is idle, and rightly so: no thread that could run on it is waiting. */
  predicate Settled(s: State, c: nat)
    requires Shaped(s) && c < s.Cores()
  {
    && s.sched[c] == [] && s.top[c] == None
    && forall t :: t in s.sugg[c] ==> Alone(s, t)
  }

  /** Suggested thread `i` waits behind a thread of too high a priority, and those before it run on their own cores. */
  predicate StopsAt(th: Threads, s: State, c: nat, i: nat)
    requires Shaped(s) && c < s.Cores()
  {
    && i < |s.sugg[c]| && TooHigh(th, s, s.sugg[c][i])
    && forall j :: 0 <= j < i ==> TopAt(s, s.sugg[c][j]) == Some(s.sugg[c][j])
  }

  /** The walk over the suggested threads ended at one that is waiting behind a thread of too high a priority. */
  predicate StopHit(th: Threads, s: State, c: nat)
    requires Shaped(s) && c < s.Cores()
  {
    exists i: nat :: i < |s.sugg[c]| && StopsAt(th, s, c, i)
  }

  /** The walk stops exactly there. */
  lemma {:induction false} ScanStops(th: Threads, s: State, c: nat, i: nat)
    requires Shaped(s) && c < s.Cores() && i <= |s.sugg[c]|
    requires forall j :: 0 <= j < i ==> TopAt(s, s.sugg[c][j]) == Some(s.sugg[c][j])
    ensures ScanFrom(th, s, c, i).Stop? <==> StopHit(th, s, c)
    decreases |s.sugg[c]| - i
  {
    hide TooHigh, TopAt;
    if i < |s.sugg[c]| {
      var t := s.sugg[c][i];
      if TopAt(s, t) == Some(t) {
        ScanStops(th, s, c, i + 1);
      } else if TooHigh(th, s, t) {
        assert StopsAt(th, s, c, i);
      } else {
        forall k: nat | k < |s.sugg[c]|
          ensures !StopsAt(th, s, c, k)
        {
          assert k < i ==> TopAt(s, s.sugg[c][k]) == Some(s.sugg[c][k]);
          RunningIsNotTooHigh(th, s, s.sugg[c][k]);
        }
      }
    } else {
      forall k: nat | k < |s.sugg[c]|
        ensures !StopsAt(th, s, c, k)
      {
        RunningIsNotTooHigh(th, s, s.sugg[c][k]);
      }
    }
  }

  lemma {:induction false} RunningIsNotTooHigh(th: Threads, s: State, t: Tid)
    requires Shaped(s)
    ensures TopAt(s, t) == Some(t) ==> !TooHigh(th, s, t)
  {
  }

  /** No thread moves to an idle core exactly if the walk stopped, or every suggested thread runs alone on its own core. */
  lemma {:induction false} NoMover(th: Threads, s: State, c: nat)
    requires Good(th, s) && c < s.Cores()
    ensures Mover(th, s, c) == None <==> StopHit(th, s, c) || forall t :: t in s.sugg[c] ==> Alone(s, t)
  {
    hide CoreOk, ActiveOk, Successor, StopHit, TooHigh;
    ScanStops(th, s, c, 0);
    match ScanFrom(th, s, c, 0)
    case Stop(_) =>
    case Migrate(t) => assert !Alone(s, t);
    case Exhausted =>
      forall t | t in s.sugg[c]
        ensures Alone(s, t) <==> Successor(s, t) == None
      {
        SuggestedTopIsFront(th, s, c, t);
      }
  }

  /** The outcomes of a round. */
  lemma {:induction false} StepOutcome(th: Threads, s: State, c: nat)
    requires Good(th, s) && c < s.Cores() && s.sched[c] == []
    ensures Good(th, Step(th, s, c)) && Step(th, s, c).Cores() == s.Cores()
    ensures Step(th, s, c).top[c].Some? || StopHit(th, s, c) || Settled(Step(th, s, c), c)
    ensures Step(th, s, c).top[c] == None <==> StopHit(th, s, c) || forall t :: t in s.sugg[c] ==> Alone(s, t)
  {
    hide CoreOk, ActiveOk, Moved, Mover, StopHit, Alone;
    StepGood(th, s, c);
    CoreQueues(th, s, c);
    NoMover(th, s, c);
    match Mover(th, s, c)
    case Some(t) => MovedQueues(th, s, t, c, c);
    case None => assert TopOk(th, s, c);
  }

  /** Later rounds do not undo it. */
  lemma {:induction false} StepKeepsSettled(th: Threads, s: State, c: nat, d: nat)
    requires Good(th, s) && c < s.Cores() && d < s.Cores() && c != d && s.sched[c] == [] && Settled(s, d)
    ensures Good(th, Step(th, s, c)) && Step(th, s, c).Cores() == s.Cores()
    ensures Settled(Step(th, s, c), d)
  {
    hide CoreOk, ActiveOk, Moved, Successor, Mover;
    StepGood(th, s, c);
    match Mover(th, s, c)
    case None =>
    case Some(t) =>
      CoreQueues(th, s, c);
      CoreQueues(th, s, d);
      MovedQueues(th, s, t, c, d);
      MoverNotAlone(th, s, c, t);
      forall x | x in s.sugg[d]
        ensures Alone(Moved(th, s, t, c), x)
      {
        assert Alone(s, x);
        CoreQueues(th, s, s.On(x));
        MovedQueues(th, s, t, c, s.On(x));
      }
  }

  lemma {:induction false} MoverNotAlone(th: Threads, s: State, c: nat, t: Tid)
    requires Good(th, s) && c < s.Cores() && Mover(th, s, c) == Some(t)
    ensures !Alone(s, t)
  {
    hide CoreOk, ActiveOk, Successor;
    if TopAt(s, t) == Some(t) {
      SuggestedTopIsFront(th, s, c, t);
    }
  }

  /** Work conservation: a core that had nothing scheduled and is still idle after round `k` met the stop in its own
      round, or every thread suggested for it runs on its own core with nothing behind it. */
  lemma {:induction false} WorkConserved(th: Threads, s: State, idle: set<nat>, c: nat, k: nat)
    requires Good(th, s) && EmptyFrom(s, idle, 0) && c in idle && c < k <= s.Cores()
    requires Rounds(th, s, idle, k).top[c] == None
    ensures StopHit(th, Rounds(th, s, idle, c), c) || Settled(Rounds(th, s, idle, k), c)
  {
    hide CoreOk, ActiveOk, TopOk, Step, StopHit, Settled;
    var r := Rounds(th, s, idle, k - 1);
    if k == c + 1 {
      StepOutcome(th, r, c);
    } else if k - 1 in idle {
      StepElsewhere(th, r, k - 1, c);
      WorkConserved(th, s, idle, c, k - 1);
      if Settled(r, c) {
        StepKeepsSettled(th, r, k - 1, c);
      }
    } else {
      WorkConserved(th, s, idle, c, k - 1);
    }
  }

  // ---- The whole update -----------------------------------------------------------------------

  function IdleCores(s: State): (r: set<nat>)
    ensures forall c: nat :: c in r <==> c < s.Cores() && s.sched[c] == []
  {
    set c: nat | c < s.Cores() && s.sched[c] == []
  }

  /** What the update makes of the state. */
  function Updated(th: Threads, procs: Processes, s: State): (r: State)
    requires QueuesOk(th, s) && PinsBound(th, procs, s)
    ensures Good(th, r) && r.Cores() == s.Cores()
  {
    FirstPassGood(th, procs, s);
    FirstPassChooses(th, procs, s, s, 0);
    Rounds(th, FirstPass(th, procs, s, 0), IdleCores(s), s.Cores())
  }

  lemma {:induction false} RoundsChanges(th: Threads, s0: State, s: State, idle: set<nat>, c: nat)
    requires Good(th, s) && c <= s.Cores() && EmptyFrom(s, idle, 0) && ChangesSeen(s0, s)
    ensures ChangesSeen(s0, Rounds(th, s, idle, c))
  {
    hide Good, Step, ChangesSeen;
    if c > 0 {
      RoundsChanges(th, s0, s, idle, c - 1);
      if c - 1 in idle {
        StepChanges(th, s0, Rounds(th, s, idle, c - 1), c - 1);
      }
    }
  }

  /** The core of a thread after the update is its old core or one that had nothing scheduled. */
  predicate MovedToIdle(s0: State, s: State, idle: set<nat>) {
    forall t :: t in s.active ==> s.On(t) == s0.On(t) || (s.On(t) >= 0 && s.On(t) as nat in idle)
  }

  lemma {:induction false} RoundsMoves(th: Threads, s: State, idle: set<nat>, c: nat)
    requires Good(th, s) && c <= s.Cores() && EmptyFrom(s, idle, 0)
    ensures MovedToIdle(s, Rounds(th, s, idle, c), idle)
  {
    if c > 0 {
      RoundsMoves(th, s, idle, c - 1);
      var r := Rounds(th, s, idle, c - 1);
      if c - 1 in idle {
        match Mover(th, r, c - 1)
        case None =>
        case Some(t) =>
          CoreQueues(th, r, c - 1);
          MovedQueues(th, r, t, c - 1, c - 1);
      }
    }
  }

  /** The core runs the first thread of its queue. */
  predicate RunsFront(s: State, c: nat)
    requires Shaped(s) && c < s.Cores()
  {
    s.top[c] == Front(s.sched[c])
  }

  lemma {:induction false} StepKeepsFronts(th: Threads, s: State, c: nat, d: nat)
    requires Good(th, s) && c < s.Cores() && d < s.Cores() && s.sched[c] == []
    requires RunsFront(s, d)
    ensures Good(th, Step(th, s, c)) && Step(th, s, c).Cores() == s.Cores()
    ensures RunsFront(Step(th, s, c), d)
  {
    hide CoreOk, ActiveOk, Moved, Mover, Removed, Next;
    StepGood(th, s, c);
    match Mover(th, s, c)
    case None =>
    case Some(t) =>
      CoreQueues(th, s, c);
      CoreQueues(th, s, d);
      MovedQueues(th, s, t, c, d);
      if d == s.On(t) {
        RemovedOk(th, s.sched[d], t);
        if TopAt(s, t) == Some(t) {
          SuggestedTopIsFront(th, s, c, t);
        }
      }
  }

  lemma {:induction false} RoundsKeepFronts(th: Threads, s: State, idle: set<nat>, c: nat, d: nat)
    requires Good(th, s) && c <= s.Cores() && d < s.Cores() && EmptyFrom(s, idle, 0) && RunsFront(s, d)
    ensures RunsFront(Rounds(th, s, idle, c), d)
  {
    hide CoreOk, ActiveOk, TopOk, Step, RunsFront;
    if c > 0 {
      RoundsKeepFronts(th, s, idle, c - 1, d);
      if c - 1 in idle {
        StepKeepsFronts(th, Rounds(th, s, idle, c - 1), c - 1, d);
      }
    }
  }

  /** A core whose front thread no pinned thread displaces runs the front of its queue after the update, whatever moved
      in between; in particular it is idle exactly if it has nothing scheduled. */
  lemma {:induction false} UnpinnedCoresRunFront(th: Threads, procs: Processes, s: State, c: nat)
    requires QueuesOk(th, s) && PinsBound(th, procs, s) && c < s.Cores()
    requires Choice(th, procs, s, c) == Front(s.sched[c])
    ensures RunsFront(Updated(th, procs, s), c)
  {
    hide CoreOk, ActiveOk, TopOk, Choice, Rounds;
    FirstPassGood(th, procs, s);
    FirstPassChooses(th, procs, s, s, 0);
    RoundsKeepFronts(th, FirstPass(th, procs, s, 0), IdleCores(s), s.Cores(), c);
  }

  /** The cores whose bit is clear kept their thread. */
  lemma {:induction false} UpdateReportsChanges(th: Threads, procs: Processes, s: State)
    requires QueuesOk(th, s) && PinsBound(th, procs, s)
    ensures ChangesSeen(s, Updated(th, procs, s))
  {
    hide CoreOk, ActiveOk, TopOk, Choice, Rounds;
    FirstPassGood(th, procs, s);
    FirstPassChooses(th, procs, s, s, 0);
    RoundsChanges(th, s, FirstPass(th, procs, s, 0), IdleCores(s), s.Cores());
  }

  /** Work conservation of the whole update. */
  lemma {:induction false} UpdateConservesWork(th: Threads, procs: Processes, s: State, c: nat)
    requires QueuesOk(th, s) && PinsBound(th, procs, s) && c < s.Cores() && s.sched[c] == []
    requires Updated(th, procs, s).top[c] == None
    ensures Good(th, FirstPass(th, procs, s, 0)) && FirstPass(th, procs, s, 0).Cores() == s.Cores()
    ensures EmptyFrom(FirstPass(th, procs, s, 0), IdleCores(s), 0)
    ensures || Settled(Updated(th, procs, s), c)
            || StopHit(th, Rounds(th, FirstPass(th, procs, s, 0), IdleCores(s), c), c)
  {
    hide CoreOk, ActiveOk, TopOk, Choice, Rounds, Settled, StopHit;
    FirstPassGood(th, procs, s);
    FirstPassChooses(th, procs, s, s, 0);
    WorkConserved(th, FirstPass(th, procs, s, 0), IdleCores(s), c, s.Cores());
  }

  // ---- What every core runs in the end ----------------------------------------------------------

  /** A round elsewhere gives no thread to a core that chose none, and does not displace a thread bound to its core. */
  lemma {:induction false} StepKeepsChoice(th: Threads, s: State, c: nat, d: nat)
    requires Good(th, s) && c < s.Cores() && d < s.Cores() && c != d && s.sched[c] == []
    ensures Good(th, Step(th, s, c)) && Step(th, s, c).Cores() == s.Cores()
    ensures s.top[d] == None ==> Step(th, s, c).top[d] == None
    ensures s.top[d].Some? ==> Step(th, s, c).top[d].Some?
    ensures s.top[d].Some? && s.top[d].value in th && th[s.top[d].value].affinity == {d} ==> Step(th, s, c).top[d] == s.top[d]
  {
    hide CoreOk, ActiveOk, Moved, Successor, Mover;
    StepGood(th, s, c);
    StepElsewhere(th, s, c, d);
    match Mover(th, s, c)
    case None =>
    case Some(t) =>
      CoreQueues(th, s, c);
      MovedQueues(th, s, t, c, d);
      assert c in th[t].affinity;
  }

  lemma {:induction false} RoundsKeepChoice(th: Threads, s: State, idle: set<nat>, k: nat, d: nat)
    requires Good(th, s) && k <= s.Cores() && d < s.Cores() && EmptyFrom(s, idle, 0) && d !in idle
    ensures Rounds(th, s, idle, k).top[d] == None <==> s.top[d] == None
    ensures s.top[d].Some? && s.top[d].value in th && th[s.top[d].value].affinity == {d}
            ==> Rounds(th, s, idle, k).top[d] == s.top[d]
  {
    hide CoreOk, ActiveOk, TopOk, Step;
    if k > 0 {
      RoundsKeepChoice(th, s, idle, k - 1, d);
      if k - 1 in idle {
        StepKeepsChoice(th, Rounds(th, s, idle, k - 1), k - 1, d);
      }
    }
  }

  /** A core that had threads scheduled: it is idle in the end exactly if the pin rule chose no thread for it before the
      update, it keeps a pinned thread that displaced its front, and otherwise it runs the front of its queue. */
  lemma {:induction false} BusyCores(th: Threads, procs: Processes, s: State, c: nat)
    requires QueuesOk(th, s) && PinsBound(th, procs, s) && c < s.Cores() && s.sched[c] != []
    ensures var chosen, r := Choice(th, procs, s, c), Updated(th, procs, s);
            && (r.top[c] == None <==> chosen == None)
            && (chosen == Front(s.sched[c]) ==> r.top[c] == Front(r.sched[c]))
            && (chosen.Some? && chosen != Front(s.sched[c]) ==> r.top[c] == chosen)
  {
    hide CoreOk, ActiveOk, TopOk, Choice, Rounds;
    FirstPassGood(th, procs, s);
    FirstPassChooses(th, procs, s, s, 0);
    ChoiceWaits(th, procs, s, c);
    RoundsKeepChoice(th, FirstPass(th, procs, s, 0), IdleCores(s), s.Cores(), c);
    if Choice(th, procs, s, c) == Front(s.sched[c]) {
      UnpinnedCoresRunFront(th, procs, s, c);
    }
  }

  lemma {:induction false} RoundsAfterOwn(th: Threads, s: State, idle: set<nat>, c: nat, k: nat)
    requires Good(th, s) && EmptyFrom(s, idle, 0) && c in idle && c < k <= s.Cores()
    ensures Rounds(th, s, idle, k).top[c] == None <==> Rounds(th, s, idle, c + 1).top[c] == None
  {
    hide CoreOk, ActiveOk, TopOk, Step;
    if k > c + 1 {
      RoundsAfterOwn(th, s, idle, c, k - 1);
      if k - 1 in idle {
        StepKeepsChoice(th, Rounds(th, s, idle, k - 1), k - 1, c);
      }
    }
  }

  /** Why a core is idle after the update, exactly.  A core with threads scheduled: the pin rule chose none for it.  A core
      with none: in the state of its own round the walk stopped, or every thread suggested for it ran alone elsewhere. */
  lemma {:induction false} IdleExactly(th: Threads, procs: Processes, s: State, c: nat)
    requires QueuesOk(th, s) && PinsBound(th, procs, s) && c < s.Cores()
    ensures Good(th, FirstPass(th, procs, s, 0)) && FirstPass(th, procs, s, 0).Cores() == s.Cores()
    ensures EmptyFrom(FirstPass(th, procs, s, 0), IdleCores(s), 0)
    ensures var own := Rounds(th, FirstPass(th, procs, s, 0), IdleCores(s), c);
            Updated(th, procs, s).top[c] == None
            <==> if s.sched[c] != [] then Choice(th, procs, s, c) == None
                 else StopHit(th, own, c) || forall t :: t in own.sugg[c] ==> Alone(own, t)
  {
    hide CoreOk, ActiveOk, TopOk, Choice, Step, StopHit, Alone;
    FirstPassGood(th, procs, s);
    FirstPassChooses(th, procs, s, s, 0);
    if s.sched[c] != [] {
      BusyCores(th, procs, s, c);
    } else {
      var f, idle := FirstPass(th, procs, s, 0), IdleCores(s);
      RoundsAfterOwn(th, f, idle, c, s.Cores());
      StepOutcome(th, Rounds(th, f, idle, c), c);
    }
  }

  /** Core 0 holds thread 1, whose process pinned the sleeping thread 9 there, and thread 2, which nothing blocks. */
  const BLOCKED_THREADS: Threads := map[1 := Thread(10, {0, 1}, 7, 0), 2 := Thread(20, {0}, 8, 0)]
  const BLOCKED_PROCESSES: Processes := map[7 := Process(map[0 := 9], None)]
  const BLOCKED: State := State([[1, 2], []], [[], [1]], map[1 := 0, 2 := 0], [None, None], [None, None], {})

  lemma {:induction false} BlockedOk()
    ensures QueuesOk(BLOCKED_THREADS, BLOCKED) && PinsBound(BLOCKED_THREADS, BLOCKED_PROCESSES, BLOCKED)
  {
    hide CoreOk;
    BlockedCores();
  }

  lemma {:induction false} BlockedCores()
    ensures Shaped(BLOCKED) && CoreOk(BLOCKED_THREADS, BLOCKED, 0) && CoreOk(BLOCKED_THREADS, BLOCKED, 1)
  {
    var th, s := BLOCKED_THREADS, BLOCKED;
    assert s.sched[0] == [1, 2] && s.sched[1] == [] && s.sugg[0] == [] && s.sugg[1] == [1];
    assert s.On(1) == 0 && s.On(2) == 0;
    assert th.Keys == {1, 2};
  }

  lemma {:induction false} BlockedFirstPass()
    ensures Shaped(BLOCKED)
    ensures FirstPass(BLOCKED_THREADS, BLOCKED_PROCESSES, BLOCKED, 0) == BLOCKED
  {
    var th, procs, s := BLOCKED_THREADS, BLOCKED_PROCESSES, BLOCKED;
    assert Choice(th, procs, s, 0) == None && Choice(th, procs, s, 1) == None;
    assert s.Record(0, None) == s && s.Record(1, None) == s;
    assert FirstPass(th, procs, s, 2) == s;
    assert FirstPass(th, procs, s, 1) == s;
  }

  /** The update migrates thread 1 away from its blocked core but does not choose again there: core 0 is left without a
      thread although thread 2 is first in its queue and free to run. */
  lemma {:induction false} BlockedCoreIsNotRevisited()
    ensures QueuesOk(BLOCKED_THREADS, BLOCKED) && PinsBound(BLOCKED_THREADS, BLOCKED_PROCESSES, BLOCKED)
    ensures var r := Updated(BLOCKED_THREADS, BLOCKED_PROCESSES, BLOCKED);
            r.top == [None, Some(1)] && r.sched == [[2], [1]] && Choice(BLOCKED_THREADS, BLOCKED_PROCESSES, r, 0) == Some(2)
  {
    hide CoreOk, ActiveOk, TopOk, PinsBound, Moved;
    var th, procs, s := BLOCKED_THREADS, BLOCKED_PROCESSES, BLOCKED;
    BlockedOk();
    FirstPassGood(th, procs, s);
    BlockedFirstPass();
    var idle := IdleCores(s);
    assert 1 in idle && 0 !in idle;
    assert Rounds(th, s, idle, 0) == s;
    assert Rounds(th, s, idle, 1) == s;
    assert ScanFrom(th, s, 1, 0) == Migrate(1);
    assert Rounds(th, s, idle, 2) == Step(th, s, 1);
    MovedQueues(th, s, 1, 1, 0);
    MovedQueues(th, s, 1, 1, 1);
  }
}
