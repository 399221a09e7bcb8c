/** `KScheduler::UpdateHighestPriorityThreadsImpl` over the shared priority queue, in place. */
module Schedulers {
  import opened Basics
  import opened ReadyQueues
  import opened SchedulerUpdates

  function Below(n: nat): (r: set<nat>)
    ensures |r| == n && forall c: nat :: c in r <==> c < n
  {
    if n == 0 then {} else Below(n - 1) + {n - 1}
  }

  class Scheduling {
    var sched: seq<seq<Tid>>
    var sugg: seq<seq<Tid>>
    var active: map<Tid, int>
    var highest: seq<Option<Tid>>

    /** The state, with the threads chosen so far and the bits gathered so far. */
    function View(top: seq<Option<Tid>>, pending: set<nat>): State
      reads this
    {
      State(sched, sugg, active, top, highest, pending)
    }

    /** Records the thread of core `c` and says whether that changed anything. */
    method UpdateHighestPriorityThread(c: nat, t: Option<Tid>) returns (bit: set<nat>)
      requires c < |highest|
      modifies this`highest
      ensures highest == old(highest)[c := t]
      ensures bit == if old(highest)[c] != t then {c} else {}
    {
      if highest[c] != t {
        highest := highest[c := t];
        return {c};
      }
      return {};
    }

    /** `SetActiveCore(c)` followed by `ChangeCore`. */
    method Migrate(th: Threads, t: Tid, c: nat, ghost top: seq<Option<Tid>>, ghost pending: set<nat>)
      requires QueuesOk(th, View(top, pending)) && t in th && c < |sched| && View(top, pending).On(t) != c
      modifies this`sched, this`sugg, this`active
      ensures View(top, pending) == Migrated(th, old(View(top, pending)), t, c)
    {
      hide QueueOk;
      assert ActiveOk(th, View(top, pending), t);
      CoreQueues(th, View(top, pending), c);
      var prev := if t in active then active[t] else -1;
      active := active[t := c];
      if prev >= 0 {
        CoreQueues(th, old(View(top, pending)), prev);
        sched := sched[prev := Removed(sched[prev], t)];
      }
      sugg := sugg[c := Removed(sugg[c], t)];
      sched := sched[c := Pushed(th, sched[c], t)];
      if prev >= 0 {
        sugg := sugg[prev := Pushed(th, sugg[prev], t)];
      }
    }

    /** The thread of core `c`: the front of its queue, or the thread that its process pinned there. */
    method ChooseThread(th: Threads, procs: Processes, c: nat) returns (top: Option<Tid>)
      requires c < |sched| && Known(th, sched[c])
      ensures top == Choice(th, procs, View(highest, {}), c)
    {
      top := Front(sched[c]);
      if top.Some? {
        var t := top.value;
        assert t in sched[c];
        var process := th[t].process;
        if process in procs && c in procs[process].pinned {
          var pinned := procs[process].pinned[c];
          if pinned != t && th[t].kernelWaiters == 0 && procs[process].exceptionThread != top {
            top := if pinned in th then Some(pinned) else None;
          }
        }
      }
    }

    /** Goes over all cores, choosing a thread for each. */
    method ChooseThreads(th: Threads, procs: Processes, ghost garbage: seq<Option<Tid>>)
      returns (top: seq<Option<Tid>>, pending: set<nat>, idle: set<nat>)
      requires QueuesOk(th, View(garbage, {}))
      modifies this`highest
      ensures View(top, pending) == FirstPass(th, procs, old(View(garbage, {})), 0)
      ensures idle == IdleCores(old(View(garbage, {})))
    {
      hide QueuesOk, Choice, FirstPass, EmptyBelow, IdleCores;
      EmptyStart(sched);
      assert Shaped(View(garbage, {})) by {
        ShapedOf(th, View(garbage, {}));
      }
      top := seq(|sched|, _ => None);
      ghost var start := View(garbage, {});
      ghost var at := start;
      pending, idle := {}, {};
      for c := 0 to |sched|
        invariant |top| == |sched| == |garbage| && at.top == top[..c] + garbage[c..]
        invariant at == State(sched, sugg, active, at.top, highest, pending) && Shaped(at)
        invariant FirstPass(th, procs, start, 0) == FirstPass(th, procs, at, c)
        invariant EmptyBelow(sched, idle, c)
      {
        CoreQueues(th, start, c);
        var chosen := ChooseThread(th, procs, c);
        EmptyStep(sched, idle, c);
        if sched[c] == [] {
          idle := idle + {c};
        }
        ChoiceReads(th, procs, View(highest, {}), at, c);
        FirstPassStep(th, procs, at, c);
        TopStep(top, garbage, c, chosen);
        at := at.Record(c, chosen);
        top := top[c := chosen];
        var bit := UpdateHighestPriorityThread(c, chosen);
        pending := pending + bit;
      }
      assert top[..|sched|] + garbage[|sched|..] == top;
      FirstPassEnd(th, procs, at);
      EmptyEnd(at, idle);
    }

    /** Looks at one suggested thread: it is migrated, stops the walk, or runs on its own core, which is returned. */
    method Consider(th: Threads, t: Tid, top: seq<Option<Tid>>, ghost pending: set<nat>) returns (scan: Scan, core: int)
      requires Good(th, View(top, pending)) && t in th
      ensures var s := View(top, pending);
              && scan == (if TopAt(s, t) == Some(t) then Exhausted else if TooHigh(th, s, t) then Stop(t) else Scan.Migrate(t))
              && core == s.On(t) && (scan.Exhausted? ==> 0 <= core < |sched| && top[core] == Some(t))
    {
      hide CoreOk, ActiveOk, TopOk;
      ghost var s := View(top, pending);
      core := if t in active then active[t] else -1;
      ActiveBound(th, s, t);
      var topThread := if core >= 0 then top[core] else None;
      if topThread != Some(t) {
        if topThread.Some? {
          TopKnown(th, s, core);
          if th[topThread.value].priority < HIGHEST_MIGRATION_PRIORITY {
            return Stop(t), core;
          }
        }
        return Scan.Migrate(t), core;
      }
      return Exhausted, core;
    }

    /** Walks the threads suggested for the idle core `c`; gathers the cores of those that run where they are. */
    method ScanSuggested(th: Threads, c: nat, top: seq<Option<Tid>>, candidates: array<nat>, ghost pending: set<nat>)
      returns (scan: Scan, num: nat)
      requires Good(th, View(top, pending)) && c < |sched| && sched[c] == [] && candidates.Length == |sched|
      modifies candidates
      ensures scan == ScanFrom(th, View(top, pending), c, 0)
      ensures scan.Exhausted? ==> num == |sugg[c]| <= candidates.Length
      ensures scan.Exhausted? ==> forall j :: 0 <= j < num ==> candidates[j] == View(top, pending).On(sugg[c][j])
    {
      hide Good, ScanFrom, Seen, TooHigh, TopAt, Next, NoDuplicates;
      ghost var s := View(top, pending);
      IdleFacts(th, s, c);
      NoneSeen(s, c);
      var suggested := Front(sugg[c]);
      ghost var seen: set<nat> := {};
      num := 0;
      while suggested.Some?
        invariant num <= |sugg[c]| && suggested == if num < |sugg[c]| then Some(sugg[c][num]) else None
        invariant ScanFrom(th, s, c, 0) == ScanFrom(th, s, c, num)
        invariant num <= candidates.Length && Seen(s, c, num, seen)
        invariant forall j :: 0 <= j < num ==> candidates[j] == s.On(sugg[c][j])
        decreases |sugg[c]| - num
      {
        var t := suggested.value;
        ScanStep(th, s, c, num);
        var core;
        scan, core := Consider(th, t, top, pending);
        if !scan.Exhausted? {
          return;
        }
        NewCandidate(s, c, num, seen, core);
        candidates[num] := core;
        seen := seen + {core};
        NextAt(sugg[c], num);
        suggested := Next(sugg[c], t);
        num := num + 1;
      }
      ScanEnd(th, s, c);
      return Exhausted, num;
    }

    /** `t` moves to core `c`; if it ran on its own core, `next` runs there now. */
    method Move(th: Threads, t: Tid, c: nat, next: Option<Tid>, top0: seq<Option<Tid>>, pending0: set<nat>)
      returns (top: seq<Option<Tid>>, pending: set<nat>)
      requires QueuesOk(th, View(top0, pending0)) && t in th && c < |sched| && View(top0, pending0).On(t) != c
      requires TopAt(View(top0, pending0), t) == Some(t) ==> next == Successor(View(top0, pending0), t)
      modifies this
      ensures View(top, pending) == Moved(th, old(View(top0, pending0)), t, c)
    {
      hide CoreOk, ActiveOk, Migrated, Next;
      top, pending := top0, pending0;
      ghost var s := View(top, pending);
      ActiveBound(th, s, t);
      ReleasedKeepsQueues(th, s, t);
      var core := if t in active then active[t] else -1;
      if core >= 0 && top[core] == Some(t) {
        top := top[core := next];
        var bit := UpdateHighestPriorityThread(core, next);
        pending := pending + bit;
      }
      assert View(top, pending) == Released(s, t);
      Migrate(th, t, c, top, pending);
      ghost var m := View(top, pending);
      top := top[c := Some(t)];
      var bit := UpdateHighestPriorityThread(c, Some(t));
      pending := pending + bit;
      assert View(top, pending) == m.Record(c, Some(t));
    }

    /** Tries to bring a thread to the idle core `c`. */
    method FillIdleCore(th: Threads, c: nat, top0: seq<Option<Tid>>, pending0: set<nat>)
      returns (top: seq<Option<Tid>>, pending: set<nat>)
      requires Good(th, View(top0, pending0)) && c < |sched| && sched[c] == []
      modifies this
      ensures View(top, pending) == Step(th, old(View(top0, pending0)), c)
    {
      hide CoreOk, ActiveOk, TopOk, Moved, ScanFrom, CandidateFrom, Next;
      top, pending := top0, pending0;
      ghost var s := View(top, pending);
      CoreQueues(th, s, c);
      var candidates := new nat[|sched|];
      var scan, num := ScanSuggested(th, c, top, candidates, pending);
      match scan
      case Stop(_) =>
      case Migrate(t) =>
        top, pending := Move(th, t, c, None, top, pending);
      case Exhausted =>
        var i := 0;
        CandidateStep(s, c, 0);
        while i < num
          invariant i <= num && View(top, pending) == s
          invariant CandidateFrom(s, c, 0) == CandidateFrom(s, c, i)
          invariant forall j :: 0 <= j < num ==> candidates[j] == s.On(sugg[c][j])
        {
          CandidateStep(s, c, i);
          var core := candidates[i];
          assert sugg[c][i] in sugg[c];
          SuggestedTopIsFront(th, s, c, sugg[c][i]);
          var t := top[core].value;
          var next := Next(sched[core], t);
          if next.Some? {
            assert Mover(th, s, c) == Some(t);
            top, pending := Move(th, t, c, next, top, pending);
            return;
          }
          i := i + 1;
        }
        CandidateStep(s, c, num);
    }

    /** `UpdateHighestPriorityThreadsImpl`. */
    method UpdateHighestPriorityThreadsImpl(th: Threads, procs: Processes) returns (pending: set<nat>)
      requires QueuesOk(th, View(highest, {})) && PinsBound(th, procs, View(highest, {}))
      modifies this
      ensures View(highest, pending) == Updated(th, procs, old(View(highest, {})))
      ensures Good(th, View(highest, pending))
      ensures forall c :: 0 <= c < |highest| && c !in pending ==> |old(highest)| == |highest| && highest[c] == old(highest[c])
    {
      hide CoreOk, ActiveOk, TopOk, Step, FirstPass, PinsBound;
      ghost var s := View(highest, {});
      FirstPassGood(th, procs, s);
      FirstPassChooses(th, procs, s, s, 0);
      UpdateReportsChanges(th, procs, s);
      var top, idle;
      top, pending, idle := ChooseThreads(th, procs, highest);
      ghost var f := View(top, pending);
      for c := 0 to |sched|
        invariant c <= f.Cores() == |sched|
        invariant View(top, pending) == Rounds(th, f, idle, c)
      {
        if c in idle {
          top, pending := FillIdleCore(th, c, top, pending);
        }
        assert View(top, pending) == Rounds(th, f, idle, c + 1);
      }
      assert top == highest;
    }
  }

  /** The cores below `c` with nothing scheduled. */
  ghost predicate EmptyBelow(sched: seq<seq<Tid>>, idle: set<nat>, c: nat)
    requires c <= |sched|
  {
    forall d: nat :: d in idle <==> d < c && sched[d] == []
  }

  lemma {:induction false} EmptyStart(sched: seq<seq<Tid>>)
    ensures EmptyBelow(sched, {}, 0)
  {
  }

  lemma {:induction false} EmptyStep(sched: seq<seq<Tid>>, idle: set<nat>, c: nat)
    requires c < |sched| && EmptyBelow(sched, idle, c)
    ensures EmptyBelow(sched, if sched[c] == [] then idle + {c} else idle, c + 1)
  {
  }

  lemma {:induction false} EmptyEnd(s: State, idle: set<nat>)
    requires EmptyBelow(s.sched, idle, s.Cores())
    ensures idle == IdleCores(s)
  {
  }

  lemma {:induction false} TopStep(top: seq<Option<Tid>>, garbage: seq<Option<Tid>>, c: nat, chosen: Option<Tid>)
    requires |top| == |garbage| && c < |top|
    ensures (top[..c] + garbage[c..])[c := chosen] == top[c := chosen][..c + 1] + garbage[c + 1..]
  {
  }

  /** The cores of the first `num` suggested threads, each of which runs where it is. */
  ghost predicate Seen(s: State, c: nat, num: nat, seen: set<nat>)
    requires Shaped(s) && c < s.Cores() && num <= |s.sugg[c]|
  {
    && |seen| == num
    && forall d :: d in seen ==> d < s.Cores() && d != c && s.top[d].Some? && s.top[d].value in s.sugg[c][..num]
  }

  lemma {:induction false} IdleFacts(th: Threads, s: State, c: nat)
    requires Good(th, s) && c < s.Cores() && s.sched[c] == []
    ensures Shaped(s) && s.top[c] == None
    ensures NoDuplicates(s.sugg[c]) && forall i :: 0 <= i < |s.sugg[c]| ==> s.sugg[c][i] in th
  {
    CoreQueues(th, s, c);
    EmptyHasNoTop(th, s, c);
  }

  lemma {:induction false} NoneSeen(s: State, c: nat)
    requires Shaped(s) && c < s.Cores()
    ensures Seen(s, c, 0, {})
  {
  }

  lemma {:induction false} ShapedOf(th: Threads, s: State)
    requires QueuesOk(th, s)
    ensures Shaped(s)
  {
  }

  lemma {:induction false} CandidateStep(s: State, c: nat, i: nat)
    requires Shaped(s) && c < s.Cores() && i <= |s.sugg[c]|
    ensures CandidateFrom(s, c, i)
            == if i == |s.sugg[c]| || Successor(s, s.sugg[c][i]).Some? then i else CandidateFrom(s, c, i + 1)
  {
  }

  lemma {:induction false} ChoiceReads(th: Threads, procs: Processes, s: State, r: State, c: nat)
    requires s.sched == r.sched && c < s.Cores()
    ensures Choice(th, procs, s, c) == Choice(th, procs, r, c)
  {
  }

  lemma {:induction false} FirstPassStep(th: Threads, procs: Processes, s: State, c: nat)
    requires Shaped(s) && c < s.Cores()
    ensures FirstPass(th, procs, s, c) == FirstPass(th, procs, s.Record(c, Choice(th, procs, s, c)), c + 1)
  {
  }

  lemma {:induction false} FirstPassEnd(th: Threads, procs: Processes, s: State)
    requires Shaped(s)
    ensures FirstPass(th, procs, s, s.Cores()) == s
  {
  }

  lemma {:induction false} EmptyHasNoTop(th: Threads, s: State, c: nat)
    requires Good(th, s) && c < s.Cores() && s.sched[c] == []
    ensures s.top[c] == None
  {
    assert TopOk(th, s, c);
  }

  lemma {:induction false} ScanEnd(th: Threads, s: State, c: nat)
    requires Shaped(s) && c < s.Cores()
    ensures ScanFrom(th, s, c, |s.sugg[c]|) == Exhausted
  {
  }

  lemma {:induction false} ScanStep(th: Threads, s: State, c: nat, i: nat)
    requires Shaped(s) && c < s.Cores() && i < |s.sugg[c]|
    ensures var t := s.sugg[c][i];
            ScanFrom(th, s, c, i)
            == if TopAt(s, t) == Some(t) then ScanFrom(th, s, c, i + 1)
               else if TooHigh(th, s, t) then Stop(t) else Scan.Migrate(t)
  {
  }

  lemma {:induction false} ActiveBound(th: Threads, s: State, t: Tid)
    requires QueuesOk(th, s) && t in th
    ensures -1 <= s.On(t) < s.Cores()
  {
    assert ActiveOk(th, s, t);
  }

  lemma {:induction false} TopKnown(th: Threads, s: State, c: nat)
    requires Good(th, s) && c < s.Cores() && s.top[c].Some?
    ensures s.top[c].value in th
  {
    assert TopOk(th, s, c);
  }

  /** A core is noted as a candidate at most once, and never the idle core itself: there is room for it. */
  lemma {:induction false} NewCandidate(s: State, c: nat, num: nat, seen: set<nat>, core: nat)
    requires Shaped(s) && c < s.Cores() && num < |s.sugg[c]| && NoDuplicates(s.sugg[c]) && s.top[c] == None
    requires Seen(s, c, num, seen) && core < s.Cores() && s.top[core] == Some(s.sugg[c][num])
    ensures num + 1 < s.Cores() && Seen(s, c, num + 1, seen + {core})
  {
    assert s.sugg[c][num] !in s.sugg[c][..num];
    SubsetSize(seen + {core} + {c}, Below(s.Cores()));
  }
}
