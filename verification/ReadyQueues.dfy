/** The queues of one core: threads ordered by priority number, first come first served among equals. */
module ReadyQueues {
  import opened Basics

  type Tid = nat

  /** What the scheduler reads of a runnable thread.  `process` 0 stands for none. */
  datatype Thread = Thread(priority: nat, affinity: set<nat>, process: nat, kernelWaiters: nat)

  type Threads = map<Tid, Thread>

  predicate Known(th: Threads, q: seq<Tid>) {
    forall t :: t in q ==> t in th
  }

  predicate Sorted(th: Threads, q: seq<Tid>)
    requires Known(th, q)
  {
    forall i, j :: 0 <= i < j < |q| ==> th[q[i]].priority <= th[q[j]].priority
  }

  predicate QueueOk(th: Threads, q: seq<Tid>) {
    NoDuplicates(q) && Known(th, q) && Sorted(th, q)
  }

  function Front(q: seq<Tid>): Option<Tid> {
    if q == [] then None else Some(q[0])
  }

  /** The thread after `t`. */
  function Next(q: seq<Tid>, t: Tid): Option<Tid> {
    if q == [] then None
    else if q[0] == t then Front(q[1..])
    else Next(q[1..], t)
  }

  /** `t` behind every thread of the same or a lower priority number. */
  function Pushed(th: Threads, q: seq<Tid>, t: Tid): seq<Tid>
    requires Known(th, q) && t in th
  {
    if q == [] || th[t].priority < th[q[0]].priority then [t] + q
    else assert Known(th, q[1..]); [q[0]] + Pushed(th, q[1..], t)
  }

  function Removed(q: seq<Tid>, t: Tid): seq<Tid> {
    if q == [] then []
    else if q[0] == t then q[1..]
    else [q[0]] + Removed(q[1..], t)
  }

  lemma {:induction false} TailOk(th: Threads, q: seq<Tid>)
    requires q != [] && QueueOk(th, q)
    ensures QueueOk(th, q[1..]) && q[0] !in q[1..]
    ensures forall t :: t in q <==> t == q[0] || t in q[1..]
    ensures forall t :: t in q[1..] ==> th[q[0]].priority <= th[t].priority
  {
    assert forall i :: 0 <= i < |q[1..]| ==> q[1..][i] == q[i + 1];
    assert q == [q[0]] + q[1..];
  }

  /** A head that is new and not below any of the rest makes a queue. */
  lemma {:induction false} ConsOk(th: Threads, h: Tid, q: seq<Tid>)
    requires QueueOk(th, q) && h in th && h !in q
    requires forall t :: t in q ==> th[h].priority <= th[t].priority
    ensures QueueOk(th, [h] + q)
  {
    var r := [h] + q;
    assert forall i :: 0 < i < |r| ==> r[i] == q[i - 1] && q[i - 1] in q;
    assert forall t :: t in r ==> t == h || t in q;
  }

  lemma {:induction false} PushedOk(th: Threads, q: seq<Tid>, t: Tid)
    requires QueueOk(th, q) && t in th && t !in q
    ensures QueueOk(th, Pushed(th, q, t))
    ensures forall x :: x in Pushed(th, q, t) <==> x == t || x in q
    ensures Front(Pushed(th, q, t)) == Some(t) || Front(Pushed(th, q, t)) == Front(q)
  {
    if q == [] || th[t].priority < th[q[0]].priority {
      if q != [] {
        TailOk(th, q);
      }
      ConsOk(th, t, q);
      assert Pushed(th, q, t) == [t] + q;
    } else {
      TailOk(th, q);
      PushedOk(th, q[1..], t);
      ConsOk(th, q[0], Pushed(th, q[1..], t));
    }
  }

  lemma {:induction false} RemovedOk(th: Threads, q: seq<Tid>, t: Tid)
    requires QueueOk(th, q)
    ensures QueueOk(th, Removed(q, t))
    ensures forall x :: x in Removed(q, t) <==> x != t && x in q
    ensures q != [] && q[0] != t ==> Front(Removed(q, t)) == Front(q)
  {
    if q != [] {
      TailOk(th, q);
      if q[0] != t {
        RemovedOk(th, q[1..], t);
        ConsOk(th, q[0], Removed(q[1..], t));
      }
    }
  }

  /** The thread after the front is the front once the front is gone. */
  lemma {:induction false} NextOfFront(q: seq<Tid>)
    requires q != []
    ensures Next(q, q[0]) == Front(q[1..]) == Front(Removed(q, q[0]))
    ensures Next(q, q[0]) == None <==> |q| == 1
  {
  }

  lemma {:induction false} NextAt(q: seq<Tid>, i: nat)
    requires NoDuplicates(q) && i < |q|
    ensures Next(q, q[i]) == if i + 1 < |q| then Some(q[i + 1]) else None
  {
    if i > 0 {
      assert q[0] != q[i];
      assert forall a, b :: 0 <= a < b < |q[1..]| ==> q[1..][a] == q[a + 1] && q[1..][b] == q[b + 1];
      NextAt(q[1..], i - 1);
    }
  }
}
