/** `KPriorityQueueImpl` for one core: a list for each priority and a bit set of the priorities in use.  It refines the
    single ordered queue that the scheduler reasons about. */
module PriorityQueues {
  import opened Basics
  import opened ReadyQueues

  const LOWEST_PRIORITY: nat := 63

  /** The lists one after the other. */
  function Flat(qs: seq<seq<Tid>>): seq<Tid> {
    if qs == [] then [] else qs[0] + Flat(qs[1..])
  }

  /** List `i` holds threads of priority `base + i`. */
  ghost predicate Levels(th: Threads, qs: seq<seq<Tid>>, base: nat) {
    forall i, t :: 0 <= i < |qs| && t in qs[i] ==> t in th && th[t].priority == base + i
  }

  lemma {:induction false} LevelsTail(th: Threads, qs: seq<seq<Tid>>, base: nat)
    requires qs != [] && Levels(th, qs, base)
    ensures Levels(th, qs[1..], base + 1)
    ensures forall t :: t in qs[0] ==> t in th && th[t].priority == base
  {
    forall i, t | 0 <= i < |qs[1..]| && t in qs[1..][i]
      ensures t in th && th[t].priority == base + 1 + i
    {
      assert t in qs[i + 1];
    }
  }

  lemma {:induction false} FlatKnown(th: Threads, qs: seq<seq<Tid>>, base: nat)
    requires Levels(th, qs, base)
    ensures Known(th, Flat(qs)) && forall t :: t in Flat(qs) ==> th[t].priority >= base
  {
    if qs != [] {
      LevelsTail(th, qs, base);
      FlatKnown(th, qs[1..], base + 1);
    }
  }

  /** A thread is pushed behind everything that is not below it. */
  lemma {:induction false} PushedPast(th: Threads, a: seq<Tid>, b: seq<Tid>, t: Tid)
    requires t in th && Known(th, a + b) && Known(th, b) && forall x :: x in a ==> x in th && th[x].priority <= th[t].priority
    ensures Pushed(th, a + b, t) == a + Pushed(th, b, t)
  {
    if a == [] {
      assert a + b == b;
    } else {
      assert (a + b)[1..] == a[1..] + b;
      assert a[0] in a;
      PushedPast(th, a[1..], b, t);
    }
  }

  lemma {:induction false} PushedFlat(th: Threads, qs: seq<seq<Tid>>, base: nat, t: Tid, i: nat)
    requires Levels(th, qs, base) && t in th && i < |qs| && th[t].priority == base + i
    ensures Known(th, Flat(qs)) && Flat(qs[i := qs[i] + [t]]) == Pushed(th, Flat(qs), t)
  {
    FlatKnown(th, qs, base);
    LevelsTail(th, qs, base);
    FlatKnown(th, qs[1..], base + 1);
    var rest := Flat(qs[1..]);
    PushedPast(th, qs[0], rest, t);
    if i == 0 {
      assert Pushed(th, rest, t) == [t] + rest;
      assert qs[0 := qs[0] + [t]][1..] == qs[1..];
      assert qs[0] + ([t] + rest) == (qs[0] + [t]) + rest;
    } else {
      PushedFlat(th, qs[1..], base + 1, t, i - 1);
      assert qs[i := qs[i] + [t]][1..] == qs[1..][i - 1 := qs[1..][i - 1] + [t]];
    }
  }

  lemma {:induction false} RemovedSplit(a: seq<Tid>, b: seq<Tid>, t: Tid)
    ensures Removed(a + b, t) == if t in a then Removed(a, t) + b else a + Removed(b, t)
  {
    if a == [] {
      assert a + b == b;
    } else {
      assert (a + b)[1..] == a[1..] + b;
      RemovedSplit(a[1..], b, t);
    }
  }

  lemma {:induction false} RemovedFlat(th: Threads, qs: seq<seq<Tid>>, base: nat, t: Tid, i: nat)
    requires Levels(th, qs, base) && i < |qs| && t in qs[i]
    ensures Flat(qs[i := Removed(qs[i], t)]) == Removed(Flat(qs), t)
  {
    LevelsTail(th, qs, base);
    RemovedSplit(qs[0], Flat(qs[1..]), t);
    if i == 0 {
      assert qs[0 := Removed(qs[0], t)][1..] == qs[1..];
    } else {
      assert t !in qs[0];
      RemovedFlat(th, qs[1..], base + 1, t, i - 1);
      assert qs[i := Removed(qs[i], t)][1..] == qs[1..][i - 1 := Removed(qs[1..][i - 1], t)];
    }
  }

  /** The first list in use has the front. */
  lemma {:induction false} FrontFlat(qs: seq<seq<Tid>>, i: nat)
    requires i <= |qs| && (forall k :: 0 <= k < i ==> qs[k] == []) && (i < |qs| ==> qs[i] != [])
    ensures Front(Flat(qs)) == if i < |qs| then Front(qs[i]) else None
  {
    if i > 0 {
      assert qs[0] == [];
      FrontFlat(qs[1..], i - 1);
      assert Flat(qs) == Flat(qs[1..]);
    }
  }

  lemma {:induction false} NextSplit(a: seq<Tid>, b: seq<Tid>, t: Tid)
    ensures t !in a ==> Next(a + b, t) == Next(b, t)
    ensures t in a ==> Next(a + b, t) == if Next(a, t).Some? then Next(a, t) else Front(b)
    decreases |a|
  {
    if a == [] {
      assert a + b == b;
    } else {
      assert (a + b)[1..] == a[1..] + b;
      if a[0] == t {
        assert a[1..] == [] ==> (a + b)[1..] == b;
      } else {
        NextSplit(a[1..], b, t);
      }
    }
  }

  /** After the last thread of its list comes the front of the next list in use. */
  lemma {:induction false} NextFlat(th: Threads, qs: seq<seq<Tid>>, base: nat, t: Tid, i: nat)
    requires Levels(th, qs, base) && i < |qs| && t in qs[i]
    ensures Next(Flat(qs), t) == if Next(qs[i], t).Some? then Next(qs[i], t) else Front(Flat(qs[i + 1..]))
  {
    LevelsTail(th, qs, base);
    NextSplit(qs[0], Flat(qs[1..]), t);
    if i > 0 {
      assert t !in qs[0];
      NextFlat(th, qs[1..], base + 1, t, i - 1);
      assert qs[1..][i..] == qs[i + 1..];
    }
  }

  class PriorityQueue {
    var queues: seq<seq<Tid>>
    var available: set<nat>

    ghost predicate Valid(th: Threads)
      reads this
    {
      && |queues| == LOWEST_PRIORITY + 1 && Levels(th, queues, 0)
      && forall p: nat :: p in available <==> p < |queues| && queues[p] != []
    }

    constructor ()
      ensures queues == seq(LOWEST_PRIORITY + 1, _ => []) && available == {}
    {
      queues := seq(LOWEST_PRIORITY + 1, _ => []);
      available := {};
    }

    /** `PushBack`; a thread below the lowest priority is not queued. */
    method PushBack(th: Threads, t: Tid)
      requires Valid(th) && t in th
      modifies this
      ensures Valid(th)
      ensures Known(th, old(Flat(queues)))
      ensures Flat(queues) == if th[t].priority <= LOWEST_PRIORITY then Pushed(th, old(Flat(queues)), t) else old(Flat(queues))
    {
      hide Flat, Pushed;
      FlatKnown(th, queues, 0);
      var p := th[t].priority;
      if p <= LOWEST_PRIORITY {
        PushedFlat(th, queues, 0, t, p);
        var wasEmpty := queues[p] == [];
        queues := queues[p := queues[p] + [t]];
        if wasEmpty {
          available := available + {p};
        }
      }
    }

    method Remove(th: Threads, t: Tid)
      requires Valid(th) && t in th && t in Flat(queues)
      modifies this
      ensures Valid(th) && Flat(queues) == Removed(old(Flat(queues)), t)
    {
      InList(th, queues, 0, t);
      var p := th[t].priority;
      RemovedFlat(th, queues, 0, t, p);
      RemovedSubset(queues[p], t);
      queues := queues[p := Removed(queues[p], t)];
      if queues[p] == [] {
        available := available - {p};
      }
    }

    /** The lowest priority number from `from` on that is in use, or one past the last. */
    method NextSet(ghost th: Threads, from: nat) returns (p: nat)
      requires Valid(th) && from <= |queues|
      ensures from <= p <= |queues| && (forall k :: from <= k < p ==> queues[k] == []) && (p < |queues| ==> queues[p] != [])
    {
      p := from;
      while p < |queues| && p !in available
        invariant from <= p <= |queues| && forall k :: from <= k < p ==> queues[k] == []
      {
        p := p + 1;
      }
    }

    method GetFront(ghost th: Threads) returns (r: Option<Tid>)
      requires Valid(th)
      ensures r == Front(Flat(queues))
    {
      hide Flat;
      var p := NextSet(th, 0);
      FrontFlat(queues, p);
      r := if p <= LOWEST_PRIORITY then Front(queues[p]) else None;
    }

    method GetNext(th: Threads, t: Tid) returns (r: Option<Tid>)
      requires Valid(th) && t in th && t in Flat(queues)
      ensures r == Next(Flat(queues), t)
    {
      InList(th, queues, 0, t);
      hide Flat, Next;
      var p := th[t].priority;
      NextFlat(th, queues, 0, t, p);
      r := Next(queues[p], t);
      if r == None {
        var q := NextSet(th, p + 1);
        FrontFlat(queues[p + 1..], q - (p + 1));
        r := if q <= LOWEST_PRIORITY then Front(queues[q]) else None;
      }
    }
  }

  /** A queued thread is in the list of its priority. */
  lemma {:induction false} InList(th: Threads, qs: seq<seq<Tid>>, base: nat, t: Tid)
    requires Levels(th, qs, base) && t in Flat(qs)
    ensures t in th && base <= th[t].priority < base + |qs| && t in qs[th[t].priority - base]
  {
    LevelsTail(th, qs, base);
    if t !in qs[0] {
      InList(th, qs[1..], base + 1, t);
    }
  }

  lemma {:induction false} RemovedSubset(q: seq<Tid>, t: Tid)
    ensures forall x :: x in Removed(q, t) ==> x in q
  {
    if q != [] {
      RemovedSubset(q[1..], t);
    }
  }
}
