/**
  The counting semaphore behind the grading and CPU permits: first come, first served,
  with a freed permit handed straight to the next waiter.
*/
module Semaphore {
  import opened Common

  /** `admitted` lists the calls that got a permit, in order; `finished` those that gave it back. */
  datatype State = State(inFlight: int, queue: seq<nat>, admitted: seq<nat>, finished: set<nat>)

  datatype Event = Calls(k: nat) | Finishes(k: nat)

  const START := State(0, [], [], {})

  function Enter(limit: Cap, s: State, k: nat): State {
    if limit.Unlimited? then s.(admitted := s.admitted + [k])
    else if s.inFlight >= limit.n then s.(queue := s.queue + [k])
    else s.(inFlight := s.inFlight + 1, admitted := s.admitted + [k])
  }

  function Leave(limit: Cap, s: State, k: nat): State {
    var f := s.(finished := s.finished + {k});
    if limit.Unlimited? then f
    else if f.queue != [] then f.(queue := f.queue[1..], admitted := f.admitted + [f.queue[0]])
    else f.(inFlight := f.inFlight - 1)
  }

  function Running(s: State): set<nat> {
    set k | k in s.admitted && k !in s.finished
  }

  ghost predicate Distinct(q: seq<nat>) {
    forall i, j :: 0 <= i < j < |q| ==> q[i] != q[j]
  }

  ghost predicate Inv(limit: Cap, s: State) {
    && Distinct(s.admitted + s.queue)
    && (forall k :: k in s.finished ==> k in s.admitted)
    && (limit.Unlimited? ==> s.queue == [])
    && (limit.AtMost? ==> s.inFlight == |Running(s)| <= limit.n && (s.queue != [] ==> s.inFlight == limit.n))
  }

  predicate Enabled(s: State, e: Event) {
    match e
    case Calls(k) => k !in s.admitted && k !in s.queue
    case Finishes(k) => k in Running(s)
  }

  function Step(limit: Cap, s: State, e: Event): State {
    match e
    case Calls(k) => Enter(limit, s, k)
    case Finishes(k) => Leave(limit, s, k)
  }

  ghost function Run(limit: Cap, s: State, es: seq<Event>): Option<State>
    decreases |es|
  {
    if es == [] then Some(s)
    else if Enabled(s, es[0]) then Run(limit, Step(limit, s, es[0]), es[1..])
    else None
  }

  function CallsOf(es: seq<Event>): seq<nat> {
    if es == [] then [] else (if es[0].Calls? then [es[0].k] else []) + CallsOf(es[1..])
  }

  lemma {:induction false} EnterInv(limit: Cap, s: State, k: nat)
    requires Inv(limit, s) && k !in s.admitted && k !in s.queue
    ensures Inv(limit, Enter(limit, s, k))
    ensures var t := Enter(limit, s, k); t.admitted + t.queue == s.admitted + s.queue + [k]
  {
    var t := Enter(limit, s, k);
    var order := s.admitted + s.queue;
    assert k !in order;
    if t.queue == s.queue {
      assert s.queue == [];
      assert t.admitted + t.queue == order + [k];
      assert Running(t) == Running(s) + {k};
    } else {
      assert Running(t) == Running(s);
      assert t.admitted + t.queue == order + [k];
    }
  }

  lemma {:induction false} Handover(s: State, k: nat)
    requires Distinct(s.admitted + s.queue) && k in Running(s)
    requires forall j :: j in s.finished ==> j in s.admitted
    ensures var t := Leave(AtMost(0), s, k);
            && t.admitted + t.queue == s.admitted + s.queue
            && Running(t) == Running(s) - {k} + (if s.queue == [] then {} else {s.queue[0]})
    ensures s.queue != [] ==> s.queue[0] !in s.admitted
  {
    if s.queue != [] {
      assert (s.admitted + s.queue)[|s.admitted|] == s.queue[0];
      forall j | 0 <= j < |s.admitted| ensures s.admitted[j] != s.queue[0] {
        assert (s.admitted + s.queue)[j] == s.admitted[j];
      }
      assert s.queue == [s.queue[0]] + s.queue[1..];
    }
  }

  lemma {:induction false} LeaveInv(limit: Cap, s: State, k: nat)
    requires Inv(limit, s) && k in Running(s)
    ensures Inv(limit, Leave(limit, s, k))
    ensures var t := Leave(limit, s, k); t.admitted + t.queue == s.admitted + s.queue
  {
    var t := Leave(limit, s, k);
    Handover(s, k);
    if limit.AtMost? && s.queue != [] {
      assert s.queue[0] !in s.finished;
      assert |Running(s) - {k} + {s.queue[0]}| == |Running(s)|;
    }
  }

  /**
    Over every run: calls are admitted in the order they were made, never more than the limit
    at once, and nobody waits while a permit is free.
  */
  lemma {:induction false} FirstComeFirstServed(limit: Cap, s: State, es: seq<Event>)
    requires Inv(limit, s) && Run(limit, s, es).Some?
    ensures var t := Run(limit, s, es).value;
            && Inv(limit, t)
            && t.admitted + t.queue == s.admitted + s.queue + CallsOf(es)
            && (limit.AtMost? ==> |Running(t)| <= limit.n && (t.queue != [] ==> |Running(t)| == limit.n))
    decreases |es|
  {
    if es != [] {
      var t := Step(limit, s, es[0]);
      match es[0] {
        case Calls(k) => EnterInv(limit, s, k);
        case Finishes(k) => LeaveInv(limit, s, k);
      }
      FirstComeFirstServed(limit, t, es[1..]);
      OneMore(s.admitted + s.queue, es);
    } else {
      assert s.admitted + s.queue + [] == s.admitted + s.queue;
    }
  }

  lemma {:induction false} OneMore(order: seq<nat>, es: seq<Event>)
    requires es != []
    ensures order + CallsOf(es) == (if es[0].Calls? then order + [es[0].k] else order) + CallsOf(es[1..])
  {
    if es[0].Calls? {
      assert CallsOf(es) == [es[0].k] + CallsOf(es[1..]);
    } else {
      assert CallsOf(es) == [] + CallsOf(es[1..]) == CallsOf(es[1..]);
    }
  }

  /** No permit is lost: with at least one permit, once nothing runs nobody is left waiting. */
  lemma {:induction false} QuietMeansServed(limit: Cap, es: seq<Event>)
    requires Run(limit, START, es).Some? && limit != AtMost(0)
    requires Running(Run(limit, START, es).value) == {}
    ensures Run(limit, START, es).value.admitted == CallsOf(es)
  {
    assert Running(START) == {};
    FirstComeFirstServed(limit, START, es);
    var t := Run(limit, START, es).value;
    assert [] + [] + CallsOf(es) == CallsOf(es);
    assert t.admitted + [] == t.admitted;
  }

  class Permits {
    const limit: Cap
    var inFlight: int
    var queue: seq<nat>
    ghost var admitted: seq<nat>
    ghost var finished: set<nat>

    ghost function View(): State
      reads this
    {
      State(inFlight, queue, admitted, finished)
    }

    constructor (limit: Cap)
      ensures this.limit == limit && View() == START && Inv(limit, View())
    {
      this.limit := limit;
      inFlight, queue := 0, [];
      admitted, finished := [], {};
      new;
      assert Running(View()) == {};
    }

    /** Ask for a permit; the caller runs at once or waits its turn. */
    method Acquire(k: nat) returns (runs: bool)
      requires Inv(limit, View()) && k !in admitted && k !in queue
      modifies this
      ensures Inv(limit, View()) && View() == Enter(limit, old(View()), k)
      ensures runs <==> k in admitted
    {
      EnterInv(limit, View(), k);
      if limit.Unlimited? {
        admitted := admitted + [k];
        return true;
      }
      if inFlight >= limit.n {
        queue := queue + [k];
        return false;
      }
      inFlight := inFlight + 1;
      admitted := admitted + [k];
      return true;
    }

    /** Give a permit back: the oldest waiter takes it over, or the count drops. */
    method Release(k: nat) returns (next: Option<nat>)
      requires Inv(limit, View()) && k in Running(View())
      modifies this
      ensures Inv(limit, View()) && View() == Leave(limit, old(View()), k)
      ensures next == if old(queue) == [] then None else Some(old(queue)[0])
    {
      LeaveInv(limit, View(), k);
      finished := finished + {k};
      if limit.Unlimited? || |queue| == 0 {
        next := None;
        if limit.AtMost? {
          inFlight := inFlight - 1;
        }
      } else {
        next := Some(queue[0]);
        admitted := admitted + [queue[0]];
        queue := queue[1..];
      }
    }
  }
}
