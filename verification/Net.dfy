/** The protocol queues of net.c: what arrives for a registered type is handed to its handler once, in order. */
module Net {
  import opened Base
  import opened Queue

  datatype Frame = Frame(dev: nat, data: seq<byte>)

  /** A registered protocol and the frames that wait for its handler, as a value. */
  datatype Protocol = Protocol(ptype: u16, queue: seq<Frame>)

  /** The frames of one type, in order. */
  function Of(log: seq<(u16, Frame)>, t: u16): seq<Frame> {
    if log == [] then []
    else (if log[0].0 == t then [log[0].1] else []) + Of(log[1..], t)
  }

  predicate Registered(ps: seq<Protocol>, t: u16) { exists i :: 0 <= i < |ps| && ps[i].ptype == t }

  predicate DistinctTypes(ps: seq<Protocol>) {
    forall i, j :: 0 <= i < j < |ps| ==> ps[i].ptype != ps[j].ptype
  }

  function Waiting(ps: seq<Protocol>, t: u16): seq<Frame> {
    if ps == [] then [] else if ps[0].ptype == t then ps[0].queue else Waiting(ps[1..], t)
  }

  function Tagged(t: u16, frames: seq<Frame>): seq<(u16, Frame)> {
    if frames == [] then [] else [(t, frames[0])] + Tagged(t, frames[1..])
  }

  /** The calls of the handlers that empty the queues one after the other. */
  function Drain(ps: seq<Protocol>): seq<(u16, Frame)> {
    if ps == [] then [] else Tagged(ps[0].ptype, ps[0].queue) + Drain(ps[1..])
  }

  lemma DrainNone()
    ensures Drain([]) == []
  {
  }

  lemma DrainStep(ps: seq<Protocol>, i: nat)
    requires i < |ps|
    ensures Drain(ps[i..]) == Tagged(ps[i].ptype, ps[i].queue) + Drain(ps[i + 1..])
  {
  }

  lemma {:induction false} OfSplit(a: seq<(u16, Frame)>, b: seq<(u16, Frame)>, t: u16)
    ensures Of(a + b, t) == Of(a, t) + Of(b, t)
  {
    if a == [] {
      assert a + b == b;
    } else {
      assert (a + b)[1..] == a[1..] + b;
      OfSplit(a[1..], b, t);
      var first, mid, last := if a[0].0 == t then [a[0].1] else [], Of(a[1..], t), Of(b, t);
      assert first + (mid + last) == (first + mid) + last;
    }
  }

  lemma {:induction false} OfTagged(ptype: u16, frames: seq<Frame>, t: u16)
    ensures Of(Tagged(ptype, frames), t) == if ptype == t then frames else []
  {
    if frames == [] {
    } else {
      assert Tagged(ptype, frames)[1..] == Tagged(ptype, frames[1..]);
      OfTagged(ptype, frames[1..], t);
    }
  }

  lemma {:induction false} NotRegistered(ps: seq<Protocol>, t: u16)
    requires !Registered(ps, t)
    ensures Waiting(ps, t) == [] && Of(Drain(ps), t) == []
  {
    if ps == [] {
    } else {
      assert ps[0].ptype != t;
      assert !Registered(ps[1..], t) by {
        forall i | 0 <= i < |ps[1..]| ensures ps[1..][i].ptype != t { assert ps[i + 1].ptype != t; }
      }
      NotRegistered(ps[1..], t);
      OfTagged(ps[0].ptype, ps[0].queue, t);
      OfSplit(Tagged(ps[0].ptype, ps[0].queue), Drain(ps[1..]), t);
    }
  }

  /** Draining hands every type exactly what waits for it, in order. */
  lemma {:induction false} DrainIsWaiting(ps: seq<Protocol>, t: u16)
    requires DistinctTypes(ps)
    ensures Of(Drain(ps), t) == Waiting(ps, t)
  {
    if ps == [] {
    } else {
      OfTagged(ps[0].ptype, ps[0].queue, t);
      OfSplit(Tagged(ps[0].ptype, ps[0].queue), Drain(ps[1..]), t);
      if ps[0].ptype == t {
        NotRegistered(ps[1..], t);
      } else {
        DrainIsWaiting(ps[1..], t);
      }
    }
  }

  /** One more frame in the queue of one protocol. */
  lemma {:induction false} WaitingPush(ps: seq<Protocol>, i: nat, frame: Frame, t: u16)
    requires DistinctTypes(ps) && i < |ps|
    ensures Waiting(ps[i := ps[i].(queue := ps[i].queue + [frame])], t) ==
            Waiting(ps, t) + if ps[i].ptype == t then [frame] else []
  {
    var qs := ps[i := ps[i].(queue := ps[i].queue + [frame])];
    if i == 0 {
      assert qs[1..] == ps[1..];
    } else {
      assert qs[1..] == ps[1..][i - 1 := qs[i]];
      if ps[0].ptype != t { WaitingPush(ps[1..], i - 1, frame, t); }
    }
  }

  function Emptied(ps: seq<Protocol>): seq<Protocol> { seq(|ps|, i requires 0 <= i < |ps| => ps[i].(queue := [])) }

  /** The first `n` queues emptied. */
  function Drained(ps: seq<Protocol>, n: nat): seq<Protocol> {
    seq(|ps|, i requires 0 <= i < |ps| => if i < n then ps[i].(queue := []) else ps[i])
  }

  lemma DrainedEnds(ps: seq<Protocol>)
    ensures Drained(ps, 0) == ps && Drained(ps, |ps|) == Emptied(ps)
  {
  }

  lemma DrainedStep(ps: seq<Protocol>, n: nat)
    requires n < |ps|
    ensures |Drained(ps, n)| == |ps| && Drained(ps, n)[n] == ps[n]
    ensures Drained(ps, n)[n := ps[n].(queue := [])] == Drained(ps, n + 1)
  {
  }

  lemma {:induction false} NothingWaits(ps: seq<Protocol>, t: u16)
    ensures Waiting(Emptied(ps), t) == []
  {
    if ps == [] {
    } else {
      assert Emptied(ps)[1..] == Emptied(ps[1..]);
      NothingWaits(ps[1..], t);
    }
  }

  lemma Settled(ps: seq<Protocol>, handled: seq<(u16, Frame)>, arrived: seq<(u16, Frame)>)
    requires DistinctTypes(ps) && forall t: u16 :: Of(arrived, t) == Of(handled, t) + Waiting(ps, t)
    ensures forall t: u16 :: Of(handled + Drain(ps), t) == Of(arrived, t)
    ensures forall t: u16 :: Waiting(Emptied(ps), t) == []
  {
    forall t: u16
      ensures Of(handled + Drain(ps), t) == Of(arrived, t)
      ensures Waiting(Emptied(ps), t) == []
    {
      DrainIsWaiting(ps, t);
      OfSplit(handled, Drain(ps), t);
      NothingWaits(ps, t);
    }
  }

  /** A new type has nothing waiting. */
  lemma NewType(ps: seq<Protocol>, ptype: u16)
    requires DistinctTypes(ps) && !Registered(ps, ptype)
    ensures var qs := [Protocol(ptype, [])] + ps;
            DistinctTypes(qs) && forall t: u16 :: Waiting(qs, t) == Waiting(ps, t)
  {
    var qs := [Protocol(ptype, [])] + ps;
    NotRegistered(ps, ptype);
    assert qs[1..] == ps;
    forall i, j | 0 <= i < j < |qs| ensures qs[i].ptype != qs[j].ptype {
      assert qs[j] == ps[j - 1];
    }
  }

  /** One frame more in one queue keeps conservation. */
  lemma OneMore(ps: seq<Protocol>, i: nat, frame: Frame, arrived: seq<(u16, Frame)>, handled: seq<(u16, Frame)>)
    requires DistinctTypes(ps) && i < |ps|
    requires forall t: u16 :: Of(arrived, t) == Of(handled, t) + Waiting(ps, t)
    ensures var qs := ps[i := ps[i].(queue := ps[i].queue + [frame])];
            && DistinctTypes(qs)
            && (forall t: u16 :: Waiting(qs, t) == Waiting(ps, t) + if t == ps[i].ptype then [frame] else [])
            && (forall t: u16 :: Of(arrived + [(ps[i].ptype, frame)], t) == Of(handled, t) + Waiting(qs, t))
  {
    var qs := ps[i := ps[i].(queue := ps[i].queue + [frame])];
    var log := [(ps[i].ptype, frame)];
    assert log[1..] == [];
    forall t: u16
      ensures Waiting(qs, t) == Waiting(ps, t) + if t == ps[i].ptype then [frame] else []
      ensures Of(arrived + log, t) == Of(handled, t) + Waiting(qs, t)
    {
      WaitingPush(ps, i, frame, t);
      OfSplit(arrived, log, t);
    }
  }

  /** An entry of the list of protocols. Insertion is at the head, so links never change. */
  class Registration {
    const ptype: u16
    const queue: Fifo<Frame>
    const next: Registration?

    constructor (ptype: u16, queue: Fifo<Frame>, next: Registration?)
      ensures this.ptype == ptype && this.queue == queue && this.next == next
    {
      this.ptype := ptype;
      this.queue := queue;
      this.next := next;
    }

    ghost function View(): Protocol
      reads queue
    {
      Protocol(ptype, queue.Contents())
    }

    /** The inner loop of net_softirq_handler: pop and call the handler until the queue is empty. */
    method DrainQueue() returns (calls: seq<(u16, Frame)>)
      requires queue.Valid()
      modifies queue
      ensures queue.Valid() && queue.Repr == old(queue.Repr) && queue.Contents() == []
      ensures calls == Tagged(ptype, old(queue.Contents()))
    {
      hide Fifo.Valid;
      calls := [];
      while true
        invariant queue.Valid() && queue.Repr == old(queue.Repr)
        invariant calls + Tagged(ptype, queue.Contents()) == Tagged(ptype, old(queue.Contents()))
        decreases |queue.Contents()|
      {
        var entry := queue.Pop();
        if entry.None? {
          break;
        }
        calls := calls + [(ptype, entry.value)];
      }
    }
  }

  ghost function Views(es: seq<Registration>): (ps: seq<Protocol>)
    reads set e | e in es :: e.queue
    ensures |ps| == |es| && forall i :: 0 <= i < |ps| ==> ps[i] == es[i].View()
  {
    seq(|es|, i requires 0 <= i < |es| reads set e | e in es :: e.queue => es[i].View())
  }

  /** The entries from `head` on. */
  ghost predicate Chain(head: Registration?, es: seq<Registration>) {
    && (es == [] ==> head == null)
    && (es != [] ==> head == es[0] && es[|es| - 1].next == null)
    && (forall i :: 0 <= i < |es| - 1 ==> es[i].next == es[i + 1])
  }

  lemma ChainNext(head: Registration?, es: seq<Registration>, i: nat)
    requires Chain(head, es) && i <= |es|
    ensures i == 0 ==> if es == [] then head == null else head == es[0]
    ensures i < |es| ==> if i + 1 < |es| then es[i].next == es[i + 1] else es[i].next == null
  {
  }

  lemma ChainCons(first: Registration, head: Registration?, es: seq<Registration>)
    requires Chain(head, es) && first.next == head
    ensures Chain(first, [first] + es)
  {
  }

  /** The queues are proper queues inside `repr` that share nothing. */
  ghost predicate Separate(es: seq<Registration>, repr: set<object>)
    reads repr
  {
    && (forall i :: 0 <= i < |es| ==> es[i].queue in repr && es[i].queue.Repr <= repr && es[i].queue.Valid())
    && (forall i, j :: 0 <= i < j < |es| ==> es[i].queue.Repr !! es[j].queue.Repr)
  }

  lemma SeparateAt(es: seq<Registration>, repr: set<object>, i: nat)
    requires Separate(es, repr) && i < |es|
    ensures es[i].queue in repr && es[i].queue.Repr <= repr && es[i].queue.Valid()
  {
  }

  lemma SeparateCons(first: Registration, es: seq<Registration>, repr: set<object>)
    requires Separate(es, repr) && first.queue.Valid() && first.queue.Repr !! repr
    ensures Separate([first] + es, repr + first.queue.Repr)
    ensures Views([first] + es) == [first.View()] + Views(es)
  {
    hide Fifo.Valid;
    var all := [first] + es;
    forall i | 0 <= i < |all| ensures all[i] == if i == 0 then first else es[i - 1] {
    }
  }

  method NewEntry(ptype: u16, next: Registration?) returns (first: Registration)
    ensures first.ptype == ptype && first.next == next
    ensures first.queue.Valid() && fresh(first.queue.Repr) && first.View() == Protocol(ptype, [])
  {
    var queue := new Fifo<Frame>();
    first := new Registration(ptype, queue, next);
  }

  class Stack {
    var head: Registration?
    var handled: seq<(u16, Frame)>        // the calls of the handlers, in order
    ghost var Entries: seq<Registration>  // the list, from the head
    ghost var Arrived: seq<(u16, Frame)>  // the frames that came in for a registered type, in order

    ghost var Repr: set<object>           // the queues and their entries

    /** The list is linked, and its queues share nothing. */
    ghost predicate Linked()
      reads this`head, this`Entries, this`Repr, Repr
    {
      this !in Repr && Chain(head, Entries) && Separate(Entries, Repr)
    }

    /** The protocols as values. */
    ghost function View(): (ps: seq<Protocol>)
      requires Linked()
      reads this`head, this`Entries, this`Repr, Repr
      ensures |ps| == |Entries|
      ensures forall i :: 0 <= i < |ps| ==> ps[i] == Entries[i].View()
    {
      Views(Entries)
    }

    /** Conservation: per type, what arrived is what was handled and then what waits. */
    ghost predicate Valid()
      reads this, Repr
    {
      && Linked() && DistinctTypes(View())
      && forall t: u16 :: Of(Arrived, t) == Of(handled, t) + Waiting(View(), t)
    }

    constructor ()
      ensures Valid() && fresh(Repr) && View() == [] && handled == [] && Arrived == []
    {
      head, handled, Entries, Arrived, Repr := null, [], [], [], {};
    }

    /** Walks the list to the protocol of a type. */
    method Find(ptype: u16) returns (e: Registration?, ghost at: nat)
      requires Linked()
      ensures e == null ==> !Registered(View(), ptype)
      ensures e != null ==>
                at < |Entries| && e == Entries[at] && View()[at].ptype == ptype && Registered(View(), ptype)
    {
      e, at := head, 0;
      while e != null
        invariant at <= |Entries|
        invariant if at < |Entries| then e == Entries[at] else e == null
        invariant forall j :: 0 <= j < at ==> Entries[j].ptype != ptype
        decreases |Entries| - at
      {
        if e.ptype == ptype {
          assert View()[at].ptype == ptype;
          return;
        }
        e, at := e.next, at + 1;
      }
    }

    /** A new protocol with an empty queue, in front of the others. */
    method AddFirst(ptype: u16)
      requires Linked()
      modifies this`head, this`Entries, this`Repr
      ensures Linked() && fresh(Repr - old(Repr))
      ensures View() == [Protocol(ptype, [])] + old(View())
    {
      hide Fifo.Valid;
      hide Separate, Chain, Fifo.Contents;
      ghost var es, was, repr := Entries, View(), Repr;
      var first := NewEntry(ptype, head);
      assert Separate(es, repr) && Views(es) == was;
      ChainCons(first, head, es);
      SeparateCons(first, es, repr);
      head, Entries, Repr := first, [first] + Entries, Repr + first.queue.Repr;
    }

    /** net_protocol_register: refused exactly when the type has a protocol. */
    method ProtocolRegister(ptype: u16) returns (r: int)
      requires Valid()
      modifies this
      ensures Valid() && fresh(Repr - old(Repr)) && handled == old(handled) && Arrived == old(Arrived)
      ensures r == (if Registered(old(View()), ptype) then -1 else 0)
      ensures View() == if r == 0 then [Protocol(ptype, [])] + old(View()) else old(View())
    {
      var found, _ := Find(ptype);
      if found != null {
        return -1;
      }
      NewType(View(), ptype);
      AddFirst(ptype);
      return 0;
    }

    /** net_input_handler: a frame of a registered type waits last in its queue, any other is dropped. */
    method InputHandler(ptype: u16, frame: Frame, ok: bool) returns (r: int)
      requires Valid()
      modifies this, Repr
      ensures Valid() && fresh(Repr - old(Repr)) && handled == old(handled)
      ensures Registered(old(View()), ptype) && ok ==>
                && r == 0 && Arrived == old(Arrived) + [(ptype, frame)]
                && Waiting(View(), ptype) == Waiting(old(View()), ptype) + [frame]
                && (forall t: u16 :: t != ptype ==> Waiting(View(), t) == Waiting(old(View()), t))
      ensures !(Registered(old(View()), ptype) && ok) ==>
                && View() == old(View()) && Arrived == old(Arrived)
                && r == if Registered(View(), ptype) then -1 else 0
    {
      hide Separate, Chain, Of, Waiting, Fifo.Valid, Fifo.Contents, Registration.View;
      var e, at := Find(ptype);
      if e == null {
        return 0;
      }
      if !ok {
        return -1;
      }
      ghost var before := View();
      SeparateAt(Entries, Repr, at);
      PushTo(e, at, frame);
      Arrived := Arrived + [(ptype, frame)];
      OneMore(before, at, frame, old(Arrived), handled);
      return 0;
    }

    /** queue_push on the queue of one protocol. */
    method PushTo(e: Registration, ghost at: nat, frame: Frame)
      requires Linked() && at < |Entries| && e == Entries[at]
      modifies this`Repr, e.queue.Repr
      ensures Linked() && fresh(Repr - old(Repr))
      ensures View() == old(View())[at := old(View())[at].(queue := old(View())[at].queue + [frame])]
    {
      hide Fifo.Valid, Fifo.Contents, Chain;
      e.queue.Push(frame);
      forall i | 0 <= i < |Entries| && i != at
        ensures Entries[i].queue.Valid() && Entries[i].queue.Repr == old(Entries[i].queue.Repr)
        ensures Entries[i].View() == old(Entries[i].View())
      {
      }
      Repr := Repr + e.queue.Repr;
    }

    method DrainOne(e: Registration, ghost at: nat)
      requires Linked() && at < |Entries| && e == Entries[at]
      modifies this`handled, e.queue
      ensures Linked()
      ensures View() == old(View())[at := old(View())[at].(queue := [])]
      ensures handled == old(handled) + Tagged(old(View())[at].ptype, old(View())[at].queue)
    {
      hide Fifo.Valid, Tagged;
      var calls := e.DrainQueue();
      handled := handled + calls;
    }

    method DrainAll()
      requires Linked()
      modifies this`handled, Repr
      ensures Linked()
      ensures View() == Emptied(old(View()))
      ensures handled == old(handled) + Drain(old(View()))
    {
      hide Drain, Tagged, Fifo.Valid, Drained, Emptied, Separate, Chain, Registration.View, Fifo.Contents;
      var e := head;
      ghost var i := 0;
      ghost var ps := View();
      assert ps[0..] == ps;
      DrainedEnds(ps);
      ChainNext(head, Entries, 0);
      while e != null
        invariant Linked() && 0 <= i <= |Entries| == |ps|
        invariant if i < |Entries| then e == Entries[i] else e == null
        invariant View() == Drained(ps, i)
        invariant handled + Drain(ps[i..]) == old(handled) + Drain(ps)
        decreases |Entries| - i
      {
        ghost var before, now, rest := handled, Tagged(ps[i].ptype, ps[i].queue), Drain(ps[i + 1..]);
        DrainStep(ps, i);
        DrainedStep(ps, i);
        SeparateAt(Entries, Repr, i);
        ChainNext(head, Entries, i);
        DrainOne(e, i);
        assert before + (now + rest) == (before + now) + rest;
        e, i := e.next, i + 1;
      }
      assert ps[i..] == [];
      DrainNone();
    }

    /**
     * net_softirq_handler: every waiting frame is handled, and afterwards every frame that ever arrived for a type has
     * been handled once, in the order of arrival.
     */
    method SoftirqHandler()
      requires Valid()
      modifies this, Repr
      ensures Valid() && Repr == old(Repr) && Arrived == old(Arrived)
      ensures View() == Emptied(old(View()))
      ensures handled == old(handled) + Drain(old(View()))
      ensures forall t: u16 :: Of(handled, t) == Of(Arrived, t)
    {
      DrainAll();
      Settled(old(View()), old(handled), Arrived);
    }
  }
}
