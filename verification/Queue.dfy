/**
 The bounded multi-producer multi-consumer queue of src/eckit/container/Queue.h.

 Every locked section - from taking the mutex, at the start of a call or on waking up, to releasing it
 by returning, throwing or waiting - is one atomic step. Any number of threads interleave in any order
 and may wake up spuriously.
 */
module BoundedQueue {
  import opened Common

  type Elem(==, !new)
  type Fault(==, !new)

  /** What the mutex protects. */
  datatype Shared = Shared(queue: seq<Elem>, max: nat, closed: bool, interrupt: Option<Fault>)

  /** `emplace` is `Push` of the element it constructs. */
  datatype Call =
    | Push(e: Elem)
    | Pop
    | PopMany(room: nat)
    | Resize(size: nat)
    | Close
    | Interrupt(fault: Option<Fault>)
  {
    predicate IsPop() { Pop? || PopMany? }
  }

  datatype Outcome =
    | Pushed(size: nat)
    | Popped(elems: seq<Elem>, result: nat)
    | Ended
    | Done
    | Threw(fault: Fault)
    | Refused
    | Waits
  {
    /** The sections that end in `cv_.notify_all()`. */
    predicate Notifies() { Pushed? || Popped? || Done? }
  }

  /** One locked section: the state it leaves and how it ends. `Ended` is the return of -1, `Refused` a failed
      assertion. */
  function Section(s: Shared, c: Call): (Shared, Outcome) {
    match c
    case Push(e) =>
      if s.interrupt.Some? then (s, Threw(s.interrupt.value))
      else if |s.queue| >= s.max then (s, Waits)
      else if s.closed then (s, Refused)
      else (s.(queue := s.queue + [e]), Pushed(|s.queue| + 1))
    case Pop =>
      if s.interrupt.Some? then (s, Threw(s.interrupt.value))
      else if s.queue == [] then (s, if s.closed then Ended else Waits)
      else (s.(queue := s.queue[1..]), Popped(s.queue[..1], |s.queue| - 1))
    case PopMany(room) =>
      if s.interrupt.Some? then (s, Threw(s.interrupt.value))
      else if s.queue == [] then (s, if s.closed then Ended else Waits)
      else
        var count := Min(room, |s.queue|);
        (s.(queue := s.queue[count..]), Popped(s.queue[..count], count))
    case Resize(size) =>
      if size == 0 then (s, Refused)
      else if s.interrupt.Some? then (s, Threw(s.interrupt.value))
      else if |s.queue| > size then (s, Waits)
      else if s.closed then (s, Refused)
      else (s.(max := size), Done)
    case Close => (s.(closed := true), Done)
    case Interrupt(fault) => (s.(interrupt := fault), Done)
  }

  // ---------------------------------------------------------------- the sections as they are written

  class Queue {
    var queue: seq<Elem>
    var max: nat
    var closed: bool
    var interrupt: Option<Fault>

    ghost function State(): Shared
      reads this
    {
      Shared(queue, max, closed, interrupt)
    }

    constructor (max: nat)
      requires max > 0
      ensures State() == Shared([], max, false, None)
    {
      queue, this.max, closed, interrupt := [], max, false, None;
    }

    method PushSection(e: Elem) returns (r: Outcome)
      modifies this
      ensures (State(), r) == Section(old(State()), Push(e))
    {
      if interrupt.Some? { return Threw(interrupt.value); }
      if |queue| >= max { return Waits; }
      if closed { return Refused; }
      queue := queue + [e];
      return Pushed(|queue|);
    }

    method PopSection() returns (r: Outcome)
      modifies this
      ensures (State(), r) == Section(old(State()), Pop)
    {
      if interrupt.Some? { return Threw(interrupt.value); }
      if queue == [] { return if closed then Ended else Waits; }
      var e := queue[0];
      assert [e] == queue[..1];
      queue := queue[1..];
      return Popped([e], |queue|);
    }

    method PopManySection(room: nat) returns (r: Outcome)
      modifies this
      ensures (State(), r) == Section(old(State()), PopMany(room))
    {
      if interrupt.Some? { return Threw(interrupt.value); }
      if queue == [] { return if closed then Ended else Waits; }
      var count := Min(room, |queue|);
      var elems := [];
      for i := 0 to count
        invariant queue == old(queue)[i..] && elems == old(queue)[..i]
        invariant max == old(max) && closed == old(closed) && interrupt == old(interrupt)
      {
        elems := elems + [queue[0]];
        queue := queue[1..];
      }
      return Popped(elems, count);
    }

    method ResizeSection(size: nat) returns (r: Outcome)
      modifies this
      ensures (State(), r) == Section(old(State()), Resize(size))
    {
      if size == 0 { return Refused; }
      if interrupt.Some? { return Threw(interrupt.value); }
      if |queue| > size { return Waits; }
      if closed { return Refused; }
      max := size;
      return Done;
    }

    method CloseSection() returns (r: Outcome)
      modifies this
      ensures (State(), r) == Section(old(State()), Close)
    {
      closed := true;
      return Done;
    }

    method InterruptSection(fault: Option<Fault>) returns (r: Outcome)
      modifies this
      ensures (State(), r) == Section(old(State()), Interrupt(fault))
    {
      interrupt := fault;
      return Done;
    }

    /** The section of whatever call it is. */
    method RunSection(c: Call) returns (r: Outcome)
      modifies this
      ensures (State(), r) == Section(old(State()), c)
    {
      match c
      case Push(e) => r := PushSection(e);
      case Pop => r := PopSection();
      case PopMany(room) => r := PopManySection(room);
      case Resize(size) => r := ResizeSection(size);
      case Close => r := CloseSection();
      case Interrupt(fault) => r := InterruptSection(fault);
    }
  }

  // ---------------------------------------------------------------- threads

  /** A thread in a call either contends for the mutex or sits in `cv_.wait`. */
  datatype Thread = Ready(call: Call) | Waiting(call: Call)

  datatype System = System(shared: Shared, threads: map<nat, Thread>)

  datatype Event =
    | Begin(t: nat, call: Call)   // the thread starts a call
    | Run(t: nat)                 // the thread gets the mutex and runs its section
    | Spurious(t: nat)            // the thread wakes up unasked

  datatype Entry = Quiet | Ran(t: nat, call: Call, outcome: Outcome)

  function WakeAll(threads: map<nat, Thread>): map<nat, Thread> {
    map t | t in threads :: Ready(threads[t].call)
  }

  /** The system after an event, and what the event shows. An event that cannot happen changes nothing. */
  function Step(s: System, ev: Event): (System, Entry) {
    match ev
    case Begin(t, c) =>
      if t in s.threads then (s, Quiet) else (s.(threads := s.threads[t := Ready(c)]), Quiet)
    case Spurious(t) =>
      if t !in s.threads then (s, Quiet) else (s.(threads := s.threads[t := Ready(s.threads[t].call)]), Quiet)
    case Run(t) =>
      if t !in s.threads || s.threads[t].Waiting? then (s, Quiet) else
        var c := s.threads[t].call;
        var (shared, o) := Section(s.shared, c);
        var threads := if o.Waits? then s.threads[t := Waiting(c)] else s.threads - {t};
        (System(shared, if o.Notifies() then WakeAll(threads) else threads), Ran(t, c, o))
  }

  function Initial(max: nat): System { System(Shared([], max, false, None), map[]) }

  function After(s: System, evs: seq<Event>): System
    decreases |evs|
  {
    if evs == [] then s else After(Step(s, evs[0]).0, evs[1..])
  }

  function Trace(s: System, evs: seq<Event>): (tr: seq<Entry>)
    ensures |tr| == |evs|
    decreases |evs|
  {
    if evs == [] then [] else [Step(s, evs[0]).1] + Trace(Step(s, evs[0]).0, evs[1..])
  }

  // ---------------------------------------------------------------- driving a queue

  /** One event on a queue and the table of the threads that are in a call. */
  method Happen(q: Queue, threads: map<nat, Thread>, ev: Event) returns (after: map<nat, Thread>, entry: Entry)
    modifies q
    ensures (System(q.State(), after), entry) == Step(System(old(q.State()), threads), ev)
  {
    after, entry := threads, Quiet;
    match ev
    case Begin(t, c) =>
      if t !in threads { after := threads[t := Ready(c)]; }
    case Spurious(t) =>
      if t in threads { after := threads[t := Ready(threads[t].call)]; }
    case Run(t) =>
      if t in threads && threads[t].Ready? {
        var c := threads[t].call;
        var o := q.RunSection(c);
        after := if o.Waits? then threads[t := Waiting(c)] else threads - {t};
        if o.Notifies() { after := WakeAll(after); }
        entry := Ran(t, c, o);
      }
  }

  /** Whatever happens to a queue object shows exactly what the transition system shows, and leaves its elements. */
  method Drive(max: nat, evs: seq<Event>) returns (trace: seq<Entry>, left: seq<Elem>)
    requires max > 0
    ensures trace == Trace(Initial(max), evs) && left == After(Initial(max), evs).shared.queue
    ensures forall k :: 0 <= k < |evs| ==> Shows(max, evs[..k], trace[..k], evs[k], trace[k])
    ensures left == QueuedIn(trace)
  {
    hide Shows, QueuedIn;
    var q := new Queue(max);
    var threads: map<nat, Thread> := map[];
    trace := [];
    for i := 0 to |evs|
      invariant fresh(q)
      invariant trace + Trace(System(q.State(), threads), evs[i..]) == Trace(Initial(max), evs)
      invariant After(System(q.State(), threads), evs[i..]) == After(Initial(max), evs)
    {
      hide Step;
      var entry;
      assert evs[i..][0] == evs[i] && evs[i..][1..] == evs[i + 1..];
      threads, entry := Happen(q, threads, evs[i]);
      trace := trace + [entry];
    }
    left := q.queue;
    RunDecides(max, evs);
  }

  lemma RunDecides(max: nat, evs: seq<Event>)
    ensures var tr := Trace(Initial(max), evs);
            && After(Initial(max), evs).shared.queue == QueuedIn(tr)
            && forall k :: 0 <= k < |evs| ==> Shows(max, evs[..k], tr[..k], evs[k], tr[k])
  {
    hide Shows;
    TraceTells(max, evs);
    forall k | 0 <= k < |evs|
      ensures var tr := Trace(Initial(max), evs); Shows(max, evs[..k], tr[..k], evs[k], tr[k])
    {
      TraceDecides(max, evs, k);
    }
  }

  // ---------------------------------------------------------------- no lost wake-ups

  /** Whoever waits would wait again if it looked now; the bound is positive and kept. */
  ghost predicate Inv(s: System) {
    && 0 < s.shared.max && |s.shared.queue| <= s.shared.max
    && forall t :: t in s.threads && s.threads[t].Waiting? ==> Section(s.shared, s.threads[t].call).1.Waits?
  }

  lemma StepKeepsInv(s: System, ev: Event)
    requires Inv(s)
    ensures Inv(Step(s, ev).0)
  {
  }

  lemma {:induction false} RunKeepsInv(s: System, evs: seq<Event>)
    requires Inv(s)
    ensures Inv(After(s, evs))
    decreases |evs|
  {
    if evs != [] {
      StepKeepsInv(s, evs[0]);
      RunKeepsInv(Step(s, evs[0]).0, evs[1..]);
    }
  }

  /** In every reachable state: a waiting popper sees an empty, open, uninterrupted queue, a waiting pusher a full
      one, a waiting resizer one that is still too long; the bound holds. */
  lemma NoLostWakeUp(max: nat, evs: seq<Event>)
    requires max > 0
    ensures var s := After(Initial(max), evs);
            && 0 < s.shared.max && |s.shared.queue| <= s.shared.max
            && forall t :: t in s.threads && s.threads[t].Waiting? ==>
                 var c := s.threads[t].call;
                 && s.shared.interrupt.None? && !c.Close? && !c.Interrupt?
                 && (c.IsPop() ==> s.shared.queue == [] && !s.shared.closed)
                 && (c.Push? ==> |s.shared.queue| == s.shared.max)
                 && (c.Resize? ==> |s.shared.queue| > c.size > 0)
  {
    RunKeepsInv(Initial(max), evs);
  }

  /** Consumers never wait together with producers or resizers, and what they wait for is not out of reach: with a
      popper waiting the next push goes through, with a pusher or resizer waiting the next pop does. */
  lemma NoDeadlock(max: nat, evs: seq<Event>, t: nat)
    requires max > 0
    requires var s := After(Initial(max), evs); t in s.threads && s.threads[t].Waiting?
    ensures var s := After(Initial(max), evs);
            && (s.threads[t].call.IsPop() ==>
                  && (forall e :: Section(s.shared, Push(e)).1.Pushed?)
                  && (forall t' :: t' in s.threads && s.threads[t'].Waiting? ==> s.threads[t'].call.IsPop()))
            && (!s.threads[t].call.IsPop() ==>
                  && Section(s.shared, Pop).1.Popped?
                  && (forall t' :: t' in s.threads && s.threads[t'].Waiting? ==> !s.threads[t'].call.IsPop()))
  {
    NoLostWakeUp(max, evs);
  }

  // ---------------------------------------------------------------- first in, first out, nothing lost

  ghost function PushedIn(tr: seq<Entry>): seq<Elem> {
    if tr == [] then [] else PushedBy(tr[0]) + PushedIn(tr[1..])
  }

  ghost function PoppedIn(tr: seq<Entry>): seq<Elem> {
    if tr == [] then [] else PoppedBy(tr[0]) + PoppedIn(tr[1..])
  }

  ghost function PushedBy(en: Entry): seq<Elem> {
    if en.Ran? && en.outcome.Pushed? && en.call.Push? then [en.call.e] else []
  }

  ghost function PoppedBy(en: Entry): seq<Elem> {
    if en.Ran? && en.outcome.Popped? then en.outcome.elems else []
  }

  lemma SectionIsFifo(s: Shared, t: nat, c: Call)
    ensures var (s', o) := Section(s, c); s.queue + PushedBy(Ran(t, c, o)) == PoppedBy(Ran(t, c, o)) + s'.queue
  {
  }

  lemma StepIsFifo(s: System, ev: Event)
    ensures s.shared.queue + PushedBy(Step(s, ev).1) == PoppedBy(Step(s, ev).1) + Step(s, ev).0.shared.queue
  {
    hide Section;
    if ev.Run? && ev.t in s.threads { SectionIsFifo(s.shared, ev.t, s.threads[ev.t].call); }
  }

  lemma {:induction false} RunIsFifo(s: System, evs: seq<Event>)
    ensures s.shared.queue + PushedIn(Trace(s, evs)) == PoppedIn(Trace(s, evs)) + After(s, evs).shared.queue
    decreases |evs|
  {
    if evs != [] {
      hide Step;
      var (s', en) := Step(s, evs[0]);
      RunIsFifo(s', evs[1..]);
      StepIsFifo(s, evs[0]);
      var tr := Trace(s, evs);
      assert tr[0] == en && tr[1..] == Trace(s', evs[1..]);
      Chained(s.shared.queue, PushedBy(en), PoppedBy(en), s'.shared.queue,
              PushedIn(tr[1..]), PoppedIn(tr[1..]), After(s', evs[1..]).shared.queue);
    }
  }

  lemma Chained(q: seq<Elem>, a: seq<Elem>, b: seq<Elem>, q': seq<Elem>, a': seq<Elem>, b': seq<Elem>, q'': seq<Elem>)
    requires q + a == b + q' && q' + a' == b' + q''
    ensures q + (a + a') == (b + b') + q''
  {
    assert q + (a + a') == (b + q') + a';
    assert (b + q') + a' == b + (b' + q'');
  }

  /** Over any run, what was pushed is what was popped, in the same order, followed by what is still queued. */
  lemma FirstInFirstOut(max: nat, evs: seq<Event>)
    ensures var tr := Trace(Initial(max), evs);
            PushedIn(tr) == PoppedIn(tr) + After(Initial(max), evs).shared.queue
  {
    RunIsFifo(Initial(max), evs);
  }

  // ---------------------------------------------------------------- what the trace alone tells

  /** What is queued after a trace: what was pushed, without what was popped. */
  ghost function QueuedIn(tr: seq<Entry>): seq<Elem> {
    if |PoppedIn(tr)| <= |PushedIn(tr)| then PushedIn(tr)[|PoppedIn(tr)|..] else []
  }

  /** The size of the last resize that went through. */
  ghost function BoundIn(max: nat, tr: seq<Entry>): nat {
    if tr == [] then max
    else
      var en := Last(tr);
      if en.Ran? && en.call.Resize? && en.outcome.Done? then en.call.size else BoundIn(max, Front(tr))
  }

  ghost predicate ClosedIn(tr: seq<Entry>) { exists i :: 0 <= i < |tr| && tr[i].Ran? && tr[i].call.Close? }

  /** What the last call of `interrupt` left. */
  ghost function FaultIn(tr: seq<Entry>): Option<Fault> {
    if tr == [] then None
    else
      var en := Last(tr);
      if en.Ran? && en.call.Interrupt? then en.call.fault else FaultIn(Front(tr))
  }

  /** The call that thread `t` has begun and not returned from. */
  ghost function CallIn(evs: seq<Event>, tr: seq<Entry>, t: nat): Option<Call>
    requires |evs| == |tr|
  {
    if tr == [] then None
    else
      var before, ev, en := CallIn(Front(evs), Front(tr), t), Last(evs), Last(tr);
      if ev.Begin? && ev.t == t && before.None? then Some(ev.call)
      else if en.Ran? && en.t == t && !en.outcome.Waits? then None
      else before
  }

  /** Thread `t` has gone to wait, and since then nobody has notified and it has not woken up by itself. */
  ghost predicate AsleepIn(evs: seq<Event>, tr: seq<Entry>, t: nat)
    requires |evs| == |tr|
  {
    if tr == [] then false
    else
      var ev, en := Last(evs), Last(tr);
      if en.Ran? && en.t == t then en.outcome.Waits?
      else if en.Ran? && (en.outcome.Pushed? || en.outcome.Popped? || en.outcome.Done?) then false
      else ev != Spurious(t) && AsleepIn(Front(evs), Front(tr), t)
  }

  /** How a call must end that gets the mutex with `q` queued. */
  ghost predicate Answers(q: seq<Elem>, bound: nat, closed: bool, fault: Option<Fault>, c: Call, o: Outcome) {
    var checks := c.Push? || c.IsPop() || (c.Resize? && c.size > 0);
    && (o.Threw? <==> checks && fault.Some?)
    && (o.Threw? ==> o.fault == fault.value)
    && (o.Pushed? <==> c.Push? && fault.None? && |q| < bound && !closed)
    && (o.Pushed? ==> o.size == |q| + 1)
    && (o.Popped? <==> c.IsPop() && fault.None? && q != [])
    && (o.Popped? ==> o.elems <= q && |o.elems| == if c.Pop? then 1 else Min(c.room, |q|))
    && (o.Popped? ==> o.result == if c.Pop? then |q| - 1 else |o.elems|)
    && (o.Ended? <==> c.IsPop() && fault.None? && q == [] && closed)
    && (o.Done? <==> c.Close? || c.Interrupt? || (c.Resize? && 0 < c.size && |q| <= c.size && fault.None? && !closed))
    && (o.Waits? <==>
          && fault.None?
          && ((c.Push? && |q| >= bound) || (c.IsPop() && q == [] && !closed) || (c.Resize? && 0 < c.size < |q|)))
  }

  /** What an event shows, given only what was shown before it. */
  ghost predicate Shows(max: nat, evs: seq<Event>, tr: seq<Entry>, ev: Event, en: Entry)
    requires |evs| == |tr|
  {
    if ev.Run? && CallIn(evs, tr, ev.t).Some? && !AsleepIn(evs, tr, ev.t) then
      && en.Ran? && en.t == ev.t && en.call == CallIn(evs, tr, ev.t).value
      && Answers(QueuedIn(tr), BoundIn(max, tr), ClosedIn(tr), FaultIn(tr), en.call, en.outcome)
    else en == Quiet
  }

  lemma SectionAnswers(s: Shared, c: Call)
    ensures Answers(s.queue, s.max, s.closed, s.interrupt, c, Section(s, c).1)
  {
  }

  /** The shared state is what the trace says. */
  ghost predicate SharedIs(max: nat, tr: seq<Entry>, s: Shared) {
    s.queue == QueuedIn(tr) && LimitsAre(max, tr, s)
  }

  /** So is the state of a thread. */
  ghost predicate ThreadIs(evs: seq<Event>, tr: seq<Entry>, t: nat, threads: map<nat, Thread>)
    requires |evs| == |tr|
  {
    && (t in threads <==> CallIn(evs, tr, t).Some?)
    && (t in threads ==> threads[t].call == CallIn(evs, tr, t).value)
    && (t in threads && threads[t].Waiting? <==> AsleepIn(evs, tr, t))
  }

  lemma RunGrows(s: System, evs: seq<Event>, ev: Event)
    ensures After(s, evs + [ev]) == Step(After(s, evs), ev).0
    ensures Trace(s, evs + [ev]) == Trace(s, evs) + [Step(After(s, evs), ev).1]
    decreases |evs|
  {
    hide Step;
    if evs == [] {
      assert evs + [ev] == [ev];
    } else {
      assert (evs + [ev])[0] == evs[0] && (evs + [ev])[1..] == evs[1..] + [ev];
      RunGrows(Step(s, evs[0]).0, evs[1..], ev);
    }
  }

  lemma ClosedGrows(tr: seq<Entry>, en: Entry)
    ensures ClosedIn(tr + [en]) <==> ClosedIn(tr) || (en.Ran? && en.call.Close?)
  {
    var all := tr + [en];
    assert all[|tr|] == en;
    if ClosedIn(tr) {
      var i :| 0 <= i < |tr| && tr[i].Ran? && tr[i].call.Close?;
      assert all[i] == tr[i];
    }
  }

  /** Bound, end and fault are what the trace says. */
  ghost predicate LimitsAre(max: nat, tr: seq<Entry>, s: Shared) {
    s.max == BoundIn(max, tr) && s.closed == ClosedIn(tr) && s.interrupt == FaultIn(tr)
  }

  lemma LimitsGrow(max: nat, tr: seq<Entry>, en: Entry)
    ensures BoundIn(max, tr + [en]) ==
              if en.Ran? && en.call.Resize? && en.outcome.Done? then en.call.size else BoundIn(max, tr)
    ensures ClosedIn(tr + [en]) <==> ClosedIn(tr) || (en.Ran? && en.call.Close?)
    ensures FaultIn(tr + [en]) == if en.Ran? && en.call.Interrupt? then en.call.fault else FaultIn(tr)
  {
    ClosedGrows(tr, en);
    assert Front(tr + [en]) == tr;
  }

  lemma SectionGrows(max: nat, tr: seq<Entry>, s: Shared, t: nat, c: Call)
    requires LimitsAre(max, tr, s)
    ensures LimitsAre(max, tr + [Ran(t, c, Section(s, c).1)], Section(s, c).0)
  {
    LimitsGrow(max, tr, Ran(t, c, Section(s, c).1));
    hide ClosedIn, BoundIn, FaultIn;
  }

  /** One event keeps them so. */
  lemma SharedGrows(max: nat, tr: seq<Entry>, s: System, ev: Event)
    requires LimitsAre(max, tr, s.shared)
    ensures LimitsAre(max, tr + [Step(s, ev).1], Step(s, ev).0.shared)
  {
    hide ClosedIn, BoundIn, FaultIn, Section;
    LimitsGrow(max, tr, Quiet);
    if ev.Run? && ev.t in s.threads { SectionGrows(max, tr, s.shared, ev.t, s.threads[ev.t].call); }
  }

  lemma ThreadGrows(evs: seq<Event>, tr: seq<Entry>, s: System, ev: Event, t: nat)
    requires |evs| == |tr| && ThreadIs(evs, tr, t, s.threads)
    ensures ThreadIs(evs + [ev], tr + [Step(s, ev).1], t, Step(s, ev).0.threads)
  {
    hide Section;
    var en := Step(s, ev).1;
    assert Front(tr + [en]) == tr && Front(evs + [ev]) == evs;
  }

  lemma {:induction false} TraceTells(max: nat, evs: seq<Event>)
    ensures var (s, tr) := (After(Initial(max), evs), Trace(Initial(max), evs));
            SharedIs(max, tr, s.shared) && forall t :: ThreadIs(evs, tr, t, s.threads)
    decreases |evs|
  {
    hide Step;
    FirstInFirstOut(max, evs);
    if evs != [] {
      var before, ev := Front(evs), Last(evs);
      var s, tr := After(Initial(max), before), Trace(Initial(max), before);
      assert evs == before + [ev];
      TraceTells(max, before);
      RunGrows(Initial(max), before, ev);
      SharedGrows(max, tr, s, ev);
      forall t ensures ThreadIs(evs, tr + [Step(s, ev).1], t, Step(s, ev).0.threads) {
        ThreadGrows(before, tr, s, ev, t);
      }
    }
  }

  /** Every entry of every run is what the entries before it demand: who may run, whether it throws, what it takes or
      adds, what it returns, whether it waits. */
  lemma TraceDecides(max: nat, evs: seq<Event>, k: nat)
    requires k < |evs|
    ensures var tr := Trace(Initial(max), evs); Shows(max, evs[..k], tr[..k], evs[k], tr[k])
  {
    hide *;
    var before, rest := evs[..k], evs[k + 1..];
    assert evs == before + ([evs[k]] + rest);
    RunSplits(Initial(max), before, [evs[k]] + rest);
    TraceTells(max, before);
    TraceStarts(After(Initial(max), before), evs[k], rest);
    StepShows(max, before, Trace(Initial(max), before), After(Initial(max), before), evs[k]);
  }

  lemma TraceStarts(s: System, ev: Event, rest: seq<Event>)
    ensures Trace(s, [ev] + rest)[0] == Step(s, ev).1
  {
    assert ([ev] + rest)[0] == ev;
  }

  lemma StepShows(max: nat, evs: seq<Event>, tr: seq<Entry>, s: System, ev: Event)
    requires |evs| == |tr| && SharedIs(max, tr, s.shared) && ThreadIs(evs, tr, ev.t, s.threads)
    ensures Shows(max, evs, tr, ev, Step(s, ev).1)
  {
    SectionAnswers(s.shared, if ev.Run? && ev.t in s.threads then s.threads[ev.t].call else Close);
    hide Section, Answers, CallIn, AsleepIn, QueuedIn, BoundIn, ClosedIn, FaultIn;
  }

  // ---------------------------------------------------------------- the end of the stream

  ghost predicate Drained(s: System) { s.shared.closed && s.shared.queue == [] }

  lemma {:induction false} DrainedForever(s: System, evs: seq<Event>)
    requires Drained(s)
    ensures Drained(After(s, evs))
    ensures forall k :: 0 <= k < |evs| && Trace(s, evs)[k].Ran? ==>
              var en := Trace(s, evs)[k];
              !en.outcome.Pushed? && (en.call.IsPop() ==> en.outcome.Ended? || en.outcome.Threw?)
    decreases |evs|
  {
    if evs != [] { DrainedForever(Step(s, evs[0]).0, evs[1..]); }
  }

  lemma {:induction false} RunSplits(s: System, before: seq<Event>, rest: seq<Event>)
    ensures Trace(s, before + rest) == Trace(s, before) + Trace(After(s, before), rest)
    decreases |before|
  {
    if before == [] {
      assert before + rest == rest;
    } else {
      assert (before + rest)[0] == before[0] && (before + rest)[1..] == before[1..] + rest;
      RunSplits(Step(s, before[0]).0, before[1..], rest);
    }
  }

  /** Once a pop has returned -1, everything pushed has been delivered, nothing is pushed any more, and every later
      pop returns -1 or throws. */
  lemma EndIsFinal(max: nat, before: seq<Event>, t: nat, rest: seq<Event>)
    requires var s := After(Initial(max), before);
             Step(s, Run(t)).1.Ran? && Step(s, Run(t)).1.outcome.Ended?
    ensures var tr := Trace(Initial(max), before); PushedIn(tr) == PoppedIn(tr)
    ensures var tr := Trace(Initial(max), before + ([Run(t)] + rest));
            && |tr| == |before| + 1 + |rest| && tr[..|before|] == Trace(Initial(max), before)
            && tr[|before|].Ran? && tr[|before|].outcome.Ended?
            && forall k :: |before| < k < |tr| && tr[k].Ran? ==>
                 !tr[k].outcome.Pushed? && (tr[k].call.IsPop() ==> tr[k].outcome.Ended? || tr[k].outcome.Threw?)
  {
    var s := After(Initial(max), before);
    FirstInFirstOut(max, before);
    RunSplits(Initial(max), before, [Run(t)] + rest);
    assert ([Run(t)] + rest)[0] == Run(t) && ([Run(t)] + rest)[1..] == rest;
    DrainedForever(Step(s, Run(t)).0, rest);
  }
}
