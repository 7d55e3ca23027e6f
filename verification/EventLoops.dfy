/** The functor queue of an event loop: producers push a functor and then write to an edge-triggered event counter; the
    loop polls, handles events, and runs what was queued. Steps of all threads are interleaved in any order. */
module EventLoops {
  datatype Functor = Functor(id: nat)

  /** Where the loop is: in poll, handling the events it returned (with the counter still to be read when that was
      one of them), or running the functors it has taken. */
  datatype Phase = Polling | Handling(unread: bool) | Running(i: nat)

  datatype Step =
    | Push(cb: Functor)      // another thread: the critical section of queueInLoop
    | Wake                   // another thread: the write behind it
    | PollReturns(others: bool) // epoll_wait returns, perhaps with events of other channels
    | ReadCounter            // the loop: handleRead of the wake channel
    | QueueInLoop(cb: Functor) // the loop's own thread: the critical section of queueInLoop
    | WakeSelf               // the loop's own thread: the write behind it
    | TakeFunctors           // the loop: the swap of doPendingFunctors
    | RunFunctor             // the loop: one functor
    | FinishFunctors         // the loop: the end of doPendingFunctors

  class EventLoop {
    var pendingFunctors_: seq<Functor>
    var callingPendingFunctors_: bool
    // The local variable of doPendingFunctors.
    var functors: seq<Functor>
    // The event counter, and whether it was written since epoll last looked at it.
    var counter: nat
    var edge: bool
    var phase: Phase
    // How many other threads are between their push and their write; whether the loop's own thread is.
    var waking: nat
    var wakingSelf: bool
    /** All functors ever queued, and all that were run. */
    ghost var queued: seq<Functor>
    ghost var executed: seq<Functor>

    /** Whether epoll_wait has the wake channel to report. */
    predicate Ready()
      reads this
    {
      edge && counter > 0
    }

    /** The loop sits in poll and has no wake event. */
    predicate Blocked()
      reads this
    {
      phase.Polling? && !Ready()
    }

    ghost predicate Valid()
      reads this
    {
      // every functor is queued once, and run once and in order
      && (phase.Running? ==> phase.i <= |functors|)
      && executed + (if phase.Running? then functors[phase.i..] else []) + pendingFunctors_ == queued
      && (callingPendingFunctors_ <==> phase.Running?)
      && (wakingSelf ==> phase.Running?)
      // a queued functor is taken before the next poll, or somebody will write, or has written
      && (pendingFunctors_ != [] ==> phase.Handling? || waking > 0 || wakingSelf || Ready())
    }

    constructor ()
      ensures Valid() && queued == [] && executed == [] && waking == 0 && phase == Polling
    {
      pendingFunctors_, functors, callingPendingFunctors_ := [], [], false;
      counter, edge, phase := 0, false, Polling;
      waking, wakingSelf, queued, executed := 0, false, [], [];
    }

    method QueueInLoop(cb: Functor, isInLoopThread: bool)
      requires Valid() && (isInLoopThread ==> !phase.Polling? && !wakingSelf)
      modifies this`pendingFunctors_, this`queued, this`waking, this`wakingSelf
      ensures Valid() && queued == old(queued) + [cb]
      ensures pendingFunctors_ == old(pendingFunctors_) + [cb]
      ensures waking == old(waking) + if isInLoopThread then 0 else 1
      ensures wakingSelf <==> old(wakingSelf) || (isInLoopThread && callingPendingFunctors_)
    {
      pendingFunctors_ := pendingFunctors_ + [cb];
      queued := queued + [cb];
      if !isInLoopThread {
        waking := waking + 1;
      } else if callingPendingFunctors_ {
        wakingSelf := true;
      }
    }

    method Wakeup(isInLoopThread: bool)
      requires Valid() && if isInLoopThread then wakingSelf else waking > 0
      modifies this`counter, this`edge, this`waking, this`wakingSelf
      ensures Valid() && edge && counter == old(counter) + 1
      ensures waking == old(waking) - (if isInLoopThread then 0 else 1)
      ensures wakingSelf <==> old(wakingSelf) && !isInLoopThread
    {
      counter := counter + 1;
      edge := true;
      if isInLoopThread {
        wakingSelf := false;
      } else {
        waking := waking - 1;
      }
    }

    /** epoll_wait looks at the ready list once; the edge is gone whether it reports the channel or not. */
    method Poll(others: bool)
      requires Valid() && phase.Polling?
      modifies this`edge, this`phase
      ensures Valid() && !edge
      ensures phase ==
        if old(edge && counter > 0) || others then Handling(old(edge && counter > 0)) else Polling
    {
      if Ready() || others {
        phase := Handling(Ready());
      }
      edge := false;
    }

    /** Reading the counter resets it; the registered events stay the same, so epoll is not told to look again. */
    method HandleRead()
      requires Valid() && phase == Handling(true)
      modifies this`counter, this`phase
      ensures Valid() && phase == Handling(false) && counter == 0
    {
      counter := 0;
      phase := Handling(false);
    }

    method TakeFunctors()
      requires Valid() && phase == Handling(false)
      modifies this`pendingFunctors_, this`functors, this`callingPendingFunctors_, this`phase
      ensures Valid() && phase == Running(0) && functors == old(pendingFunctors_) && pendingFunctors_ == []
    {
      callingPendingFunctors_ := true;
      functors, pendingFunctors_ := pendingFunctors_, [];
      phase := Running(0);
    }

    method RunFunctor()
      requires Valid() && phase.Running? && phase.i < |functors| && !wakingSelf
      modifies this`executed, this`phase
      ensures Valid() && executed == old(executed) + [functors[old(phase).i]] && phase == Running(old(phase).i + 1)
    {
      executed := executed + [functors[phase.i]];
      phase := Running(phase.i + 1);
    }

    method FinishFunctors()
      requires Valid() && phase.Running? && phase.i == |functors| && !wakingSelf
      modifies this`callingPendingFunctors_, this`phase
      ensures Valid() && phase == Polling
    {
      callingPendingFunctors_ := false;
      phase := Polling;
    }

    /** The loop never sits in poll with a queued functor unless another thread is between its push and its write. */
    lemma {:induction false} NeverStuck()
      requires Valid()
      ensures Blocked() && pendingFunctors_ != [] ==> waking > 0
    {
    }

    /** Nothing runs twice or out of order, and nothing is forgotten. */
    lemma {:induction false} RunsInOrder()
      requires Valid()
      ensures executed <= queued
      ensures phase.Polling? && pendingFunctors_ == [] ==> executed == queued
    {
    }

    /** One undisturbed turn of the loop runs everything that is queued. */
    method Turn(others: bool)
      requires Valid() && phase.Polling? && (Ready() || others)
      modifies this
      ensures Valid() && phase == Polling && executed == queued == old(queued)
    {
      Poll(others);
      if phase == Handling(true) {
        HandleRead();
      }
      TakeFunctors();
      while phase.i < |functors|
        invariant Valid() && phase.Running? && !wakingSelf && pendingFunctors_ == [] && queued == old(queued)
        decreases |functors| - phase.i
      {
        RunFunctor();
      }
      FinishFunctors();
    }

    /** Whether some thread is where it takes this step next. */
    predicate Possible(step: Step)
      reads this
    {
      match step
      case Push(_) => true
      case Wake => waking > 0
      case QueueInLoop(_) => !phase.Polling? && !wakingSelf
      case WakeSelf => wakingSelf
      case PollReturns(_) => phase.Polling?
      case ReadCounter => phase == Handling(true)
      case TakeFunctors => phase == Handling(false)
      case RunFunctor => phase.Running? && phase.i < |functors| && !wakingSelf
      case FinishFunctors => phase.Running? && phase.i == |functors| && !wakingSelf
    }

    /** One step of any thread; a step that is not possible in the current state does nothing. */
    method Take(step: Step)
      requires Valid()
      modifies this
      ensures Valid() && (old(!Possible(step)) ==> unchanged(this))
      // what each step does
      ensures old(Possible(step)) ==>
        && queued == old(queued) + (if step.Push? || step.QueueInLoop? then [step.cb] else [])
        && pendingFunctors_ == (if step.TakeFunctors? then [] else
             old(pendingFunctors_) + if step.Push? || step.QueueInLoop? then [step.cb] else [])
        && functors == (if step.TakeFunctors? then old(pendingFunctors_) else old(functors))
        && waking == old(waking) + (if step.Push? then 1 else if step.Wake? then -1 else 0)
        && (wakingSelf <==> if step.QueueInLoop? then phase.Running? else old(wakingSelf) && !step.WakeSelf?)
        && counter == (if step.ReadCounter? then 0 else old(counter) + if step.Wake? || step.WakeSelf? then 1 else 0)
        && (edge <==> if step.Wake? || step.WakeSelf? then true else old(edge) && !step.PollReturns?)
        && executed == old(executed) + (if step.RunFunctor? then [old(functors[phase.i])] else [])
        && phase == match step
             case PollReturns(others) =>
               if old(edge && counter > 0) || others then Handling(old(edge && counter > 0)) else Polling
             case ReadCounter => Handling(false)
             case TakeFunctors => Running(0)
             case RunFunctor => Running(old(phase.i) + 1)
             case FinishFunctors => Polling
             case _ => old(phase)
    {
      match step
      case Push(cb) => QueueInLoop(cb, false);
      case QueueInLoop(cb) => if !phase.Polling? && !wakingSelf { QueueInLoop(cb, true); }
      case Wake => if waking > 0 { Wakeup(false); }
      case WakeSelf => if wakingSelf { Wakeup(true); }
      case PollReturns(others) => if phase.Polling? { Poll(others); }
      case ReadCounter => if phase == Handling(true) { HandleRead(); }
      case TakeFunctors => if phase == Handling(false) { TakeFunctors(); }
      case RunFunctor => if phase.Running? && phase.i < |functors| && !wakingSelf { RunFunctor(); }
      case FinishFunctors => if phase.Running? && phase.i == |functors| && !wakingSelf { FinishFunctors(); }
    }

    /** The next step of the loop's own thread. */
    function Next(): Step
      requires Valid() && (phase.Polling? ==> Ready())
      reads this
    {
      if wakingSelf then WakeSelf
      else match phase
        case Polling => PollReturns(false)
        case Handling(unread) => if unread then ReadCounter else Step.TakeFunctors
        case Running(i) => if i < |functors| then Step.RunFunctor else Step.FinishFunctors
    }

    /** How many steps the current turn still has. */
    ghost function Left(): nat
      requires Valid()
      reads this
    {
      match phase
      case Polling => 0
      case Handling(unread) => |pendingFunctors_| + if unread then 3 else 2
      case Running(i) => |functors| - i + 1
    }

    /** Nothing is ever lost: from every reachable state the wake-ups on their way and the steps of the loop's own
        thread alone end in poll with everything run that was ever queued; no further push and no event of another
        channel is needed. */
    method Settle()
      requires Valid()
      modifies this
      ensures Valid() && Blocked() && waking == 0 && executed == queued == old(queued)
    {
      while waking > 0
        invariant Valid() && queued == old(queued)
      {
        Take(Wake);
      }
      while !phase.Polling? || Ready()
        invariant Valid() && waking == 0 && queued == old(queued)
        decreases (if wakingSelf then 2 else 0) + (if edge then 1 else 0), Left()
      {
        Take(Next());
      }
    }
  }

  /** The functors that other threads push in a run. */
  function Pushed(steps: seq<Step>): seq<Functor> {
    if steps == [] then []
    else
      var last := steps[|steps| - 1];
      Pushed(steps[..|steps| - 1]) + if last.Push? then [last.cb] else []
  }

  predicate NoneFromLoop(steps: seq<Step>) {
    forall k :: 0 <= k < |steps| ==> !steps[k].QueueInLoop?
  }

  /** Whatever the interleaving: what has run is a beginning of what was queued, and all of it when nothing is
      pending; and the loop sits in poll with a pending functor only while another thread is between its push and
      its write. Without functors queued by the loop's own thread, the queue history is what the others pushed. */
  method Run(steps: seq<Step>) returns (loop: EventLoop)
    ensures loop.Valid() && (NoneFromLoop(steps) ==> loop.queued == Pushed(steps))
    ensures loop.executed <= loop.queued
    ensures loop.phase.Polling? && loop.pendingFunctors_ == [] ==> loop.executed == loop.queued
    ensures loop.Blocked() && loop.pendingFunctors_ != [] ==> loop.waking > 0
  {
    loop := new EventLoop();
    for k := 0 to |steps|
      invariant loop.Valid() && fresh(loop) && (NoneFromLoop(steps) ==> loop.queued == Pushed(steps[..k]))
    {
      assert steps[..k + 1][..k] == steps[..k];
      loop.Take(steps[k]);
    }
    assert steps[..|steps|] == steps;
    loop.RunsInOrder();
    loop.NeverStuck();
  }
}
