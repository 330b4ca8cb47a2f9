/** The counter actor of the integration tests (`CounterActor`) as a concrete
    handler, and the tests that drive it through a system: no message is lost
    by the receive loop or by a draining stop. */
module Counter {
  import opened Wrappers
  import opened Modes
  import opened ActorLifecycle
  import opened Runtime

  datatype CounterMessage = Increment | Decrement | Get

  /** Whether `x` fits a Java `int`. */
  predicate IsInt32(x: int)
  {
    -0x8000_0000 <= x < 0x8000_0000
  }

  /** Java `int` arithmetic: `x` reduced modulo 2^32 into the `int` range. */
  function Wrap32(x: int): (r: int)
    ensures IsInt32(r)
    ensures (r - x) % 0x1_0000_0000 == 0
    ensures IsInt32(x) ==> r == x
  {
    (x + 0x8000_0000) % 0x1_0000_0000 - 0x8000_0000
  }

  /** Adding after a wrap is wrapping after the addition. */
  lemma WrapShift(x: int, d: int)
    ensures Wrap32(Wrap32(x) + d) == Wrap32(x + d)
  {
    // Wrap32(x) differs from x by a multiple of 2^32, which the outer
    // reduction modulo 2^32 absorbs.
  }

  /** `receive`: `counter++`, `counter--`, and a `Get` that only replies. */
  function Receive(counter: int, message: CounterMessage): Reaction<int>
  {
    match message
    case Increment => Reaction(Wrap32(counter + 1), None)
    case Decrement => Reaction(Wrap32(counter - 1), None)
    case Get => Reaction(counter, None)
  }

  /** The change one message makes to an unbounded counter. */
  function Effect(message: CounterMessage): int
  {
    match message
    case Increment => 1
    case Decrement => -1
    case Get => 0
  }

  /** The net change `messages` make to an unbounded counter. */
  function Net(messages: seq<CounterMessage>): int
  {
    if messages == [] then 0 else Effect(messages[0]) + Net(messages[1..])
  }

  /** The net change is the number of increments minus the number of
      decrements, whatever their order. */
  lemma {:induction false} NetCounts(messages: seq<CounterMessage>)
    ensures Net(messages) == multiset(messages)[Increment] as int - multiset(messages)[Decrement] as int
  {
    if messages != [] {
      assert messages == [messages[0]] + messages[1..];
      assert multiset(messages) == multiset{messages[0]} + multiset(messages[1..]);
      NetCounts(messages[1..]);
    }
  }

  /** Handling `messages` moves a counter by their net change, wrapped to a
      Java `int`: nothing is handled twice or skipped. */
  lemma {:induction false} DrainCounter(counter: int, messages: seq<CounterMessage>)
    requires IsInt32(counter)
    ensures Drain(Receive, counter, messages) == Wrap32(counter + Net(messages))
    decreases |messages|
  {
    if messages != [] {
      var next := Receive(counter, messages[0]).next;
      DrainCounter(next, messages[1..]);
      WrapShift(counter + Effect(messages[0]), Net(messages[1..]));
    }
  }

  /** `n` increments in a row. */
  function Increments(n: nat): seq<CounterMessage>
  {
    seq(n, _ => Increment)
  }

  /** `n` increments move the counter by `n`. */
  lemma {:induction false} NetIncrements(n: nat)
    ensures Net(Increments(n)) == n
  {
    if n > 0 {
      assert Increments(n)[1..] == Increments(n - 1);
      NetIncrements(n - 1);
    }
  }

  /** The counter class as handed to `actorOf`: it starts at 0. */
  function CounterClass(): ActorClass<int, CounterMessage>
  {
    ActorClass(Receive, 0, true)
  }

  /** A sender that ignores every message (`TrivialActor`). */
  function TrivialClass(): ActorClass<int, CounterMessage>
  {
    ActorClass((s: int, m: CounterMessage) => Reaction(s, None), 0, true)
  }

  /** A new system with a counter actor named "counter" and a trivial actor
      named "adder". */
  method NewCounterSystem()
    returns (system: ActorSystem<int, CounterMessage>, counterRef: ActorRef<int, CounterMessage>,
             adder: ActorRef<int, CounterMessage>, actor: RuntimeActor<int, CounterMessage>)
    ensures fresh(system) && fresh(actor) && fresh(actor.mailBox)
    ensures forall o | o in system.Footprint() :: fresh(o)
    ensures system.Valid() && "counter" in system.actors && system.actors["counter"] == actor
    ensures counterRef.name == "counter" && adder.system == system
    ensures actor.Pristine(Receive, 0)
  {
    var registry := new Registry<int, CounterMessage>();
    system := new ActorSystem(DEFAULT, registry);
    var created;
    ghost var reference;
    created, reference := system.ActorOfLocal(CounterClass(), "counter");
    counterRef := created.value;
    actor := system.actors["counter"];
    adder := AddAdder(system);
  }

  /** Registers the trivial actor "adder" beside the counter, which keeps
      its place in the local map. */
  method AddAdder(system: ActorSystem<int, CounterMessage>) returns (adder: ActorRef<int, CounterMessage>)
    requires system.Valid() && "counter" in system.actors
    modifies system`actors, system`remoteActors, system.registry
    ensures system.Valid() && "counter" in system.actors && system.actors["counter"] == old(system.actors["counter"])
    ensures adder.system == system
    ensures forall o | o in system.Footprint() :: o in old(system.Footprint()) || fresh(o)
  {
    var created;
    ghost var reference;
    created, reference := system.ActorOfLocal(TrivialClass(), "adder");
    adder := created.value;
  }

  /** `n` sends of `Increment` from `adder` to a live actor that has handled
      nothing yet: each one is delivered and queued. */
  method SendIncrements(system: ActorSystem<int, CounterMessage>, adder: ActorRef<int, CounterMessage>,
                        counterRef: ActorRef<int, CounterMessage>, actor: RuntimeActor<int, CounterMessage>, n: nat)
    requires system.Valid() && counterRef.name in system.actors && system.actors[counterRef.name] == actor
    requires adder.system == system
    requires actor.alive && actor.received == [] && actor.mailBox.box == []
    modifies actor, actor.mailBox
    ensures system.Valid() && actor.alive && (n > 0 ==> actor.looping)
    ensures actor.received == [] && actor.state == old(actor.state) && actor.mailBox.box == Increments(n)
  {
    var i := 0;
    while i < n
      invariant 0 <= i <= n
      invariant system.Valid() && actor.alive && (i > 0 ==> actor.looping)
      invariant actor.received == [] && actor.state == old(actor.state) && actor.mailBox.box == Increments(i)
    {
      var delivery := adder.Send(Increment, counterRef);
      assert Increments(i) + [Increment] == Increments(i + 1);
      i := i + 1;
    }
  }

  /** A system with a counter actor and a trivial actor, and `n` increments
      sent from the trivial actor to the counter. */
  method CounterWithIncrements(n: nat)
    returns (system: ActorSystem<int, CounterMessage>, counterRef: ActorRef<int, CounterMessage>,
             actor: RuntimeActor<int, CounterMessage>)
    ensures fresh(system) && fresh(actor) && fresh(actor.mailBox)
    ensures forall o | o in system.Footprint() :: fresh(o)
    ensures system.Valid() && counterRef.name in system.actors && system.actors[counterRef.name] == actor
    ensures actor.alive && (n > 0 ==> actor.looping) && actor.receive == Receive && actor.initial == 0
    ensures actor.received == [] && actor.state == 0 && actor.mailBox.box == Increments(n)
  {
    var adder;
    system, counterRef, adder, actor := NewCounterSystem();
    SendIncrements(system, adder, counterRef, actor, n);
  }

  /** `shouldNotLooseAnyMessage`: after `n` increments the receive loop has
      brought the counter to `n`. */
  method IncrementsThenReceiveLoop(n: nat) returns (counter: int)
    ensures counter == Wrap32(n)
  {
    var system, counterRef, actor := CounterWithIncrements(n);
    actor.ReceiveLoop();
    DrainCounter(0, Increments(n));
    NetIncrements(n);
    counter := actor.state;
  }

  /** `shouldProcessRemainingMessagesAfterStop`: stopping the counter right
      after `n` increments still handles all of them. */
  method IncrementsThenStop(n: nat) returns (counter: int, stopped: Outcome<Fault>)
    ensures stopped == Pass && counter == Wrap32(n)
  {
    var system, counterRef, actor := CounterWithIncrements(n);
    stopped := system.Stop(counterRef);
    DrainCounter(0, Increments(n));
    NetIncrements(n);
    counter := actor.state;
  }

  /** `shouldProcessRemainingMessagesAfterSystemStopped`: the same with
      `stop()` on the whole system. */
  method IncrementsThenStopAll(n: nat) returns (counter: int)
    ensures counter == Wrap32(n)
  {
    var system, counterRef, actor := CounterWithIncrements(n);
    system.StopAll();
    DrainCounter(0, Increments(n));
    NetIncrements(n);
    counter := actor.state;
  }
}
