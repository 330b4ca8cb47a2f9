/** The actor system of one node (`AbsActorSystem`) and the two references
    that route a `send` (`AbsActorRef` and its older version in `impl`). The
    system owns two maps: local actors by name and references of actors that
    live on other nodes by name. A reference asks its system where the
    destination lives: locally, on another node, or nowhere. */
module Runtime {
  import opened Wrappers
  import opened Modes
  import opened Names
  import opened ActorLifecycle

  /** What an actor records as the sender of its current message: a reference
      of either implementation. */
  datatype Sender<S, M> = Current(current: ActorRef<S, M>) | Older(older: ImplActorRef<S, M>)

  /** An actor managed by a system, with a handler state `S` and messages `M`. */
  type RuntimeActor<S, M> = Actor<S, M, Sender<S, M>>

  /** An actor class handed to `actorOf`: its `receive`, the handler state a
      new instance starts with, and whether `newInstance` succeeds on it (it
      throws `InstantiationException` or `IllegalAccessException` otherwise). */
  datatype ActorClass<!S, !M> = ActorClass(receive: Handler<S, M>, initial: S, instantiable: bool)

  /** The two failures of the naming registry the model keeps. */
  datatype NamingError = AlreadyBound | NotBound

  /** How a `send` ends on the node where it was issued.
      - `Delivered`: the message is in the local target's mailbox.
      - `Relayed(via)`: the destination is remote and `send` is re-issued on
        the reference `via` bound under its name; that call is the next hop.
      - `Dropped`: the destination is known as remote but nothing is bound
        under its name; `NotBoundException` is printed and the message lost.
      - `Refused(f)`: `send` throws `f`. */
  datatype Delivery<S, M> = Delivered | Relayed(via: ActorRef<S, M>) | Dropped | Refused(fault: Fault)

  /** The naming registry shared by the nodes of a cluster: the reference bound
      under each actor name. */
  class Registry<S, M> {
    var bound: map<string, ActorRef<S, M>>

    /** An empty registry. */
    constructor ()
      ensures bound == map[]
    {
      bound := map[];
    }

    /** `Naming.bind`: refuses a name that is already bound. */
    method Bind(name: string, ref: ActorRef<S, M>) returns (o: Outcome<NamingError>)
      modifies this
      ensures name in old(bound) ==> o == Fail(AlreadyBound) && bound == old(bound)
      ensures name !in old(bound) ==> o == Pass && bound == old(bound)[name := ref]
    {
      if name in bound {
        return Fail(AlreadyBound);
      }
      bound := bound[name := ref];
      o := Pass;
    }

    /** `Naming.lookup`: the bound reference, or `NotBoundException`. */
    function Lookup(name: string): (r: Result<ActorRef<S, M>, NamingError>)
      reads this
      ensures r.Success? <==> name in bound
      ensures r.Success? ==> r.value == bound[name]
    {
      if name in bound then Success(bound[name]) else Failure(NotBound)
    }
  }

  class ActorSystem<S, M> {
    /** Every local actor, by name. */
    var actors: map<string, RuntimeActor<S, M>>
    /** The reference of every actor known to live on another node, by name. */
    var remoteActors: map<string, ActorRef<S, M>>
    const systemMode: SystemMode
    const registry: Registry<S, M>

    /** A system with no actors. */
    constructor (systemMode: SystemMode, registry: Registry<S, M>)
      ensures actors == map[] && remoteActors == map[]
      ensures this.systemMode == systemMode && this.registry == registry
      ensures Valid()
    {
      actors := map[];
      remoteActors := map[];
      this.systemMode := systemMode;
      this.registry := registry;
    }

    /** The mailboxes of the local actors. */
    ghost function MailBoxes(): set<object>
      reads this`actors
    {
      set a | a in actors.Values :: a.mailBox as object
    }

    /** The local actors and their mailboxes. */
    ghost function Footprint(): set<object>
      reads this`actors
    {
      (set a | a in actors.Values :: a as object) + MailBoxes()
    }

    /** Every local actor keeps its life-cycle invariant, and no two of them
        share a mailbox. */
    ghost predicate Valid()
      reads this`actors, Footprint()
    {
      && (forall a | a in actors.Values :: a.Valid())
      && (forall a, b | a in actors.Values && b in actors.Values && a != b :: a.mailBox != b.mailBox)
    }

    /** The local actor registered under `name` and its mailbox, if any. */
    ghost function LocalTarget(name: string): set<object>
      reads this`actors
    {
      if name in actors then {actors[name], actors[name].mailBox} else {}
    }

    /** What a `send` to `name` may change: the local target, or else the
        reference a remote destination is relayed through. */
    ghost function SendFrame(name: string): set<object>
      reads this`actors, this`remoteActors, registry
    {
      if name in actors then LocalTarget(name)
      else if name in remoteActors && name in registry.bound then {registry.bound[name]}
      else {}
    }

    /** `contains(ref)`: the reference names a local actor. */
    predicate Contains(ref: ActorRef<S, M>)
      reads this`actors
    {
      ref.name in actors
    }

    /** `containsRemote(name)`: the name is known as a remote actor. */
    predicate ContainsRemote(name: string)
      reads this`remoteActors
    {
      name in remoteActors
    }

    /** `getRemoteActors()`. */
    function GetRemoteActors(): map<string, ActorRef<S, M>>
      reads this`remoteActors
    {
      remoteActors
    }

    /** `getActor(ref)`: the local actor registered under the reference's name,
        or `NoSuchActorException` when there is none. */
    function GetActor(ref: ActorRef<S, M>): (r: Result<RuntimeActor<S, M>, Fault>)
      reads this`actors
      ensures r.Success? <==> Contains(ref)
      ensures r.Success? ==> r.value == actors[ref.name]
      ensures r.Failure? ==> r.error == NoSuchActor
    {
      if ref.name in actors then Success(actors[ref.name]) else Failure(NoSuchActor)
    }

    /** `addRemoteRef(name, ref)`: records (or overwrites) a remote entry. */
    method AddRemoteRef(name: string, ref: ActorRef<S, M>)
      modifies this`remoteActors
      ensures remoteActors == old(remoteActors)[name := ref]
    {
      remoteActors := remoteActors[name := ref];
    }

    /** The first half of `actorOf(cls, mode, name)`: `reference` was created
        under `name` and, in a cluster, bound unless the name was taken; then
        the instance was created, or `newInstance` failed and the call throws
        `NoSuchActorException` while the reference stays bound. */
    twostate predicate Instantiated(cls: ActorClass<S, M>, name: string,
                                    new r: Result<ActorRef<S, M>, Fault>, new reference: ActorRef<S, M>)
      reads registry, reference
    {
      && fresh(reference) && reference.name == name && reference.system == this
      && reference.originalSender == reference
      && registry.bound == (if systemMode == CLUSTER && name !in old(registry.bound)
                            then old(registry.bound)[name := reference]
                            else old(registry.bound))
      && (r.Success? <==> cls.instantiable)
      && (r.Success? ==> r.value == reference)
      && (r.Failure? ==> r.error == NoSuchActor)
    }

    /** A new instance of `cls` is the local actor registered under `name`,
        replacing any actor of that name, and the other names are unchanged. */
    twostate predicate Installed(cls: ActorClass<S, M>, name: string)
      reads this`actors, Footprint()
    {
      && name in actors && actors == old(actors)[name := actors[name]]
      && fresh(actors[name]) && fresh(actors[name].mailBox)
      && actors[name].Pristine(cls.receive, cls.initial)
    }

    /** The effect of `actorOf(cls, mode, name)`: a local actor is registered
        by name; a remote one records only its reference, and the instance is
        dropped. */
    twostate predicate Registered(cls: ActorClass<S, M>, mode: ActorMode, name: string,
                                  new r: Result<ActorRef<S, M>, Fault>, new reference: ActorRef<S, M>)
      reads this, registry, reference, Footprint()
    {
      && Instantiated(cls, name, r, reference)
      && (!cls.instantiable ==> actors == old(actors) && remoteActors == old(remoteActors))
      && (cls.instantiable && mode == LOCAL ==> Installed(cls, name) && remoteActors == old(remoteActors))
      && (cls.instantiable && mode == REMOTE ==>
            actors == old(actors) && remoteActors == old(remoteActors)[name := reference])
    }

    /** Registers `instance`, whose mailbox no local actor shares, as the
        local actor named `name`. */
    method Install(name: string, instance: Actor<S, M, Sender<S, M>>)
      requires Valid() && instance.Valid() && instance !in Footprint() && instance.mailBox !in Footprint()
      modifies this`actors
      ensures actors == old(actors)[name := instance]
      ensures Valid()
      ensures Footprint() <= old(Footprint()) + {instance, instance.mailBox}
    {
      actors := actors[name := instance];
      assert forall a | a in actors.Values :: a == instance || a in old(actors).Values;
    }

    /** `actorOf(actor, mode, name)`. */
    method ActorOf(cls: ActorClass<S, M>, mode: ActorMode, name: string)
      returns (r: Result<ActorRef<S, M>, Fault>, ghost reference: ActorRef<S, M>)
      requires Valid()
      modifies this`actors, this`remoteActors, registry
      ensures Valid()
      ensures Registered(cls, mode, name, r, reference)
      ensures forall o | o in Footprint() :: o in old(Footprint()) || fresh(o)
    {
      var ref := new ActorRef(this, mode, name);
      reference := ref;
      r := Instantiate(cls, mode, name, ref);
    }

    /** The second half of `actorOf(cls, mode, name)`, once `ref` exists:
        `newInstance` fails for a non-instantiable class and nothing changes;
        otherwise a LOCAL actor is installed under `name` and a REMOTE one
        records only `ref`. */
    method Instantiate(cls: ActorClass<S, M>, mode: ActorMode, name: string, ref: ActorRef<S, M>)
      returns (r: Result<ActorRef<S, M>, Fault>)
      requires Valid()
      modifies this`actors, this`remoteActors
      ensures Valid()
      ensures (r.Success? <==> cls.instantiable) && (r.Success? ==> r.value == ref) && (r.Failure? ==> r.error == NoSuchActor)
      ensures !cls.instantiable ==> actors == old(actors) && remoteActors == old(remoteActors)
      ensures cls.instantiable && mode == LOCAL ==> Installed(cls, name) && remoteActors == old(remoteActors)
      ensures cls.instantiable && mode == REMOTE ==> actors == old(actors) && remoteActors == old(remoteActors)[name := ref]
      ensures forall o | o in Footprint() :: o in old(Footprint()) || fresh(o)
    {
      if !cls.instantiable {
        return Failure(NoSuchActor);
      }
      var instance := new Actor<S, M, Sender<S, M>>(cls.receive, cls.initial);
      if mode == LOCAL {
        Install(name, instance);
      } else {
        remoteActors := remoteActors[name := ref];
      }
      r := Success(ref);
    }

    /** `actorOf(actor, mode)`: `actorOf` under a generated name, which is the
        text of a fresh UUID for a local actor and `host/uuid` for a remote
        one, `host` being the local address or the loopback address when that
        cannot be resolved. */
    method ActorOfGenerated(cls: ActorClass<S, M>, mode: ActorMode, localHost: Option<string>, uuidText: string)
      returns (r: Result<ActorRef<S, M>, Fault>, ghost reference: ActorRef<S, M>)
      requires Valid()
      modifies this`actors, this`remoteActors, registry
      ensures Valid()
      ensures Registered(cls, mode, GeneratedName(mode, localHost, uuidText), r, reference)
      ensures forall o | o in Footprint() :: o in old(Footprint()) || fresh(o)
    {
      var host := LoopbackHost;
      if mode == REMOTE {
        if localHost.Some? {
          host := localHost.value;
        }
        r, reference := ActorOf(cls, mode, host + "/" + uuidText);
      } else {
        r, reference := ActorOf(cls, mode, uuidText);
      }
    }

    /** `actorOf(actor)`: a local actor under the text of a fresh UUID. */
    method ActorOfLocal(cls: ActorClass<S, M>, uuidText: string)
      returns (r: Result<ActorRef<S, M>, Fault>, ghost reference: ActorRef<S, M>)
      requires Valid()
      modifies this`actors, this`remoteActors, registry
      ensures Valid()
      ensures Registered(cls, LOCAL, uuidText, r, reference)
      ensures forall o | o in Footprint() :: o in old(Footprint()) || fresh(o)
    {
      r, reference := ActorOfGenerated(cls, LOCAL, None, uuidText);
    }

    /** `stop(ref)`: an unknown name throws `NoSuchActorException` and changes
        nothing; a known one has its actor drained and stopped, and exactly
        that key leaves the local map. */
    method Stop(ref: ActorRef<S, M>) returns (o: Outcome<Fault>)
      requires Valid()
      modifies this`actors, LocalTarget(ref.name)
      ensures Valid() && Footprint() <= old(Footprint())
      ensures remoteActors == old(remoteActors)
      ensures ref.name !in old(actors) ==> o == Fail(NoSuchActor) && actors == old(actors)
      ensures ref.name in old(actors) ==> && o == Pass
                                           && actors == old(actors) - {ref.name}
                                           && old(actors)[ref.name].DrainedAndStopped()
    {
      if ref.name !in actors {
        return Fail(NoSuchActor);
      }
      var actor := actors[ref.name];
      actor.Stop();
      actors := actors - {ref.name};
      assert forall a | a in actors.Values :: a in old(actors).Values;
      o := Pass;
    }

    /** `stop()`: drains and stops every local actor, one at a time, then
        empties the local map. */
    method StopAll()
      requires Valid()
      modifies this`actors, Footprint()
      ensures Valid()
      ensures actors == map[] && remoteActors == old(remoteActors)
      ensures forall a | a in old(actors).Values :: a.DrainedAndStopped()
    {
      StopEach(actors.Values);
      actors := map[];
    }
  }

  /** The current reference (`AbsActorRef`). Besides its name it remembers the
      reference on whose behalf it last relayed a message, `originalSender`,
      which a local delivery records as the target's sender. */
  class ActorRef<S, M> {
    const system: ActorSystem<S, M>
    const name: string
    var originalSender: ActorRef?<S, M>

    /** A reference is its own original sender. In a cluster it binds itself
        under its name; a name already bound keeps its old binding. */
    constructor (system: ActorSystem<S, M>, mode: ActorMode, name: string)
      modifies system.registry
      ensures this.system == system && this.name == name && originalSender == this
      ensures system.registry.bound ==
                (if system.systemMode == CLUSTER && name !in old(system.registry.bound)
                 then old(system.registry.bound)[name := this]
                 else old(system.registry.bound))
    {
      this.system := system;
      this.name := name;
      originalSender := null;
      new;
      originalSender := this;
      if system.systemMode == CLUSTER {
        var bound := system.registry.Bind(name, this);
      }
    }

    /** `getOriginalSender()`. */
    function GetOriginalSender(): ActorRef?<S, M>
      reads this`originalSender
    {
      originalSender
    }

    /** `setOriginalSender(r)`: a later `getOriginalSender()` returns `r`. */
    method SetOriginalSender(r: ActorRef<S, M>)
      modifies this`originalSender
      ensures GetOriginalSender() == r
    {
      originalSender := r;
    }

    /** The sender a local delivery records: the original sender, which is
        this reference itself unless it relayed for another one. The field is
        typed nullable only so the constructor can set it to `this` after
        `new;`; the constructor and `SetOriginalSender` leave it non-null, so
        the `None` branch never arises for a constructed reference. */
    function Attribution(): Option<Sender<S, M>>
      reads this`originalSender
    {
      if originalSender == null then None else Some(Current(originalSender))
    }

    /** `send(message, to)`. The local map is consulted first, so a destination
        that is both local and remote is delivered locally.
        - Local: the target's sender becomes `Attribution()`, then the message
          is enqueued; a stopped target throws and keeps the new sender.
        - Only remote: the reference bound under the destination's name takes
          this one as its original sender and `send` is re-issued on it.
        - Neither: `NoSuchActorException`, and nothing changes. */
    method Send(message: M, to: ActorRef<S, M>) returns (o: Delivery<S, M>)
      requires system.Valid()
      modifies system.SendFrame(to.name)
      ensures system.Valid()
      ensures !system.Contains(to) && system.ContainsRemote(to.name) ==>
                && (to.name in system.registry.bound ==>
                      o == Relayed(system.registry.bound[to.name]) && o.via.GetOriginalSender() == this)
                && (to.name !in system.registry.bound ==> o == Dropped)
      ensures !system.Contains(to) && !system.ContainsRemote(to.name) ==> o == Refused(NoSuchActor)
      ensures system.Contains(to) ==>
                var target := system.actors[to.name];
                && target.sender == old(Attribution())
                && target.state == old(target.state) && target.received == old(target.received)
                && (old(target.alive) ==>
                      && o == Delivered
                      && target.mailBox.box == old(target.mailBox.box) + [message]
                      && target.enqueued == old(target.enqueued) + [message]
                      && target.alive && target.looping)
                && (!old(target.alive) ==>
                      && o == Refused(NoSuchActor)
                      && target.mailBox.box == old(target.mailBox.box)
                      && target.enqueued == old(target.enqueued))
    {
      if !system.Contains(to) {
        if system.ContainsRemote(to.name) {
          var lookup := system.registry.Lookup(to.name);
          if lookup.Failure? {
            return Dropped;
          }
          var remoteRef := lookup.value;
          remoteRef.SetOriginalSender(this);
          return Relayed(remoteRef);
        }
        return Refused(NoSuchActor);
      }
      var target := system.actors[to.name];
      if originalSender == this {
        target.SetSender(Some(Current(this)));
      } else {
        target.SetSender(if originalSender == null then None else Some(Current(originalSender)));
      }
      var enqueued := target.Enqueue(message);
      if enqueued.Fail? {
        return Refused(enqueued.error);
      }
      o := Delivered;
    }
  }

  /** A reply can find its way back: `a` sends to a destination its system
      knows only as remote, and the reference the call is relayed through
      re-issues it on the system hosting the destination. There the
      destination records `a`, not the relaying reference, as its sender. */
  method RelayThenDeliver<S, M>(a: ActorRef<S, M>, message: M, to: ActorRef<S, M>)
    returns (first: Delivery<S, M>, second: Delivery<S, M>)
    requires a.system.Valid()
    requires !a.system.Contains(to) && a.system.ContainsRemote(to.name) && to.name in a.system.registry.bound
    requires a.system.registry.bound[to.name].system.Valid()
    requires a.system.registry.bound[to.name].system.Contains(to)
    modifies a.system.SendFrame(to.name), a.system.registry.bound[to.name].system.LocalTarget(to.name)
    ensures var via := a.system.registry.bound[to.name];
            var target := via.system.actors[to.name];
            && first == Relayed(via)
            && target.sender == Some(Current(a))
            && (old(target.alive) ==> second == Delivered && target.mailBox.box == old(target.mailBox.box) + [message])
            && (!old(target.alive) ==> second == Refused(NoSuchActor))
  {
    first := a.Send(message, to);
    second := first.via.Send(message, to);
  }

  /** The older reference (`impl.AbsActorRef`): the same three-way routing
      without `originalSender`; a local delivery records this reference as the
      sender, and only once the message was accepted. */
  class ImplActorRef<S, M> {
    const system: ActorSystem<S, M>
    const name: string

    /** A reference keeps its system and name forever. */
    constructor (system: ActorSystem<S, M>, name: string)
      ensures this.system == system && this.name == name
    {
      this.system := system;
      this.name := name;
    }

    /** `send(message, to)` of the older reference. */
    method Send(message: M, to: ActorRef<S, M>) returns (o: Delivery<S, M>)
      requires system.Valid()
      modifies system.LocalTarget(to.name)
      ensures system.Valid()
      ensures !system.Contains(to) && system.ContainsRemote(to.name) ==>
                && (to.name in system.registry.bound ==> o == Relayed(system.registry.bound[to.name]))
                && (to.name !in system.registry.bound ==> o == Dropped)
      ensures !system.Contains(to) && !system.ContainsRemote(to.name) ==> o == Refused(NoSuchActor)
      ensures system.Contains(to) ==>
                var target := system.actors[to.name];
                && target.state == old(target.state) && target.received == old(target.received)
                && (old(target.alive) ==>
                      && o == Delivered
                      && target.sender == Some(Older(this))
                      && target.mailBox.box == old(target.mailBox.box) + [message]
                      && target.enqueued == old(target.enqueued) + [message]
                      && target.alive && target.looping)
                && (!old(target.alive) ==>
                      && o == Refused(NoSuchActor)
                      && target.sender == old(target.sender)
                      && target.mailBox.box == old(target.mailBox.box)
                      && target.enqueued == old(target.enqueued))
    {
      if !system.Contains(to) {
        if system.ContainsRemote(to.name) {
          var lookup := system.registry.Lookup(to.name);
          if lookup.Failure? {
            return Dropped;
          }
          return Relayed(lookup.value);
        }
        return Refused(NoSuchActor);
      }
      var target := system.actors[to.name];
      var enqueued := target.Enqueue(message);
      if enqueued.Fail? {
        return Refused(enqueued.error);
      }
      target.SetSender(Some(Older(this)));
      o := Delivered;
    }
  }
}
