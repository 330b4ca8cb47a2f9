/** The first-generation actor system (`it.unipd.math.pcd.actors.AbsActorSystem`).
    It keeps the same two maps as the current one, but its local map is keyed
    by the reference object that `actorOf` creates rather than by name, so two
    actors created under one name are two separate entries. */
module LegacySystem {
  import opened Wrappers
  import opened Modes
  import opened Names
  import opened ActorLifecycle
  import Runtime

  /** A reference made by `createActorReference(mode, name)`: a new object
      that keeps its name. As a map key it is compared by identity. */
  class LegacyRef<S, M> {
    const name: string

    /** A reference keeps its name forever. */
    constructor (name: string)
      ensures this.name == name
    {
      this.name := name;
    }
  }

  /** An actor managed by the first-generation system; it records the
      reference of its sender. */
  type LegacyActor<S, M> = Actor<S, M, LegacyRef<S, M>>

  class ActorSystem<S, M> {
    /** Every local actor, by the reference it was created with. */
    var actors: map<LegacyRef<S, M>, LegacyActor<S, M>>
    /** The reference of every actor known to live on another node, by name. */
    var remoteActors: map<string, LegacyRef<S, M>>

    /** A system with no actors. */
    constructor ()
      ensures actors == map[] && remoteActors == map[]
      ensures Valid()
    {
      actors := map[];
      remoteActors := map[];
    }

    /** The local actors and their mailboxes. */
    ghost function Footprint(): set<object>
      reads this`actors
    {
      (set a | a in actors.Values :: a as object) + (set a | a in actors.Values :: a.mailBox as object)
    }

    /** Every local actor keeps its life-cycle invariant, and no two of them
        share a mailbox. */
    ghost predicate Valid()
      reads this`actors, Footprint()
    {
      && (forall a | a in actors.Values :: a.Valid())
      && (forall a, b | a in actors.Values && b in actors.Values && a != b :: a.mailBox != b.mailBox)
    }

    /** The local actor registered under `ref` and its mailbox, if any. */
    ghost function LocalTarget(ref: LegacyRef<S, M>): set<object>
      reads this`actors
    {
      if ref in actors then {actors[ref], actors[ref].mailBox} else {}
    }

    /** `contains(ref)`: the reference itself is a local key. */
    predicate Contains(ref: LegacyRef<S, M>)
      reads this`actors
    {
      ref in actors
    }

    /** `containsRemote(name)`: the name is known as a remote actor. */
    predicate ContainsRemote(name: string)
      reads this`remoteActors
    {
      name in remoteActors
    }

    /** `getActor(ref)`: the actor registered under the reference, or
        `NoSuchActorException` when the map holds none. */
    function GetActor(ref: LegacyRef<S, M>): (r: Result<LegacyActor<S, M>, Fault>)
      reads this`actors
      ensures r.Success? <==> Contains(ref)
      ensures r.Success? ==> r.value == actors[ref]
      ensures r.Failure? ==> r.error == NoSuchActor
    {
      if ref in actors then Success(actors[ref]) else Failure(NoSuchActor)
    }

    /** `addRemoteRef(name, ref)`: records (or overwrites) a remote entry. */
    method AddRemoteRef(name: string, ref: LegacyRef<S, M>)
      modifies this`remoteActors
      ensures remoteActors == old(remoteActors)[name := ref]
    {
      remoteActors := remoteActors[name := ref];
    }

    /** The reference `actorOf(cls, mode, name)` creates is new and carries
        `name`; a class that cannot be instantiated makes the call throw
        `NoSuchActorException`. */
    twostate predicate Created(cls: Runtime.ActorClass<S, M>, name: string,
                               new r: Result<LegacyRef<S, M>, Fault>, new reference: LegacyRef<S, M>)
      reads reference
    {
      && fresh(reference) && reference.name == name
      && (r.Success? <==> cls.instantiable)
      && (r.Success? ==> r.value == reference)
      && (r.Failure? ==> r.error == NoSuchActor)
    }

    /** A new instance of `cls` is the local actor registered under
        `reference`, a key no earlier actor has, and the other keys are
        unchanged. */
    twostate predicate Installed(cls: Runtime.ActorClass<S, M>, new reference: LegacyRef<S, M>)
      reads this`actors, Footprint()
    {
      && reference in actors && reference !in old(actors)
      && actors == old(actors)[reference := actors[reference]]
      && fresh(actors[reference]) && fresh(actors[reference].mailBox)
      && actors[reference].Pristine(cls.receive, cls.initial)
    }

    /** The effect of `actorOf(cls, mode, name)`: a LOCAL actor is registered
        under its reference, a REMOTE one only records its reference by name,
        and a failed call changes neither map. */
    twostate predicate Registered(cls: Runtime.ActorClass<S, M>, mode: ActorMode, name: string,
                                  new r: Result<LegacyRef<S, M>, Fault>, new reference: LegacyRef<S, M>)
      reads this, reference, Footprint()
    {
      && Created(cls, name, r, reference)
      && (!cls.instantiable ==> actors == old(actors) && remoteActors == old(remoteActors))
      && (cls.instantiable && mode == LOCAL ==> Installed(cls, reference) && remoteActors == old(remoteActors))
      && (cls.instantiable && mode == REMOTE ==>
            actors == old(actors) && remoteActors == old(remoteActors)[name := reference])
    }

    /** `actorOf(actor, mode, name)`. */
    method ActorOf(cls: Runtime.ActorClass<S, M>, mode: ActorMode, name: string)
      returns (r: Result<LegacyRef<S, M>, Fault>, ghost reference: LegacyRef<S, M>)
      requires Valid()
      modifies this`actors, this`remoteActors
      ensures Valid()
      ensures Registered(cls, mode, name, r, reference)
      ensures forall o | o in Footprint() :: o in old(Footprint()) || fresh(o)
    {
      var ref := new LegacyRef(name);
      reference := ref;
      if !cls.instantiable {
        return Failure(NoSuchActor), reference;
      }
      var instance := new Actor<S, M, LegacyRef<S, M>>(cls.receive, cls.initial);
      if mode == LOCAL {
        actors := actors[ref := instance];
        assert forall a | a in actors.Values :: a == instance || a in old(actors).Values;
      } else {
        remoteActors := remoteActors[name := ref];
      }
      r := Success(ref);
    }

    /** `actorOf(actor, mode)`: `actorOf` under a generated name, built by the
        same rule as in the current system. */
    method ActorOfGenerated(cls: Runtime.ActorClass<S, M>, mode: ActorMode, localHost: Option<string>,
                            uuidText: string)
      returns (r: Result<LegacyRef<S, M>, Fault>, ghost reference: LegacyRef<S, M>)
      requires Valid()
      modifies this`actors, this`remoteActors
      ensures Valid()
      ensures Registered(cls, mode, GeneratedName(mode, localHost, uuidText), r, reference)
      ensures forall o | o in Footprint() :: o in old(Footprint()) || fresh(o)
    {
      var host := LoopbackHost;
      if mode == REMOTE {
        if localHost.Some? {
          host := localHost.value;
        }
        r, reference := ActorOf(cls, mode, host + "/" + uuidText);
      } else {
        r, reference := ActorOf(cls, mode, uuidText);
      }
    }

    /** `actorOf(actor)`: `actorOf(actor, LOCAL)`. */
    method ActorOfLocal(cls: Runtime.ActorClass<S, M>, uuidText: string)
      returns (r: Result<LegacyRef<S, M>, Fault>, ghost reference: LegacyRef<S, M>)
      requires Valid()
      modifies this`actors, this`remoteActors
      ensures Valid()
      ensures Registered(cls, LOCAL, uuidText, r, reference)
      ensures forall o | o in Footprint() :: o in old(Footprint()) || fresh(o)
    {
      r, reference := ActorOfGenerated(cls, LOCAL, None, uuidText);
    }

    /** `stop(ref)`: a reference that is not a local key throws
        `NoSuchActorException` and changes nothing. A registered one has its
        actor drained and stopped, and exactly that key leaves the local map. */
    method Stop(ref: LegacyRef<S, M>) returns (o: Outcome<Fault>)
      requires Valid()
      modifies this`actors, LocalTarget(ref)
      ensures Valid() && Footprint() <= old(Footprint())
      ensures remoteActors == old(remoteActors)
      ensures ref !in old(actors) ==> o == Fail(NoSuchActor) && actors == old(actors)
      ensures ref in old(actors) ==> && o == Pass
                                     && actors == old(actors) - {ref}
                                     && old(actors)[ref].DrainedAndStopped()
    {
      if ref !in actors {
        return Fail(NoSuchActor);
      }
      var actor := actors[ref];
      actor.Stop();
      actors := actors - {ref};
      assert forall a | a in actors.Values :: a in old(actors).Values;
      o := Pass;
    }

    /** `stop()`: drains and stops every local actor, then empties the local
        map. */
    method StopAll()
      requires Valid()
      modifies this`actors, Footprint()
      ensures Valid()
      ensures actors == map[] && remoteActors == old(remoteActors)
      ensures forall a | a in old(actors).Values :: a.DrainedAndStopped()
    {
      StopEach(actors.Values);
      actors := map[];
    }
  }

  /** Two LOCAL actors created under the same name are both registered, under
      two different references, and stopping one leaves the other in place;
      the current system, keyed by name, would keep only the second. */
  method SameNameTwice<S, M>(cls: Runtime.ActorClass<S, M>, name: string)
    returns (system: ActorSystem<S, M>, first: LegacyRef<S, M>, second: LegacyRef<S, M>)
    requires cls.instantiable
    ensures first != second && first.name == name && second.name == name
    ensures system.actors.Keys == {second}
  {
    system := new ActorSystem<S, M>();
    var r1, ref1 := system.ActorOf(cls, LOCAL, name);
    var r2, ref2 := system.ActorOf(cls, LOCAL, name);
    first, second := r1.value, r2.value;
    assert system.actors.Keys == {first, second};
    var stopped := system.Stop(first);
  }

  /** Stopping the same reference twice: the first call stops the actor, the
      second throws `NoSuchActorException`. */
  method StopTwice<S, M>(cls: Runtime.ActorClass<S, M>, name: string)
    returns (firstStop: Outcome<Fault>, secondStop: Outcome<Fault>)
    requires cls.instantiable
    ensures firstStop == Pass && secondStop == Fail(NoSuchActor)
  {
    var system := new ActorSystem<S, M>();
    var r, ref := system.ActorOf(cls, LOCAL, name);
    firstStop := system.Stop(r.value);
    secondStop := system.Stop(r.value);
  }
}
