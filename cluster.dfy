/** The cluster layer (`ClusterImpl`): every node wraps the actor system of
    its process, knows a set of member ids, and reaches the other nodes
    through a naming directory keyed by member id. A call made on another
    node's object stands for the remote call the node makes through the
    directory. */
module Cluster {
  import opened Wrappers
  import opened Modes
  import opened Names
  import opened ActorLifecycle
  import opened Runtime

  /** An exception a cluster operation lets escape: indexing the empty array
      of matching members, or an exception of the actor system. */
  datatype ClusterError = IndexOutOfBounds | Raised(fault: Fault)

  /** How `stop(ref)` ends on this node.
      - `StoppedHere`: the actor was local and is stopped.
      - `ForwardedTo(memberName, member)`: the name is only remote and `stop`
        is re-issued on the member owning it; that call is the next hop.
      - `Unreachable(memberName)`: the owning member is not bound; the
        exception is printed and nothing happens.
      - `Failed(e)`: `stop` throws `e`. */
  datatype StopRoute<S, M> =
    | StoppedHere
    | ForwardedTo(memberName: string, member: Node<S, M>)
    | Unreachable(memberName: string)
    | Failed(error: ClusterError)

  /** The part of the naming registry that binds cluster nodes by member id. */
  class Directory<S, M> {
    var bound: map<string, Node<S, M>>

    /** An empty directory. */
    constructor ()
      ensures bound == map[] && Valid()
    {
      bound := map[];
    }

    /** `Naming.bind`: refuses an id that is already bound. */
    method Bind(id: string, node: Node<S, M>) returns (o: Outcome<NamingError>)
      modifies this`bound
      ensures id in old(bound) ==> o == Fail(AlreadyBound) && bound == old(bound)
      ensures id !in old(bound) ==> o == Pass && bound == old(bound)[id := node]
    {
      if id in bound {
        return Fail(AlreadyBound);
      }
      bound := bound[id := node];
      o := Pass;
    }

    /** `Naming.lookup`: the node bound under `id`, or `None` for
        `NotBoundException`. */
    function Lookup(id: string): (r: Option<Node<S, M>>)
      reads this`bound
      ensures r.Some? <==> id in bound
      ensures r.Some? ==> r.value == bound[id]
    {
      if id in bound then Some(bound[id]) else None
    }

    /** The bound nodes. */
    ghost function Nodes(): set<Node<S, M>>
      reads this`bound
    {
      bound.Values
    }

    /** The actor systems of the bound nodes. */
    ghost function Systems(): set<ActorSystem<S, M>>
      reads this`bound
    {
      set id | id in bound :: bound[id].system
    }

    /** The system of the node bound under `id`, if any. */
    ghost function SystemOf(id: string): set<ActorSystem<S, M>>
      reads this`bound
    {
      if id in bound then {bound[id].system} else {}
    }

    /** The reference registries of the bound nodes' systems. */
    ghost function Registries(): set<Registry<S, M>>
      reads this`bound
    {
      set id | id in bound :: bound[id].system.registry
    }

    /** The local actors of every bound node and their mailboxes. */
    ghost function Footprint(): set<object>
      reads this`bound, Systems()`actors
    {
      set s, o | s in Systems() && o in s.Footprint() :: o
    }

    /** The local actors of the node bound under `id`, if any. */
    ghost function ActorsOf(id: string): set<RuntimeActor<S, M>>
      reads this`bound, Systems()`actors
    {
      if id in bound then bound[id].system.actors.Values else {}
    }

    /** The local actors and mailboxes of the node bound under `id`, if any. */
    ghost function FootprintOf(id: string): set<object>
      reads this`bound, Systems()`actors
    {
      if id in bound then bound[id].system.Footprint() else {}
    }

    /** The actors of a bound member, and their mailboxes, lie in the
        footprint of its system, and so in the directory's footprint. */
    lemma ActorsInFootprint(x: string)
      requires Valid()
      ensures forall a | a in ActorsOf(x) :: a in FootprintOf(x) && a.mailBox in FootprintOf(x)
      ensures forall a | a in ActorsOf(x) :: a in Footprint() && a.mailBox in Footprint()
    {
      if x in bound {
        var s := bound[x].system;
        assert s in Systems();
        forall a | a in ActorsOf(x)
          ensures a in s.Footprint() && a.mailBox in s.Footprint()
        {
          assert a.mailBox in s.MailBoxes();
        }
      }
    }

    /** The actors of a bound member, and their mailboxes, are in the
        footprint, and two members share no actor and no mailbox. */
    lemma ActorsApart(x: string, y: string)
      requires Valid()
      ensures forall a | a in ActorsOf(x) :: a in Footprint() && a.mailBox in Footprint()
      ensures x != y ==> ActorsOf(x) !! ActorsOf(y) && MailBoxesOf(ActorsOf(x)) !! MailBoxesOf(ActorsOf(y))
    {
      ActorsInFootprint(x);
      ActorsInFootprint(y);
      if x != y && x in bound && y in bound {
        var s, t := bound[x].system, bound[y].system;
        assert s in Systems() && t in Systems() && s != t;
        assert s.Footprint() !! t.Footprint();
        forall a | a in ActorsOf(x)
          ensures a !in ActorsOf(y) && a.mailBox !in MailBoxesOf(ActorsOf(y))
        {
          assert a in s.Footprint() && a.mailBox in s.Footprint();
        }
      }
    }

    /** A record of the actors of the members in `acts`, taken from a
        well-formed directory, lies in its footprint and shares no actor and
        no mailbox between two members. */
    lemma Snapshot(acts: map<string, set<RuntimeActor<S, M>>>)
      requires Valid() && forall k | k in acts :: acts[k] == ActorsOf(k)
      ensures Apart(acts)
      ensures forall a: RuntimeActor<S, M> | a in Flat(acts) :: a in Footprint() && a.mailBox in Footprint()
    {
      forall j, k | j in acts && k in acts
        ensures forall a: RuntimeActor<S, M> | a in acts[k] :: a in Footprint() && a.mailBox in Footprint()
        ensures j != k ==> acts[j] !! acts[k] && MailBoxesOf(acts[j]) !! MailBoxesOf(acts[k])
      {
        ActorsApart(k, j);
      }
    }

    /** Every node is bound under its own id and knows this directory. */
    ghost predicate Coherent()
      reads this`bound
    {
      forall id | id in bound :: bound[id].uuid == id && bound[id].directory == this
    }

    /** Every node is bound under its own id and knows this directory, every
        node runs its own actor system, each system keeps its invariant, and
        no actor or mailbox belongs to two systems. */
    ghost predicate Valid()
      reads this`bound, Systems()`actors, Footprint()
    {
      && Coherent()
      && (forall x, y | x in bound && y in bound && x != y :: bound[x].system != bound[y].system)
      && (forall s | s in Systems() :: s.Valid())
      && (forall s, t | s in Systems() && t in Systems() && s != t :: s.Footprint() !! t.Footprint())
    }

    /** A step that changes none of what `Valid` depends on keeps it. */
    twostate lemma Framed()
      requires old(Valid())
      requires unchanged(this`bound) && unchanged(old(Footprint()))
      requires forall s | s in old(Systems()) :: unchanged(s`actors)
      ensures Valid()
    {
    }

    /** Nothing that a cluster operation may change has changed: the local and
        remote maps and the reference registry of every bound system. */
    twostate predicate Untouched()
      reads this`bound, Systems(), Registries()
    {
      && bound == old(bound)
      && forall s | s in Systems() ::
           && s.actors == old(s.actors) && s.remoteActors == old(s.remoteActors)
           && s.registry.bound == old(s.registry.bound)
    }

    /** Only `s` and the systems in `targets` were touched: every other bound
        system keeps its local actors, every system outside `targets` other
        than `s` keeps its remote map, and every registry other than that of
        `s` keeps its bindings. */
    twostate predicate Confined(s: ActorSystem<S, M>, targets: set<ActorSystem<S, M>>)
      reads this`bound, Systems(), Registries()
    {
      && (forall t | t in Systems() && old(allocated(t)) && t != s :: t.actors == old(t.actors))
      && (forall t | t in Systems() && old(allocated(t)) && t != s && t !in targets ::
            t.remoteActors == old(t.remoteActors))
      && (forall t | t in Systems() && old(allocated(t)) && old(allocated(t.registry)) && t.registry != s.registry ::
            t.registry.bound == old(t.registry.bound))
    }

    /** A step that changes the local actors of one bound system, keeps that
        system well-formed and adds only fresh actors and mailboxes to it, and
        leaves every other system's actors alone, keeps `Valid`. */
    twostate lemma Evolved(s: ActorSystem<S, M>)
      requires old(Valid()) && s in old(Systems())
      requires unchanged(this`bound)
      requires s.Valid() && forall o | o in s.Footprint() :: o in old(s.Footprint()) || fresh(o)
      requires forall t | t in old(Systems()) && t != s :: unchanged(t`actors) && unchanged(old(t.Footprint()))
      ensures Valid()
    {
      forall t | t in Systems() && t != s
        ensures t.Footprint() == old(t.Footprint()) && t.Valid()
      {
      }
    }

    /** `Naming.bind` of a node under its own id. The node runs a new,
        well-formed system disjoint from the bound ones, so binding it keeps
        `Valid`. */
    method Admit(node: Node<S, M>) returns (o: Outcome<NamingError>)
      requires Valid() && node.directory == this
      requires node.system !in Systems() && node.system.Valid() && node.system.Footprint() !! Footprint()
      modifies this`bound
      ensures node.uuid in old(bound) ==> o == Fail(AlreadyBound) && bound == old(bound)
      ensures node.uuid !in old(bound) ==> o == Pass && bound == old(bound)[node.uuid := node] && Valid()
    {
      o := Bind(node.uuid, node);
      if o.Pass? {
        Extended(node);
      }
    }

    /** Binding a node that is new to the directory, whose system is
        well formed and shares nothing with the bound systems, keeps
        `Valid` while no system changes. */
    twostate lemma Extended(node: Node<S, M>)
      requires old(Valid()) && node.directory == this && node.uuid !in old(bound)
      requires old(node.system !in Systems() && node.system.Valid() && node.system.Footprint() !! Footprint())
      requires bound == old(bound)[node.uuid := node]
      requires unchanged(old(Footprint())) && unchanged(old(node.system.Footprint()))
      requires forall s | s in old(Systems()) :: unchanged(s`actors)
      requires unchanged(node.system`actors)
      ensures Valid()
    {
      var id := node.uuid;
      forall x | x in Systems()
        ensures x in old(Systems()) + {node.system}
      {
        var k :| k in bound && bound[k].system == x;
        if k != id {
          assert k in old(bound) && old(bound)[k].system == x;
        }
      }
      forall x | x in old(Systems())
        ensures x in Systems()
      {
        var k :| k in old(bound) && old(bound)[k].system == x;
        assert k in bound && bound[k].system == x;
      }
      assert node.system in Systems() by {
        assert bound[id] == node;
      }
      assert Systems() == old(Systems()) + {node.system};
      forall s | s in old(Systems())
        ensures s.Footprint() == old(s.Footprint()) && s.Valid()
      {
      }
    }

  }

  /** The record `stop()` takes when it begins: the members it stops, the
      local actors of each, and what each of those actors had handled and
      held at that moment. */
  datatype Ledger<S, M> = Ledger(all: set<string>,
                                 acts: map<string, set<RuntimeActor<S, M>>>,
                                 history: map<RuntimeActor<S, M>, Trace<S, M, Sender<S, M>>>)

  /** Every actor recorded in `acts`. */
  ghost function Flat<S, M>(acts: map<string, set<RuntimeActor<S, M>>>): set<RuntimeActor<S, M>>
  {
    set k, a | k in acts && a in acts[k] :: a
  }

  /** No actor, and no mailbox, is recorded under two ids of `acts`. */
  ghost predicate Apart<S, M>(acts: map<string, set<RuntimeActor<S, M>>>)
  {
    forall j, k | j in acts && k in acts && j != k :: acts[j] !! acts[k] && MailBoxesOf(acts[j]) !! MailBoxesOf(acts[k])
  }

  /** What `l` records of its actors while the members `pending` are not
      stopped yet: those of the pending members are as recorded, and those
      of the other members have been drained and stopped since. */
  ghost predicate Recorded<S, M>(l: Ledger<S, M>, pending: set<string>)
    reads Flat(l.acts), MailBoxesOf(Flat(l.acts))
  {
    && (forall k, a | k in pending && k in l.acts && a in l.acts[k] :: a in l.history && a.History() == l.history[a])
    && (forall k, a | k in l.all - pending && k in l.acts && a in l.acts[k] ::
          a in l.history && a.DrainedSince(l.history[a]))
  }

  /** An actor recorded under another id than `step.0` in the actors
      `step.1` is, by `Apart`, neither one of that member's actors nor on
      one of their mailboxes, so it has not moved. */
  twostate lemma OthersUnmoved<S, M>(step: (string, map<string, set<RuntimeActor<S, M>>>))
    requires step.0 in step.1 && Apart(step.1)
    requires forall a | a in Flat(step.1) && a !in step.1[step.0]
                        && a.mailBox !in MailBoxesOf(step.1[step.0]) :: a.Unmoved()
    ensures forall k, a | k in step.1 && k != step.0 && a in step.1[k] :: a.Unmoved()
  {
    var id, acts := step.0, step.1;
    forall k, a: RuntimeActor<S, M> | k in acts && k != id && a in acts[k]
      ensures a.Unmoved()
    {
      assert a in Flat(acts) && a !in acts[id] && a.mailBox in MailBoxesOf(acts[k]);
    }
  }

  /** Draining and stopping the actors of the pending member `step.0`
      (pending: `step.1`, ledger: `step.2`), and leaving the actors of every
      other member unmoved, keeps `Recorded` with that member no longer
      pending. */
  twostate lemma RecordAdvanced<S, M>(step: (string, set<string>, Ledger<S, M>))
    requires step.0 in step.1 && old(Recorded(step.2, step.1))
    requires forall a | step.0 in step.2.acts && a in step.2.acts[step.0] :: a.DrainedAndStopped()
    requires forall k, a | k in step.2.acts && k != step.0 && a in step.2.acts[k] :: a.Unmoved()
    ensures Recorded(step.2, step.1 - {step.0})
  {
    var id, pending, l := step.0, step.1, step.2;
    forall k, a | k in pending - {id} && k in l.acts && a in l.acts[k]
      ensures a in l.history && a.History() == l.history[a]
    {
      assert a.Unmoved() && old(a.History()) == l.history[a];
    }
    forall k, a | k in l.all - (pending - {id}) && k in l.acts && a in l.acts[k]
      ensures a in l.history && a.DrainedSince(l.history[a])
    {
      if k == id {
        assert a.DrainedAndStopped() && old(a.History()) == l.history[a];
      } else {
        assert a.Unmoved() && old(a.DrainedSince(l.history[a]));
      }
    }
  }

  /** Whether a node with id `uuid` on `host`, created while the directory
      bound `before`, makes the existing node `n` join it: only the seed does,
      and only when the new node is not the seed and could bind its id. */
  ghost predicate Joins<S, M>(before: map<string, Node<S, M>>, host: string, seedHost: string, uuid: string,
                              n: Node<S, M>)
  {
    && uuid !in before && host != seedHost
    && MasterId(seedHost) in before && before[MasterId(seedHost)] == n
  }

  /** An exception of the actor system, as it escapes a cluster call. */
  function Lift<S, M>(r: Result<ActorRef<S, M>, Fault>): Result<ActorRef?<S, M>, ClusterError>
  {
    match r
    case Success(ref) => Success(ref)
    case Failure(fault) => Failure(Raised(fault))
  }

  class Node<S, M> {
    /** The member id. */
    const uuid: string
    /** The seed host. */
    const seed: string
    const system: ActorSystem<S, M>
    const directory: Directory<S, M>
    /** The member ids this node knows; it only grows. */
    var members: set<string>

    /** `new ClusterImpl(system, host, seedHost)`: the node computes its id,
        binds itself under it, joins itself and, unless it is the seed, asks
        the seed to add it. When the id is already bound the exception is
        printed and the remaining steps are skipped, so the node knows no
        member at all. */
    constructor (system: ActorSystem<S, M>, host: string, seedHost: string, uuidText: string,
                 directory: Directory<S, M>)
      requires directory.Valid() && system.Valid()
      requires system !in directory.Systems() && system.Footprint() !! directory.Footprint()
      modifies directory`bound, directory.Nodes()`members, system`remoteActors
      ensures uuid == NodeId(host, seedHost, uuidText) && seed == seedHost
      ensures this.system == system && this.directory == directory
      ensures uuid in old(directory.bound) ==> && members == {} && directory.bound == old(directory.bound)
                                                && system.remoteActors == old(system.remoteActors)
      ensures uuid !in old(directory.bound) ==> && Valid() && members == {uuid}
                                                 && directory.bound == old(directory.bound)[uuid := this]
      ensures forall n | n in old(directory.bound.Values) ::
                n.members == if Joins(old(directory.bound), host, seedHost, uuid, n)
                             then old(n.members) + {uuid} else old(n.members)
      ensures uuid !in old(directory.bound) && host != seedHost && MasterId(seedHost) in old(directory.bound) ==>
                system.remoteActors == old(system.remoteActors)
                                       + old(directory.bound[MasterId(seedHost)].system.remoteActors)
      ensures uuid in old(directory.bound) || host == seedHost || MasterId(seedHost) !in old(directory.bound) ==>
                system.remoteActors == old(system.remoteActors)
    {
      this.uuid := NodeId(host, seedHost, uuidText);
      this.seed := seedHost;
      this.system := system;
      this.directory := directory;
      members := {};
      new;
      var bound := directory.Admit(this);
      if bound.Pass? {
        Enroll(host, seedHost, old(directory.bound));
      }
    }

    /** The rest of the constructor once the id is bound: the node joins
        itself and, unless it is the seed, asks the seed to add it. */
    method Enroll(host: string, seedHost: string, ghost before: map<string, Node<S, M>>)
      requires Valid() && members == {}
      requires uuid !in before && this !in before.Values && directory.bound == before[uuid := this]
      modifies directory.Nodes()`members, directory.SystemOf(uuid)`remoteActors
      ensures Valid() && members == {uuid}
      ensures forall n | n in before.Values ::
                n.members == if Joins(before, host, seedHost, uuid, n) then old(n.members) + {uuid} else old(n.members)
      ensures host != seedHost && MasterId(seedHost) in before ==>
                system.remoteActors == old(system.remoteActors) + old(before[MasterId(seedHost)].system.remoteActors)
      ensures host == seedHost || MasterId(seedHost) !in before ==>
                system.remoteActors == old(system.remoteActors)
    {
      Join(uuid);
      if host != seedHost {
        AskSeed(seedHost, before);
      }
    }

    /** `updateMembers(seedHost, uuid)` of a node that knows only itself: of
        the nodes bound before it, only the seed adds its id, and the seed's
        remote map is copied into its own. */
    method AskSeed(seedHost: string, ghost before: map<string, Node<S, M>>)
      requires Valid() && members == {uuid}
      requires uuid !in before && this !in before.Values && directory.bound == before[uuid := this]
      modifies directory.Nodes()`members, directory.SystemOf(uuid)`remoteActors
      ensures Valid() && members == {uuid}
      ensures forall n | n in before.Values ::
                n.members == if MasterId(seedHost) in before && before[MasterId(seedHost)] == n
                             then old(n.members) + {uuid} else old(n.members)
      ensures MasterId(seedHost) in before ==>
                system.remoteActors == old(system.remoteActors) + old(before[MasterId(seedHost)].system.remoteActors)
      ensures MasterId(seedHost) !in before ==> system.remoteActors == old(system.remoteActors)
    {
      assert JoinTargets(seedHost, uuid) == Seed(seedHost);
      UpdateMembers(seedHost, uuid);
    }

    /** The node is bound under its id in a well-formed directory. */
    ghost predicate Valid()
      reads directory`bound, directory.Systems()`actors, directory.Footprint()
    {
      directory.Valid() && uuid in directory.bound && directory.bound[uuid] == this
    }

    /** `join(name)`: adds a member id; the member set is no part of the
        directory's well-formedness. */
    method Join(name: string)
      modifies this`members
      ensures members == old(members) + {name}
      ensures old(Valid()) ==> Valid()
    {
      members := members + {name};
    }

    /** `addRemoteRef(name, ref)`: records a remote entry in this node's
        system. */
    method AddRemoteRef(name: string, ref: ActorRef<S, M>)
      modifies system`remoteActors
      ensures system.remoteActors == old(system.remoteActors)[name := ref]
    {
      system.AddRemoteRef(name, ref);
    }

    /** `actorSelection(address)`: the reference bound under `address`, or
        null when nothing is. */
    function ActorSelection(address: string): (r: ActorRef?<S, M>)
      reads system.registry
      ensures r != null <==> address in system.registry.bound
      ensures r != null ==> r == system.registry.bound[address]
    {
      var lookup := system.registry.Lookup(address);
      if lookup.Success? then lookup.value else null
    }

    /** The systems that the private `updateRemoteActors` reaches: those of the
        bound members other than this node, and the seed's. */
    ghost function PublishTargets(): set<ActorSystem<S, M>>
      reads this`members, directory`bound
    {
      (set id | id in members - {uuid} && id in directory.bound :: directory.bound[id].system)
      + directory.SystemOf(MasterId(seed))
    }

    /** The private `updateRemoteActors(name, ref)`: every other bound member
        and the seed record `ref` under `name`. */
    method Publish(name: string, ref: ActorRef<S, M>)
      modifies PublishTargets()`remoteActors
      ensures forall s | s in PublishTargets() :: s.remoteActors == old(s.remoteActors)[name := ref]
    {
      var others := members - {uuid};
      while others != {}
        invariant others <= members - {uuid}
        invariant forall s | s in PublishTargets() ::
                    s.remoteActors == old(s.remoteActors) || s.remoteActors == old(s.remoteActors)[name := ref]
        invariant forall id | id in members - {uuid} - others && id in directory.bound ::
                    directory.bound[id].system.remoteActors == old(directory.bound[id].system.remoteActors)[name := ref]
        decreases others
      {
        var id :| id in others;
        var member := directory.Lookup(id);
        if member.Some? {
          member.value.AddRemoteRef(name, ref);
        }
        others := others - {id};
      }
      var master := directory.Lookup(MasterId(seed));
      if master.Some? {
        master.value.AddRemoteRef(name, ref);
      }
    }

    /** The effect of `actorOf(cls, LOCAL, name)` on this node: the system
        registered the actor as `actorOf` does, and when it did, every system
        in `targets` recorded the new reference under `name`. */
    twostate predicate Spawned(cls: ActorClass<S, M>, name: string, targets: set<ActorSystem<S, M>>,
                               new r: Result<ActorRef<S, M>, Fault>, new reference: ActorRef<S, M>)
      reads system, system.registry, reference, system.Footprint(), targets
    {
      && system.Instantiated(cls, name, r, reference)
      && (!cls.instantiable ==>
            && system.actors == old(system.actors) && system.remoteActors == old(system.remoteActors)
            && forall t | t in targets :: t.remoteActors == old(t.remoteActors))
      && (cls.instantiable ==>
            && system.Installed(cls, name)
            && (forall t | t in targets :: t.remoteActors == old(t.remoteActors)[name := reference])
            && (system !in targets ==> system.remoteActors == old(system.remoteActors)))
    }

    /** `actorOf(cls, LOCAL, name)`: the local system creates the actor, then
        every other member and the seed learn its reference. When the system
        throws, nothing is published. */
    method LocalActorOf(cls: ActorClass<S, M>, name: string)
      returns (r: Result<ActorRef<S, M>, Fault>, ghost reference: ActorRef<S, M>)
      requires Valid()
      modifies system`actors, system`remoteActors, system.registry, PublishTargets()`remoteActors
      ensures Valid()
      ensures Spawned(cls, name, old(PublishTargets()), r, reference)
    {
      r, reference := Create(cls, name);
      if r.Success? {
        assert PublishTargets() == old(PublishTargets());
        assert forall t | t in PublishTargets() :: t.remoteActors == old(t.remoteActors);
        Announce(name, r.value);
      }
    }

    /** `actorOf(cls, LOCAL, name)` as a cluster call returns it: an exception
        of the system escapes, a created actor is returned, and only this
        node's system and the systems it publishes to change. */
    method Spawn(cls: ActorClass<S, M>, name: string)
      returns (r: Result<ActorRef?<S, M>, ClusterError>, ghost created: Result<ActorRef<S, M>, Fault>,
               ghost reference: ActorRef<S, M>)
      requires Valid()
      modifies system`actors, system`remoteActors, system.registry, PublishTargets()`remoteActors
      ensures Valid()
      ensures created.Failure? ==> r == Failure(Raised(created.error))
      ensures created.Success? ==> r == Success(created.value) && created.value == reference
      ensures Spawned(cls, name, old(PublishTargets()), created, reference)
      ensures directory.Confined(system, old(PublishTargets()))
    {
      var result;
      result, reference := LocalActorOf(cls, name);
      r, created := Lift(result), result;
    }

    /** The first half of `actorOf(cls, LOCAL, name)`: the local system
        creates the actor, and no other system changes. */
    method Create(cls: ActorClass<S, M>, name: string)
      returns (r: Result<ActorRef<S, M>, Fault>, ghost reference: ActorRef<S, M>)
      requires Valid()
      modifies system`actors, system`remoteActors, system.registry
      ensures Valid()
      ensures system.Registered(cls, LOCAL, name, r, reference)
    {
      r, reference := system.ActorOf(cls, LOCAL, name);
      directory.Evolved(system);
    }

    /** `Publish` on a well-formed directory keeps it well formed. */
    method Announce(name: string, ref: ActorRef<S, M>)
      requires Valid()
      modifies PublishTargets()`remoteActors
      ensures Valid()
      ensures forall s | s in old(PublishTargets()) :: s.remoteActors == old(s.remoteActors)[name := ref]
      ensures system.actors == old(system.actors) && unchanged(system.Footprint())
    {
      Publish(name, ref);
      directory.Framed();
    }

    /** The member ids this node knows that live on host `addr`. */
    ghost function Owners(addr: string): set<string>
      reads this`members
    {
      set x | x in members && HostOwner(x, addr)
    }

    /** `actorOf(cls, mode, name)`. A LOCAL actor is created here and
        published. A REMOTE name is created, as a LOCAL actor, on a member this
        node knows on the host before the first `/` of `name`: no such member
        (or a name of slashes only) throws `ArrayIndexOutOfBoundsException`, and
        an unbound member is printed and gives null. */
    method ActorOf(cls: ActorClass<S, M>, mode: ActorMode, name: string)
      returns (r: Result<ActorRef?<S, M>, ClusterError>, ghost memberName: string, ghost host: Node<S, M>,
               ghost created: Result<ActorRef<S, M>, Fault>, ghost reference: ActorRef?<S, M>)
      requires Valid()
      modifies directory.Systems()`actors, directory.Systems()`remoteActors, directory.Registries()
      ensures Valid()
      ensures mode == LOCAL ==>
                && memberName == uuid && host == this && r == Lift(created) && reference != null
                && (created.Failure? ==> r == Failure(Raised(created.error)))
                && (created.Success? ==> r == Success(created.value) && r.value == reference)
                && Spawned(cls, name, old(PublishTargets()), created, reference)
                && directory.Confined(system, old(PublishTargets()))
      ensures mode == REMOTE && (FirstSegment(name).None? || old(Owners(FirstSegment(name).value)) == {}) ==>
                r == Failure(IndexOutOfBounds) && directory.Untouched()
      ensures mode == REMOTE && FirstSegment(name).Some? && old(Owners(FirstSegment(name).value)) != {} ==>
                && memberName in old(Owners(FirstSegment(name).value))
                && (memberName !in directory.bound ==> r == Success(null) && directory.Untouched())
                && (memberName in directory.bound ==>
                      && host == directory.bound[memberName] && r == Lift(created) && reference != null
                      && (created.Failure? ==> r == Failure(Raised(created.error)))
                      && (created.Success? ==> r == Success(created.value) && r.value == reference)
                      && host.Spawned(cls, name, old(host.PublishTargets()), created, reference)
                      && directory.Confined(host.system, old(host.PublishTargets())))
    {
      memberName, host, created, reference := uuid, this, Failure(NoSuchActor), null;
      ghost var ref;
      if mode == LOCAL {
        r, created, ref := Spawn(cls, name);
        reference := ref;
        return;
      }
      var addr := FirstSegment(name);
      if addr.None? {
        return Failure(IndexOutOfBounds), memberName, host, created, reference;
      }
      var owners := set x | x in members && HostOwner(x, addr.value);
      if owners == {} {
        return Failure(IndexOutOfBounds), memberName, host, created, reference;
      }
      var chosen :| chosen in owners;
      memberName := chosen;
      var member := directory.Lookup(chosen);
      if member.None? {
        return Success(null), memberName, host, created, reference;
      }
      host := member.value;
      r, created, ref := member.value.Spawn(cls, name);
      reference := ref;
    }

    /** `stop(ref)`. A local name is stopped by the local system. A name that
        is only remote is re-issued on the member owning it, picked as in
        `actorOf`; any other name throws `NoSuchActorException`. */
    method Stop(ref: ActorRef<S, M>) returns (route: StopRoute<S, M>)
      requires Valid()
      modifies system`actors, system.LocalTarget(ref.name)
      ensures Valid()
      ensures old(system.Contains(ref)) ==>
                && route == StoppedHere && system.actors == old(system.actors) - {ref.name}
                && old(system.actors[ref.name]).DrainedAndStopped()
      ensures !old(system.Contains(ref)) ==> system.actors == old(system.actors)
      ensures !old(system.Contains(ref)) && !system.ContainsRemote(ref.name) ==>
                route == Failed(Raised(NoSuchActor))
      ensures !old(system.Contains(ref)) && system.ContainsRemote(ref.name)
              && (FirstSegment(ref.name).None? || Owners(FirstSegment(ref.name).value) == {}) ==>
                route == Failed(IndexOutOfBounds)
      ensures !old(system.Contains(ref)) && system.ContainsRemote(ref.name)
              && FirstSegment(ref.name).Some? && Owners(FirstSegment(ref.name).value) != {} ==>
                && (route.ForwardedTo? || route.Unreachable?)
                && route.memberName in Owners(FirstSegment(ref.name).value)
                && (route.ForwardedTo? <==> route.memberName in directory.bound)
                && (route.ForwardedTo? ==> route.member == directory.bound[route.memberName])
    {
      if system.Contains(ref) {
        var stopped := system.Stop(ref);
        directory.Evolved(system);
        return StoppedHere;
      }
      if !system.ContainsRemote(ref.name) {
        return Failed(Raised(NoSuchActor));
      }
      var addr := FirstSegment(ref.name);
      if addr.None? {
        return Failed(IndexOutOfBounds);
      }
      var owners := set x | x in members && HostOwner(x, addr.value);
      if owners == {} {
        return Failed(IndexOutOfBounds);
      }
      var chosen :| chosen in owners;
      var member := directory.Lookup(chosen);
      if member.None? {
        return Unreachable(chosen);
      }
      route := ForwardedTo(chosen, member.value);
    }

    /** `stopSystem()`: stops every local actor of this node. */
    method StopSystem()
      requires Valid()
      modifies system`actors, system.Footprint()
      ensures Valid()
      ensures system.actors == map[] && system.remoteActors == old(system.remoteActors)
      ensures forall a | a in old(system.actors).Values :: a.DrainedAndStopped()
      ensures directory.Footprint() <= old(directory.Footprint())
      ensures forall n | n in directory.Nodes() && n.system != system :: n.system.actors == old(n.system.actors)
    {
      system.StopAll();
      directory.Evolved(system);
    }

    /** The members among `ids` that are bound have no local actor left. */
    ghost predicate Stopped(ids: set<string>)
      reads directory`bound, directory.Systems()`actors
    {
      forall k | k in ids && k in directory.bound :: directory.bound[k].system.actors == map[]
    }

    /** One step of `stop()`: the member bound under `id`, if any, drains and
        stops all its local actors, as the members in `done` already have.
        `actors` names those actors, so that the caller sees which objects
        the step may change. */
    method StopMember(id: string, ghost done: set<string>, ghost actors: set<RuntimeActor<S, M>>)
      requires Valid() && Stopped(done) && actors == directory.ActorsOf(id)
      modifies directory.SystemOf(id)`actors, actors, MailBoxesOf(actors)
      ensures Valid() && members == old(members) && directory.bound == old(directory.bound)
      ensures Stopped(done + {id})
      ensures forall a | a in old(directory.ActorsOf(id)) :: a.DrainedAndStopped()
      ensures forall k | k in directory.bound && k != id :: directory.ActorsOf(k) == old(directory.ActorsOf(k))
      ensures forall a: RuntimeActor<S, M> | old(allocated(a)) && a !in actors && a.mailBox !in MailBoxesOf(actors) ::
                a.Unmoved()
      ensures directory.Footprint() <= old(directory.Footprint())
    {
      var member := directory.Lookup(id);
      if member.Some? {
        forall a: RuntimeActor<S, M> | a !in actors && a.mailBox !in MailBoxesOf(actors)
          ensures a !in member.value.system.Footprint() && a.mailBox !in member.value.system.Footprint()
        {
        }
        member.value.StopSystem();
      }
    }

    /** How far `stop()` has got with the members `pending` still to stop:
        they hold the actors recorded for them, and `Recorded` holds. */
    ghost predicate Progress(l: Ledger<S, M>, pending: set<string>)
      reads directory`bound, directory.Systems()`actors, Flat(l.acts), MailBoxesOf(Flat(l.acts))
    {
      && (forall k | k in pending :: k in l.acts && directory.ActorsOf(k) == l.acts[k])
      && Recorded(l, pending)
    }

    /** Stopping the pending member `step.0` (pending: `step.1`, ledger:
        `step.2`), whose actors are drained and stopped while the other
        members keep theirs and no other recorded actor moves, keeps
        `Progress` with that member no longer pending. */
    twostate lemma Advanced(step: (string, set<string>, Ledger<S, M>))
      requires step.0 in step.1 && Apart(step.2.acts) && old(Progress(step.2, step.1))
      requires directory.bound == old(directory.bound)
      requires forall a | a in old(directory.ActorsOf(step.0)) :: a.DrainedAndStopped()
      requires forall k | k in directory.bound && k != step.0 :: directory.ActorsOf(k) == old(directory.ActorsOf(k))
      requires forall a | a in Flat(step.2.acts) && a !in step.2.acts[step.0]
                          && a.mailBox !in MailBoxesOf(step.2.acts[step.0]) :: a.Unmoved()
      ensures Progress(step.2, step.1 - {step.0})
    {
      var (id, pending, l) := step;
      forall k | k in pending - {id}
        ensures k in l.acts && directory.ActorsOf(k) == l.acts[k]
      {
        assert old(directory.ActorsOf(k)) == l.acts[k];
      }
      OthersUnmoved((id, l.acts));
      RecordAdvanced(step);
    }

    /** One turn of the loop of `stop()`, with the bookkeeping of `Progress`. */
    method StopStep(id: string, ghost pending: set<string>, ghost l: Ledger<S, M>)
      requires Valid() && id in pending && pending <= l.all && Stopped(l.all - pending)
      requires Apart(l.acts) && Progress(l, pending)
      modifies directory.Systems()`actors, directory.Footprint()
      ensures Valid() && members == old(members) && directory.bound == old(directory.bound)
      ensures Stopped(l.all - (pending - {id})) && directory.Footprint() <= old(directory.Footprint())
      ensures Progress(l, pending - {id})
    {
      directory.ActorsInFootprint(id);
      StopMember(id, l.all - pending, l.acts[id]);
      Advanced((id, pending, l));
    }

    /** Once no member is pending, every recorded actor has been drained and
        stopped since its history was taken. */
    twostate lemma Completed(new l: Ledger<S, M>)
      requires old(allocated(l)) && Progress(l, {})
      requires forall a | a in Flat(l.acts) :: a in l.history && l.history[a] == old(a.History())
      ensures forall k, a | k in l.all && k in l.acts && a in l.acts[k] :: a.DrainedAndStopped()
    {
      forall k, a | k in l.all && k in l.acts && a in l.acts[k]
        ensures a.DrainedAndStopped()
      {
        assert a in Flat(l.acts);
      }
    }

    /** `stop()`: every member this node knows and can look up drains and
        stops all its local actors. */
    method StopAll()
      requires Valid()
      modifies directory.Systems()`actors, directory.Footprint()
      ensures Valid()
      ensures Stopped(members)
      ensures forall k, a | k in members && a in old(directory.ActorsOf(k)) :: a.DrainedAndStopped()
    {
      var all := members;
      var pending := all;
      // The local actors of every known member, and what each had handled
      // and held, when `stop()` begins.
      ghost var acts: map<string, set<RuntimeActor<S, M>>> := map k | k in all :: directory.ActorsOf(k);
      ghost var ledger := Ledger(all, acts, map a | a in Flat(acts) :: a.History());
      directory.Snapshot(acts);
      assert allocated(ledger);
      while pending != {}
        invariant Valid() && members == all && directory.bound == old(directory.bound)
        invariant pending <= all && Stopped(all - pending) && directory.Footprint() <= old(directory.Footprint())
        invariant Progress(ledger, pending)
        decreases pending
      {
        var id :| id in pending;
        StopStep(id, pending, ledger);
        pending := pending - {id};
      }
      Completed(ledger);
    }

    /** The public `updateRemoteActors(newMember)`: every entry of this node's
        remote map is pushed to the member bound under `newMember`. */
    method UpdateRemoteActors(newMember: string)
      modifies directory.SystemOf(newMember)`remoteActors
      ensures newMember in directory.bound ==>
                var target := directory.bound[newMember].system;
                target.remoteActors == old(target.remoteActors) + old(system.remoteActors)
    {
      var entries := system.remoteActors;
      var pending := entries.Keys;
      while pending != {}
        invariant pending <= entries.Keys
        invariant newMember in directory.bound ==>
                    var target := directory.bound[newMember].system;
                    target.remoteActors == old(target.remoteActors) + (entries - pending)
        decreases pending
      {
        var key :| key in pending;
        var member := directory.Lookup(newMember);
        if member.Some? {
          member.value.AddRemoteRef(key, entries[key]);
          assert (old(member.value.system.remoteActors) + (entries - pending))[key := entries[key]]
              == old(member.value.system.remoteActors) + (entries - (pending - {key}));
        }
        pending := pending - {key};
      }
      assert entries - {} == entries;
    }
  
    /** The seed node, when it is bound. */
    ghost function Seed(seedHost: string): set<Node<S, M>>
      reads directory`bound
    {
      if MasterId(seedHost) in directory.bound then {directory.bound[MasterId(seedHost)]} else {}
    }

    /** The bound members this node knows, other than itself. */
    ghost function Peers(): set<Node<S, M>>
      reads this`members, directory`bound
    {
      set id | id in members - {uuid} && id in directory.bound :: directory.bound[id]
    }

    /** The nodes that `updateMembers(seedHost, memberName)` makes join
        `memberName`: the seed, then every member this node knows (by then)
        other than itself. */
    ghost function JoinTargets(seedHost: string, memberName: string): set<Node<S, M>>
      reads this`members, directory`bound
    {
      var known := if this in Seed(seedHost) then members + {memberName} else members;
      Seed(seedHost) + set id | id in known - {uuid} && id in directory.bound :: directory.bound[id]
    }

    /** The first half of `updateMembers`: the seed joins `memberName` and
        pushes its remote map to the member bound under it. */
    method SeedJoins(seedHost: string, memberName: string)
      requires directory.Coherent()
      modifies directory.Nodes()`members, directory.SystemOf(memberName)`remoteActors
      ensures forall n | n in directory.Nodes() ::
                n.members == if n in Seed(seedHost) then old(n.members) + {memberName} else old(n.members)
      ensures MasterId(seedHost) in directory.bound && memberName in directory.bound ==>
                var target := directory.bound[memberName].system;
                target.remoteActors == old(target.remoteActors)
                                       + old(directory.bound[MasterId(seedHost)].system.remoteActors)
      ensures MasterId(seedHost) !in directory.bound ==>
                forall s | s in directory.SystemOf(memberName) :: s.remoteActors == old(s.remoteActors)
    {
      var master := directory.Lookup(MasterId(seedHost));
      if master.Some? {
        master.value.Join(memberName);
        master.value.UpdateRemoteActors(memberName);
      }
    }

    /** The second half of `updateMembers`: every member this node knows,
        other than itself, joins `memberName`. */
    method PeersJoin(memberName: string)
      modifies directory.Nodes()`members
      ensures forall n | n in directory.Nodes() ::
                n.members == if n in old(Peers()) then old(n.members) + {memberName} else old(n.members)
    {
      var others := members - {uuid};
      ghost var known := others;
      ghost var joined: set<Node<S, M>> := {};
      while others != {}
        invariant others <= known
        invariant joined == set id | id in known - others && id in directory.bound :: directory.bound[id]
        invariant forall n | n in directory.Nodes() ::
                    n.members == if n in joined then old(n.members) + {memberName} else old(n.members)
        decreases others
      {
        var id :| id in others;
        var member := directory.Lookup(id);
        if member.Some? {
          member.value.Join(memberName);
          joined := joined + {member.value};
        }
        others := others - {id};
      }
    }

    /** The private `updateMembers(seedHost, memberName)`: the seed joins
        `memberName` and pushes its remote map to it; then every member this
        node knows, other than itself, joins `memberName`. The members are
        those of the calling node, not of the seed. */
    method UpdateMembers(seedHost: string, memberName: string)
      requires Valid()
      modifies directory.Nodes()`members, directory.SystemOf(memberName)`remoteActors
      ensures Valid()
      ensures forall n | n in directory.Nodes() ::
                n.members == if n in old(JoinTargets(seedHost, memberName))
                             then old(n.members) + {memberName} else old(n.members)
      ensures MasterId(seedHost) in directory.bound && memberName in directory.bound ==>
                var target := directory.bound[memberName].system;
                target.remoteActors == old(target.remoteActors)
                                       + old(directory.bound[MasterId(seedHost)].system.remoteActors)
      ensures MasterId(seedHost) !in directory.bound ==>
                forall s | s in directory.SystemOf(memberName) :: s.remoteActors == old(s.remoteActors)
    {
      SeedJoins(seedHost, memberName);
      PeersJoin(memberName);
      directory.Framed();
    }
  }
}
