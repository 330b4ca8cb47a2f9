/** The first-generation cluster layer (`it.unipd.math.pcd.actors.remote.ClusterImpl`)
    over the first-generation actor system. Its nodes compute their member id
    and join the seed as the current ones do, but a LOCAL actor is never
    announced, and a REMOTE actor is created locally and announced to the
    other members under the key `uuid + name`. */
module LegacyCluster {
  import opened Wrappers
  import opened Modes
  import opened Names
  import opened ActorLifecycle
  import opened LegacySystem
  import Runtime

  /** The part of the naming registry that binds first-generation nodes by
      member id. */
  class Directory<S, M> {
    var bound: map<string, Node<S, M>>

    /** An empty directory. */
    constructor ()
      ensures bound == map[] && Coherent()
    {
      bound := map[];
    }

    /** `Naming.bind`: refuses an id that is already bound. */
    method Bind(id: string, node: Node<S, M>) returns (o: Outcome<Runtime.NamingError>)
      modifies this`bound
      ensures id in old(bound) ==> o == Fail(Runtime.AlreadyBound) && bound == old(bound)
      ensures id !in old(bound) ==> o == Pass && bound == old(bound)[id := node]
    {
      if id in bound {
        return Fail(Runtime.AlreadyBound);
      }
      bound := bound[id := node];
      o := Pass;
    }

    /** `Naming.lookup`: the node bound under `id`, or `None` for
        `NotBoundException`. */
    function Lookup(id: string): (r: Option<Node<S, M>>)
      reads this`bound
      ensures r.Some? <==> id in bound
      ensures r.Some? ==> r.value == bound[id]
    {
      if id in bound then Some(bound[id]) else None
    }

    /** The bound nodes. */
    ghost function Nodes(): set<Node<S, M>>
      reads this`bound
    {
      bound.Values
    }

    /** Every node is bound under its own id, in this directory. */
    ghost predicate Coherent()
      reads this`bound
    {
      forall id | id in bound :: bound[id].uuid == id && bound[id].directory == this
    }
  }

  /** Whether the constructor of a node with id `uuid`, in a directory that
      binds `before`, makes the existing node `n` join it: only the seed does,
      and only when the new node is not the seed and could bind its id. */
  ghost predicate Joins<S, M>(before: map<string, Node<S, M>>, host: string, seedHost: string, uuid: string,
                              n: Node<S, M>)
  {
    && uuid !in before && host != seedHost
    && MasterId(seedHost) in before && before[MasterId(seedHost)] == n
  }

  class Node<S, M> {
    /** The member id. */
    const uuid: string
    const system: ActorSystem<S, M>
    const directory: Directory<S, M>
    /** The member ids this node knows; it only grows. */
    var members: set<string>

    /** `new ClusterImpl(system, host, seedHost)`: the node computes its id,
        binds itself under it, joins itself and, unless it is the seed, has
        the seed join it. When the id is already bound the exception is
        printed and the remaining steps are skipped. */
    constructor (system: ActorSystem<S, M>, host: string, seedHost: string, uuidText: string,
                 directory: Directory<S, M>)
      requires directory.Coherent()
      modifies directory`bound, directory.Nodes()`members
      ensures uuid == NodeId(host, seedHost, uuidText)
      ensures this.system == system && this.directory == directory && directory.Coherent()
      ensures uuid in old(directory.bound) ==> members == {} && directory.bound == old(directory.bound)
      ensures uuid !in old(directory.bound) ==> && Valid() && members == {uuid}
                                                 && directory.bound == old(directory.bound)[uuid := this]
      ensures forall n | n in old(directory.bound.Values) ::
                n.members == if Joins(old(directory.bound), host, seedHost, uuid, n)
                             then old(n.members) + {uuid} else old(n.members)
    {
      this.uuid := NodeId(host, seedHost, uuidText);
      this.system := system;
      this.directory := directory;
      members := {};
      new;
      var bound := directory.Bind(uuid, this);
      if bound.Pass? {
        Join(uuid);
        if host != seedHost {
          assert JoinTargets(seedHost, uuid) == Seed(seedHost);
          UpdateMembers(seedHost, uuid);
        }
      }
    }

    /** The node is bound under its id in a coherent directory. */
    ghost predicate Valid()
      reads directory`bound
    {
      directory.Coherent() && uuid in directory.bound && directory.bound[uuid] == this
    }

    /** `join(name)`: adds a member id. */
    method Join(name: string)
      modifies this`members
      ensures members == old(members) + {name}
    {
      members := members + {name};
    }

    /** Joining the same id twice leaves the members as joining it once. */
    method JoinTwice(name: string)
      modifies this`members
      ensures members == old(members) + {name}
    {
      Join(name);
      Join(name);
    }

    /** `addRemoteRef(name, ref)`: records a remote entry in this node's
        system. */
    method AddRemoteRef(name: string, ref: LegacyRef<S, M>)
      modifies system`remoteActors
      ensures system.remoteActors == old(system.remoteActors)[name := ref]
    {
      system.AddRemoteRef(name, ref);
    }

    /** The seed node, when it is bound. */
    ghost function Seed(seedHost: string): set<Node<S, M>>
      reads directory`bound
    {
      if MasterId(seedHost) in directory.bound then {directory.bound[MasterId(seedHost)]} else {}
    }

    /** The nodes that `updateMembers(seedHost, memberName)` makes join
        `memberName`: the seed, then every member this node knows (by then)
        other than itself. */
    ghost function JoinTargets(seedHost: string, memberName: string): set<Node<S, M>>
      reads this`members, directory`bound
    {
      var known := if this in Seed(seedHost) then members + {memberName} else members;
      Seed(seedHost) + set id | id in known - {uuid} && id in directory.bound :: directory.bound[id]
    }

    /** The bound members this node knows, other than itself. */
    ghost function Peers(): set<Node<S, M>>
      reads this`members, directory`bound
    {
      set id | id in members - {uuid} && id in directory.bound :: directory.bound[id]
    }

    /** The first half of `updateMembers`: the seed, when bound, joins
        `memberName`. */
    method SeedJoins(seedHost: string, memberName: string)
      modifies directory.Nodes()`members
      ensures forall n | n in directory.Nodes() ::
                n.members == if n in Seed(seedHost) then old(n.members) + {memberName} else old(n.members)
    {
      var master := directory.Lookup(MasterId(seedHost));
      if master.Some? {
        master.value.Join(memberName);
      }
    }

    /** The second half of `updateMembers`: every member this node knows,
        other than itself, joins `memberName`. */
    method PeersJoin(memberName: string)
      modifies directory.Nodes()`members
      ensures forall n | n in directory.Nodes() ::
                n.members == if n in old(Peers()) then old(n.members) + {memberName} else old(n.members)
    {
      var others := members - {uuid};
      ghost var known := others;
      ghost var joined: set<Node<S, M>> := {};
      while others != {}
        invariant others <= known
        invariant joined == set id | id in known - others && id in directory.bound :: directory.bound[id]
        invariant forall n | n in directory.Nodes() ::
                    n.members == if n in joined then old(n.members) + {memberName} else old(n.members)
        decreases others
      {
        var id :| id in others;
        var member := directory.Lookup(id);
        if member.Some? {
          member.value.Join(memberName);
          joined := joined + {member.value};
        }
        others := others - {id};
      }
    }

    /** The private `updateMembers(seedHost, memberName)`: the seed joins
        `memberName`, then every member this node knows, other than itself,
        joins it too. The members are those of the calling node. */
    method UpdateMembers(seedHost: string, memberName: string)
      modifies directory.Nodes()`members
      ensures forall n | n in directory.Nodes() ::
                n.members == if n in old(JoinTargets(seedHost, memberName))
                             then old(n.members) + {memberName} else old(n.members)
    {
      SeedJoins(seedHost, memberName);
      PeersJoin(memberName);
    }

    /** The systems of the bound members this node knows, other than itself:
        those the private `updateRemoteActors` reaches. */
    ghost function PeerSystems(): set<ActorSystem<S, M>>
      reads this`members, directory`bound
    {
      set id | id in members - {uuid} && id in directory.bound :: directory.bound[id].system
    }

    /** The private `updateRemoteActors(name, ref)`: every other bound member
        records `ref` under `name`. */
    method UpdateRemoteActors(name: string, ref: LegacyRef<S, M>)
      modifies PeerSystems()`remoteActors
      ensures forall s | s in PeerSystems() :: s.remoteActors == old(s.remoteActors)[name := ref]
    {
      var others := members - {uuid};
      while others != {}
        invariant others <= members - {uuid}
        invariant forall s | s in PeerSystems() ::
                    s.remoteActors == old(s.remoteActors) || s.remoteActors == old(s.remoteActors)[name := ref]
        invariant forall id | id in members - {uuid} - others && id in directory.bound ::
                    directory.bound[id].system.remoteActors == old(directory.bound[id].system.remoteActors)[name := ref]
        decreases others
      {
        var id :| id in others;
        var member := directory.Lookup(id);
        if member.Some? {
          member.value.AddRemoteRef(name, ref);
        }
        others := others - {id};
      }
    }

    /** The REMOTE half of `actorOf`, once the actor exists locally: this node
        records it under its name, and the other bound members under
        `uuid + name`. */
    method Announce(name: string, ref: LegacyRef<S, M>)
      modifies system`remoteActors, PeerSystems()`remoteActors
      ensures forall t | t in old(PeerSystems()) ::
                t.remoteActors == (if t == system then old(t.remoteActors)[name := ref]
                                   else old(t.remoteActors))[uuid + name := ref]
      ensures system !in old(PeerSystems()) ==> system.remoteActors == old(system.remoteActors)[name := ref]
    {
      AddRemoteRef(name, ref);
      UpdateRemoteActors(uuid + name, ref);
    }

    /** `actorOf(cls, mode, name)`. Either way the actor is created in this
        node's system as a LOCAL one, and an exception of the system escapes.
        A LOCAL actor is announced to nobody; a REMOTE one goes through
        `Announce`. */
    method ActorOf(cls: Runtime.ActorClass<S, M>, mode: ActorMode, name: string)
      returns (r: Result<LegacyRef<S, M>, Fault>, ghost reference: LegacyRef<S, M>)
      requires system.Valid()
      modifies system`actors, system`remoteActors, PeerSystems()`remoteActors
      ensures system.Valid()
      ensures system.Created(cls, name, r, reference)
      ensures !cls.instantiable ==> && system.actors == old(system.actors)
                                    && system.remoteActors == old(system.remoteActors)
                                    && forall t | t in old(PeerSystems()) :: t.remoteActors == old(t.remoteActors)
      ensures cls.instantiable ==> system.Installed(cls, reference)
      ensures cls.instantiable && mode == LOCAL ==>
                && system.remoteActors == old(system.remoteActors)
                && forall t | t in old(PeerSystems()) :: t.remoteActors == old(t.remoteActors)
      ensures cls.instantiable && mode == REMOTE ==>
                && (forall t | t in old(PeerSystems()) ::
                      t.remoteActors == (if t == system then old(t.remoteActors)[name := reference]
                                         else old(t.remoteActors))[uuid + name := reference])
                && (system !in old(PeerSystems()) ==>
                      system.remoteActors == old(system.remoteActors)[name := reference])
    {
      r, reference := system.ActorOf(cls, LOCAL, name);
      if mode == REMOTE && r.Success? {
        Announce(r.value.name, r.value);
      }
    }
  }
}
