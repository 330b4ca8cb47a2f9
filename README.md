# An actor runtime with a cluster layer, modelled in Dafny

The repository is a small Java actor runtime. An *actor* owns a FIFO mailbox and a user `receive` handler. The runtime hands each queued message to the handler on a worker thread (the receive loop). A `stop` drains whatever is still queued before the actor dies.

An *actor system* registers its actors in two maps:
- local actors, by name;
- references of actors that live on other nodes, by name.

A *reference* routes a `send` in one of three ways:
- to a local mailbox;
- to the reference of a remote actor, looked up in the naming registry;
- to a `NoSuchActorException`.

A *cluster node* wraps the system of its process. It computes a member id (`host/master` for the seed, `host/<uuid without dashes>` otherwise), binds itself in the naming registry and joins the seed. It then:
- announces the actors it creates to the other members;
- routes `actorOf`/`stop` calls for remote names to the member on the name's host.

The repository carries two generations of the system and the cluster:
- the first, in `it.unipd.math.pcd.actors`, keys the local map by reference and announces only REMOTE actors;
- the current one, in `io.github.codepr.jas.actors`, keys it by name and announces LOCAL actors.

Both generations are modelled.

Each `synchronized` method, and each step of a receive loop, is one atomic step of the model. The user handler is a parameter: a function from handler state and message to the next state and an optional exception. The ghost history of each actor records every message it accepted and every message it handled. The life-cycle invariant `Actor.Valid` ties the two together: what was accepted is what was handled followed by what is still queued, and the handler state is the result of handling the received messages in order.

Modules, one per part of the program:

| file | module | models |
|---|---|---|
| `wrappers.dfy` | `Wrappers` | `Option`, `Result`, `Outcome` for nulls and exceptions |
| `modes.dfy` | `Modes` | `ActorMode`, `SystemMode` |
| `mailbox.dfy` | `Mailbox` | `MailBoxImpl` |
| `actor.dfy` | `ActorLifecycle` | `AbsActor` and its receive loop |
| `names.dfy` | `Names` | names, member ids, `split("/")[0]`, the owner test |
| `runtime.dfy` | `Runtime` | current `AbsActorSystem`, `AbsActorRef`, `impl/AbsActorRef`, the reference registry |
| `cluster.dfy` | `Cluster` | current `ClusterImpl` |
| `legacy_system.dfy` | `LegacySystem` | first-generation `AbsActorSystem` |
| `legacy_cluster.dfy` | `LegacyCluster` | first-generation `ClusterImpl` |
| `counter.dfy` | `Counter` | `CounterActor` and the message-loss tests of `ActorIT` |

Where the code's own documentation and the code disagree, the model follows the code.

**Node start-up.** The doc comment of `updateMembers` (src/main/java/io/github/codepr/jas/actors/remote/ClusterImpl.java:176) says it updates the member set of every member of the cluster. In the code, the private `updateMembers` of both `ClusterImpl` classes iterates the `members` of the *joining* node, and at that point they hold only its own id. So the seed is the only existing member that learns the new id. `JoinTargets` and the constructors' contracts state exactly that: the nodes that add the new id are those `Joins` names, which is only the seed.

**The REMOTE `actorOf` of the first-generation cluster.** It passes `uuid + id` to the other members, with no separator. Its own map gets `id`.

## Model

| member | source | states |
|---|---|---|
| Mailbox.MailBox.constructor | src/main/java/io/github/codepr/jas/actors/mailbox/MailBoxImpl.java:46-48 | a new mailbox is empty |
| Mailbox.MailBox.Enqueue | src/main/java/io/github/codepr/jas/actors/mailbox/MailBoxImpl.java:55-61 | the message is appended at the tail and the earlier contents are kept |
| Mailbox.MailBox.Remove | src/main/java/io/github/codepr/jas/actors/mailbox/MailBoxImpl.java:68-76 | on a non-empty mailbox, returns the head and leaves exactly the rest |
| Mailbox.MailBox.IsEmpty | src/main/java/io/github/codepr/jas/actors/mailbox/MailBoxImpl.java:83-85 | true exactly when no message is queued |
| Mailbox.EnqueueThenDrain | src/main/java/io/github/codepr/jas/actors/mailbox/MailBoxImpl.java:55-85 | FIFO: enqueuing m1..mn into a new mailbox and removing until empty yields m1..mn in order |
| ActorLifecycle.DrainAppend | src/main/java/io/github/codepr/jas/actors/AbsActor.java:112-122 | handling `xs` and then `ys` gives the same handler state as handling `xs + ys`, whatever the handler throws |
| ActorLifecycle.DrainSnoc | src/main/java/io/github/codepr/jas/actors/AbsActor.java:174-180 | handling one more message after `xs` is one more handler step |
| ActorLifecycle.Actor.constructor | src/main/java/io/github/codepr/jas/actors/AbsActor.java:71-75 | a new actor is alive, not looping, has an empty new mailbox and no sender, and has handled nothing |
| ActorLifecycle.Actor.SetSender | src/main/java/io/github/codepr/jas/actors/AbsActor.java:92-94 | the sender becomes the given reference, and the life-cycle invariant is kept |
| ActorLifecycle.Actor.Enqueue | src/main/java/io/github/codepr/jas/actors/AbsActor.java:101-106 | a stopped actor refuses with `NoSuchActor` and nothing changes; a live one appends at the tail, ends alive and looping, and starts a loop only if none was running, so at most one loop is ever started; the invariant is kept |
| ActorLifecycle.Actor.Start | src/main/java/io/github/codepr/jas/actors/AbsActor.java:152-160 | both flags are raised and one more loop is submitted |
| ActorLifecycle.Actor.GetNextMessage | src/main/java/io/github/codepr/jas/actors/AbsActor.java:143-147 | a stopped actor fails with `NoSuchActor` and removes nothing; a live one returns and removes the head |
| ActorLifecycle.Actor.Dispatch | src/main/java/io/github/codepr/jas/actors/AbsActor.java:115-119 | one handler call advances the state and records the message as received, even when the handler throws |
| ActorLifecycle.Actor.ProcessNext | src/main/java/io/github/codepr/jas/actors/AbsActor.java:174-180 | the head message is removed and handled, and no message is lost or duplicated |
| ActorLifecycle.Actor.Stop | src/main/java/io/github/codepr/jas/actors/AbsActor.java:112-122 | every message queued at the call is handled in FIFO order; the mailbox ends empty and both flags down, so later enqueues fail; the invariant is kept |
| ActorLifecycle.Actor.ReceiveLoop | src/main/java/io/github/codepr/jas/actors/AbsActor.java:166-182 | a live, looping actor handles all of its queued messages in order, however the handler reacts; a stopped or idle one changes nothing |
| ActorLifecycle.StopEach | src/main/java/io/github/codepr/jas/actors/AbsActorSystem.java:133-138 | every actor of a set with distinct mailboxes is drained and stopped |
| Names.BeforeSlash | src/main/java/io/github/codepr/jas/actors/remote/ClusterImpl.java:128 | the part before the first '/' is a slash-free prefix, followed by '/' or the end of the string |
| Names.FirstSegment | src/main/java/io/github/codepr/jas/actors/remote/ClusterImpl.java:128 | `split("/")[0]` fails exactly for a non-empty string of slashes only; otherwise it is the slash-free prefix up to the first '/' |
| Names.RemoveDashes | src/main/java/io/github/codepr/jas/actors/remote/ClusterImpl.java:86 | the result has no '-' and keeps every other character with its multiplicity; a string without dashes comes back unchanged |
| Names.RemoveDashesAppend | src/main/java/io/github/codepr/jas/actors/remote/ClusterImpl.java:86 | removing the dashes of a concatenation removes them piece by piece, so the other characters keep their order |
| Names.NodeId | src/main/java/io/github/codepr/jas/actors/remote/ClusterImpl.java:85-87 | the id starts with `host/`; it is `host/master` on the seed host, and otherwise its uuid part has no dash |
| Names.PrefixOfHostAddress | src/main/java/io/github/codepr/jas/actors/remote/ClusterImpl.java:128 | the address prefix of `host/rest` is `host` |
| Names.NodeIdPrefix | src/main/java/io/github/codepr/jas/actors/remote/ClusterImpl.java:85-87 | every member id has its own host as address prefix and starts with it |
| Names.GeneratedNamePrefix | src/main/java/io/github/codepr/jas/actors/AbsActorSystem.java:102-112 | a generated REMOTE name has the local host, or the loopback address, as prefix; a LOCAL one is the bare uuid |
| Names.PrefixOwnerCrossesHosts | src/main/java/io/github/codepr/jas/actors/remote/ClusterImpl.java:129-130 | the `startsWith(addr)` test accepts a member on host 10.0.0.12 as owner of an address on host 10.0.0.1 |
| Names.HostOwnerExact | src/main/java/io/github/codepr/jas/actors/remote/ClusterImpl.java:128-130 | a member passing the corrected owner test lives exactly on the address's host, and every member id passes it for its own host |
| Runtime.Registry.constructor | src/main/java/io/github/codepr/jas/actors/AbsActorRef.java:75-81 | the naming registry starts empty |
| Runtime.Registry.Bind | src/main/java/io/github/codepr/jas/actors/AbsActorRef.java:75-81 | binding a taken name fails with `AlreadyBound` and changes nothing; a free one is bound and nothing else changes |
| Runtime.Registry.Lookup | src/main/java/io/github/codepr/jas/actors/AbsActorRef.java:124 | a lookup succeeds exactly on a bound name and returns its reference |
| Runtime.ActorSystem.constructor | src/main/java/io/github/codepr/jas/actors/AbsActorSystem.java:62-72 | a new system has empty local and remote maps and keeps its mode |
| Runtime.ActorSystem.GetActor | src/main/java/io/github/codepr/jas/actors/AbsActorSystem.java:163-170 | succeeds exactly when the reference's name is local (`contains`), with that actor; fails with `NoSuchActor` otherwise |
| Runtime.ActorSystem.AddRemoteRef | src/main/java/io/github/codepr/jas/actors/AbsActorSystem.java:152-154 | the remote map maps the name to the reference, overwriting, and nothing else changes |
| Runtime.ActorSystem.ActorOf | src/main/java/io/github/codepr/jas/actors/AbsActorSystem.java:82-99 | a new reference is made and bound in a cluster if the name is free. A non-instantiable class fails with `NoSuchActor` and changes neither map; LOCAL installs a new pristine actor under the name and leaves the remote map alone; REMOTE records the reference in the remote map only. The invariant is kept |
| Runtime.ActorSystem.Instantiate | src/main/java/io/github/codepr/jas/actors/AbsActorSystem.java:88-95 | once the reference exists: a non-instantiable class fails with `NoSuchActor` and changes neither map; LOCAL installs a new pristine actor under the name, replacing any, and leaves the remote map alone; REMOTE maps the name to the reference in the remote map only; the invariant is kept and only new objects join the footprint |
| Runtime.ActorSystem.ActorOfGenerated | src/main/java/io/github/codepr/jas/actors/AbsActorSystem.java:102-112 | `actorOf` under `host/uuid` for REMOTE (loopback when the host is unknown) and under the uuid for LOCAL |
| Runtime.ActorSystem.ActorOfLocal | src/main/java/io/github/codepr/jas/actors/AbsActorSystem.java:115-117 | the LOCAL `actorOf` under a generated name |
| Runtime.ActorSystem.Stop | src/main/java/io/github/codepr/jas/actors/AbsActorSystem.java:120-130 | an unknown name fails with `NoSuchActor` and changes neither map; a known one is drained and stopped and exactly its key leaves the local map; the remote map is untouched |
| Runtime.ActorSystem.StopAll | src/main/java/io/github/codepr/jas/actors/AbsActorSystem.java:133-138 | every local actor is drained and stopped, the local map ends empty, and the remote map is untouched |
| Runtime.ActorRef.constructor | src/main/java/io/github/codepr/jas/actors/AbsActorRef.java:70-82 | a new reference keeps its name and system, is its own original sender, and in a cluster binds itself unless the name is taken |
| Runtime.ActorRef.SetOriginalSender | src/main/java/io/github/codepr/jas/actors/AbsActorRef.java:89-100 | a later `getOriginalSender()` returns the reference just set |
| Runtime.ActorRef.Send | src/main/java/io/github/codepr/jas/actors/AbsActorRef.java:117-142 | local first: the target records the original sender (this reference unless it relays) and the message is enqueued, or refused by a stopped target; a destination that is only remote is relayed through its bound reference, which takes this one as original sender, or dropped when unbound; otherwise `NoSuchActor` |
| Runtime.RelayThenDeliver | src/main/java/io/github/codepr/jas/actors/AbsActorRef.java:117-142 | a send to an actor that is only remote here is relayed through its bound reference, and the re-issued send reaches the target with the first sender as original sender: enqueued at the tail if it is alive, refused with `NoSuchActor` if not |
| Runtime.ImplActorRef.constructor | src/main/java/io/github/codepr/jas/actors/impl/AbsActorRef.java:61-72 | the older reference keeps its name and system |
| Runtime.ImplActorRef.Send | src/main/java/io/github/codepr/jas/actors/impl/AbsActorRef.java:89-109 | the same three-way routing; a local delivery enqueues first and sets the sender to this reference only once the message was accepted; a relay changes no original sender |
| Cluster.Directory.constructor | src/main/java/io/github/codepr/jas/actors/remote/ClusterImpl.java:89 | the member directory starts empty and well formed |
| Cluster.Directory.Bind | src/main/java/io/github/codepr/jas/actors/remote/ClusterImpl.java:89 | binding a taken id fails with `AlreadyBound` and changes nothing; a free one is bound |
| Cluster.Directory.Lookup | src/main/java/io/github/codepr/jas/actors/remote/ClusterImpl.java:132 | a lookup succeeds exactly on a bound id |
| Cluster.Directory.Framed | src/main/java/io/github/codepr/jas/actors/remote/ClusterImpl.java:287-304 | a step that changes no node binding and no local actor keeps the directory well formed |
| Cluster.Directory.Evolved | src/main/java/io/github/codepr/jas/actors/remote/ClusterImpl.java:274-276 | a step that changes one system's actors, keeping it well formed and adding only new objects, keeps the directory well formed |
| Cluster.Directory.Admit | src/main/java/io/github/codepr/jas/actors/remote/ClusterImpl.java:88-89 | binding a node with its own new system under its id keeps the directory well formed; a taken id fails and changes nothing |
| Cluster.Node.constructor | src/main/java/io/github/codepr/jas/actors/remote/ClusterImpl.java:80-96 | the id follows the seed/uuid rule. A taken id leaves the node with no member and changes nothing. Otherwise the node is bound and knows only itself; of the existing nodes only the seed adds the new id, and the seed's remote map is copied into the new node's |
| Cluster.Node.Enroll | src/main/java/io/github/codepr/jas/actors/remote/ClusterImpl.java:90-92 | after binding: the node joins itself and, off the seed host, the seed adds it and pushes its remote map to it |
| Cluster.Node.AskSeed | src/main/java/io/github/codepr/jas/actors/remote/ClusterImpl.java:91-92 | a new node that knows only itself asks the seed: of the nodes bound before it, exactly the seed adds its id, and the seed's remote entries are copied into its own map |
| Cluster.Node.Join | src/main/java/io/github/codepr/jas/actors/remote/ClusterImpl.java:105-108 | the id is added to the member set, so joining twice is joining once and no member is removed; the directory stays well formed |
| Cluster.Node.AddRemoteRef | src/main/java/io/github/codepr/jas/actors/remote/ClusterImpl.java:170-173 | the node's system maps the name to the reference, overwriting |
| Cluster.Node.ActorSelection | src/main/java/io/github/codepr/jas/actors/remote/ClusterImpl.java:148-157 | the bound reference for a bound address, null otherwise, never an exception |
| Cluster.Node.Publish | src/main/java/io/github/codepr/jas/actors/remote/ClusterImpl.java:287-304 | every other bound member and the seed record the reference under the name |
| Cluster.Node.Create | src/main/java/io/github/codepr/jas/actors/remote/ClusterImpl.java:123 | the local system creates the actor as its LOCAL `actorOf` does, and the directory stays well formed |
| Cluster.Node.Announce | src/main/java/io/github/codepr/jas/actors/remote/ClusterImpl.java:124 | the publishing systems record the reference under the name, the directory stays well formed, and the local actors are untouched |
| Cluster.Node.LocalActorOf | src/main/java/io/github/codepr/jas/actors/remote/ClusterImpl.java:122-125 | the LOCAL `actorOf`: the actor is created here, and when it was, every other member and the seed learn its reference; when the system throws nothing is published |
| Cluster.Node.Spawn | src/main/java/io/github/codepr/jas/actors/remote/ClusterImpl.java:121-125 | as `LocalActorOf`; an exception of the system escapes as the cluster's failure, a created actor is returned; other systems keep their local actors, systems other than the publish targets keep their remote maps, other registries keep their bindings |
| Cluster.Node.ActorOf | src/main/java/io/github/codepr/jas/actors/remote/ClusterImpl.java:121-140 | LOCAL: as `Spawn`, an exception of the system escaping and a created reference returned. REMOTE: a name of slashes only, or no known member on its host, fails with an index error and changes nothing; otherwise some member on that host is picked, null with nothing changed when it is unbound, or it creates the actor as its LOCAL `actorOf`, with the same failure, success and frame clauses stated for that member |
| Cluster.Node.Stop | src/main/java/io/github/codepr/jas/actors/remote/ClusterImpl.java:233-251 | a local name is drained, stopped and removed; a name that is only remote goes to a known member on its host (forwarded when bound, dropped when not), or fails with an index error when there is no such member; any other name fails with `NoSuchActor` |
| Cluster.Node.StopSystem | src/main/java/io/github/codepr/jas/actors/remote/ClusterImpl.java:274-276 | every local actor of this node is drained and stopped and the local map ends empty; no other system's actors change |
| Cluster.Node.StopMember | src/main/java/io/github/codepr/jas/actors/remote/ClusterImpl.java:260-265 | one member that can be looked up drains and stops every actor it held; the members already stopped stay stopped, the other members keep their actors, and no other actor or mailbox changes |
| Cluster.Node.StopAll | src/main/java/io/github/codepr/jas/actors/remote/ClusterImpl.java:257-268 | every known member that is bound ends with an empty local map, and every actor any known member held at the call is drained and stopped |
| Cluster.Node.UpdateRemoteActors | src/main/java/io/github/codepr/jas/actors/remote/ClusterImpl.java:212-225 | the new member's remote map gains every entry of this node's remote map with the same value |
| Cluster.Node.SeedJoins | src/main/java/io/github/codepr/jas/actors/remote/ClusterImpl.java:183-190 | the bound seed adds the new id and pushes its remote map to it; no other node changes |
| Cluster.Node.PeersJoin | src/main/java/io/github/codepr/jas/actors/remote/ClusterImpl.java:191-201 | exactly the bound members this node knows, other than itself, add the new id |
| Cluster.Node.UpdateMembers | src/main/java/io/github/codepr/jas/actors/remote/ClusterImpl.java:182-202 | exactly the seed and this node's other known members add the new id; the new member gets the seed's remote entries |
| LegacySystem.LegacyRef.constructor | src/main/java/it/unipd/math/pcd/actors/AbsActorSystem.java:67 | a reference keeps the name it was created with |
| LegacySystem.ActorSystem.constructor | src/main/java/it/unipd/math/pcd/actors/AbsActorSystem.java:55-58 | both maps start empty |
| LegacySystem.ActorSystem.GetActor | src/main/java/it/unipd/math/pcd/actors/AbsActorSystem.java:133-137 | succeeds exactly when the reference itself is a local key (`contains`), with its actor; fails with `NoSuchActor` otherwise |
| LegacySystem.ActorSystem.AddRemoteRef | src/main/java/it/unipd/math/pcd/actors/AbsActorSystem.java:123-125 | the remote map maps the name to the reference, overwriting |
| LegacySystem.ActorSystem.ActorOf | src/main/java/it/unipd/math/pcd/actors/AbsActorSystem.java:61-78 | a new reference with the given name. A non-instantiable class fails with `NoSuchActor`; LOCAL adds a new key, the reference, holding a pristine actor, and changes no other key; REMOTE records the reference by name only |
| LegacySystem.ActorSystem.ActorOfGenerated | src/main/java/it/unipd/math/pcd/actors/AbsActorSystem.java:81-91 | `actorOf` under the generated name |
| LegacySystem.ActorSystem.ActorOfLocal | src/main/java/it/unipd/math/pcd/actors/AbsActorSystem.java:94-96 | the LOCAL `actorOf` under a generated name |
| LegacySystem.ActorSystem.Stop | src/main/java/it/unipd/math/pcd/actors/AbsActorSystem.java:99-105 | a reference that is not a key fails with `NoSuchActor` and changes nothing; a key has its actor drained and stopped and only that key removed |
| LegacySystem.ActorSystem.StopAll | src/main/java/it/unipd/math/pcd/actors/AbsActorSystem.java:108-113 | every local actor is drained and stopped and the local map ends empty; the remote map is untouched |
| LegacySystem.SameNameTwice | src/main/java/it/unipd/math/pcd/actors/AbsActorSystem.java:61-78 | two LOCAL actors under one name get two distinct references carrying that name; stopping the first leaves only the second |
| LegacySystem.StopTwice | src/main/java/it/unipd/math/pcd/actors/AbsActorSystem.java:99-105 | stopping a reference succeeds once, and then fails with `NoSuchActor` |
| LegacyCluster.Directory.constructor | src/main/java/it/unipd/math/pcd/actors/remote/ClusterImpl.java:59 | the member directory starts empty and coherent |
| LegacyCluster.Directory.Bind | src/main/java/it/unipd/math/pcd/actors/remote/ClusterImpl.java:59 | binding a taken id fails with `AlreadyBound` and changes nothing; a free one is bound |
| LegacyCluster.Directory.Lookup | src/main/java/it/unipd/math/pcd/actors/remote/ClusterImpl.java:95 | a lookup succeeds exactly on a bound id |
| LegacyCluster.Node.constructor | src/main/java/it/unipd/math/pcd/actors/remote/ClusterImpl.java:50-66 | the id follows the seed/uuid rule; a taken id leaves the node with no member; otherwise the node is bound and knows only itself, and of the existing nodes only the seed adds the new id |
| LegacyCluster.Node.Join | src/main/java/it/unipd/math/pcd/actors/remote/ClusterImpl.java:69-72 | the id is added to the member set |
| LegacyCluster.Node.JoinTwice | src/main/java/it/unipd/math/pcd/actors/remote/ClusterImpl.java:69-72 | joining an id twice gives the same member set as joining it once |
| LegacyCluster.Node.AddRemoteRef | src/main/java/it/unipd/math/pcd/actors/remote/ClusterImpl.java:88-91 | the node's system maps the name to the reference, overwriting |
| LegacyCluster.Node.SeedJoins | src/main/java/it/unipd/math/pcd/actors/remote/ClusterImpl.java:94-99 | only the bound seed adds the new id |
| LegacyCluster.Node.PeersJoin | src/main/java/it/unipd/math/pcd/actors/remote/ClusterImpl.java:100-110 | exactly the bound members this node knows, other than itself, add the new id |
| LegacyCluster.Node.UpdateMembers | src/main/java/it/unipd/math/pcd/actors/remote/ClusterImpl.java:93-111 | exactly the seed and this node's other known members add the new id |
| LegacyCluster.Node.UpdateRemoteActors | src/main/java/it/unipd/math/pcd/actors/remote/ClusterImpl.java:113-124 | every other bound member records the reference under the name |
| LegacyCluster.Node.Announce | src/main/java/it/unipd/math/pcd/actors/remote/ClusterImpl.java:80-82 | this node records the reference under its name, and every other bound member under `uuid + name` |
| LegacyCluster.Node.ActorOf | src/main/java/it/unipd/math/pcd/actors/remote/ClusterImpl.java:75-85 | either way the actor is created LOCALly with a new reference; LOCAL announces nothing; REMOTE announces as `Announce` does; a failure of the system changes nothing |
| Counter.Wrap32 | src/test/java/it/unipd/math/pcd/actors/utils/actors/counter/CounterActor.java:58-61 | Java `int` arithmetic: the result is in the `int` range, congruent to the input modulo 2^32, and equal to it when it fits |
| Counter.WrapShift | src/test/java/it/unipd/math/pcd/actors/utils/actors/counter/CounterActor.java:58-61 | wrapping, then adding, then wrapping again, is the same as adding, then wrapping |
| Counter.NetCounts | src/test/java/it/unipd/math/pcd/actors/utils/actors/counter/CounterActor.java:57-69 | the net change of a run of messages is the number of increments minus the number of decrements, whatever the order |
| Counter.DrainCounter | src/test/java/it/unipd/math/pcd/actors/utils/actors/counter/CounterActor.java:57-69 | handling any run of messages moves the counter by its net change, wrapped to an `int` |
| Counter.NetIncrements | src/test/java/it/unipd/math/pcd/actors/ActorIT.java:115-118 | `n` increments have net change `n` |
| Counter.NewCounterSystem | src/test/java/it/unipd/math/pcd/actors/ActorIT.java:114-116 | a new system holds a pristine counter actor under its name, and a sender |
| Counter.SendIncrements | src/test/java/it/unipd/math/pcd/actors/ActorIT.java:115-118 | `n` sends to a live counter all land in its mailbox, in order, and a loop is running |
| Counter.CounterWithIncrements | src/test/java/it/unipd/math/pcd/actors/ActorIT.java:113-118 | after the sends the counter has handled nothing yet and holds exactly `n` increments |
| Counter.IncrementsThenReceiveLoop | src/test/java/it/unipd/math/pcd/actors/ActorIT.java:112-124 | `shouldNotLooseAnyMessage`: after `n` increments and the receive loop the counter reads `n` (wrapped) |
| Counter.IncrementsThenStop | src/test/java/it/unipd/math/pcd/actors/ActorIT.java:171-182 | `shouldProcessRemainingMessagesAfterStop`: stopping right after the sends succeeds and still handles all of them |
| Counter.IncrementsThenStopAll | src/test/java/it/unipd/math/pcd/actors/ActorIT.java:184-195 | `shouldProcessRemainingMessagesAfterSystemStopped`: the same with `stop()` on the system |

## Left out

- Threads, the executor service and `volatile` are left out. Each `synchronized` method and each receive-loop step is one atomic step. The concurrent increment/decrement test is not modelled.
- The blocking `take` of the mailbox is left out, along with its `InterruptedException`-to-null path. `Remove` requires a non-empty mailbox instead.
- RMI transport is left out: `UnicastRemoteObject`, `RemoteException`, `MalformedURLException` and the `rmi://` URL prefix.
  - The RMI naming registry becomes two kinds of map: `Registry` for actor references and `Directory` for cluster nodes.
  - Each actor system carries its own `Registry`. A `rmi://` URL addresses the registry of the host it names, but the model does not tie two systems on one host to one registry, and no contract relies on two systems sharing one.
  - A lookup of a name bound to the other kind of object (a `ClassCastException`) is not modelled.
  - A call on another node's object stands for the remote call.
- Logging is left out: the printed exceptions and `System.out` lines.
- `setSelf`, `startReceivingLoop` and `startActorReceiveLoop` are left out. They only hand the actor its reference and submit the loop to the executor. The submission is the `loopsStarted` counter.
- `createActorReference` of `ActorSystemImpl` is only executor plumbing and is left out. The first-generation `ActorSystemImpl` and `ActorRefImpl` are not part of this model. The current system's reference is a new `ActorRef`; the first-generation one is a new `LegacyRef` compared by identity.
- Runtime.ImplActorRef.constructor does not model the naming-registry bind that the older reference always makes, whatever the system mode. The model's registry holds references of the current kind only.
- Runtime.ActorRef.Send and Runtime.ImplActorRef.Send model one hop of a remote send. The re-issued `send` on the relayed reference is the next call. In the code a chain of such hops may recur without bound; the model returns the reference the call is relayed through.
- Cluster.Node.Stop models one hop for the same reason, returning the member the call is forwarded to.
- Cluster.Node.ActorOf and Cluster.Node.Stop pick *some* member on the destination's host. Java's set iteration order, and so which member comes first, is unspecified.
- Cluster.Node.ActorOf and Cluster.Node.Stop use the corrected owner test `HostOwner`, which is `startsWith(addr + "/")`, not the code's `startsWith(addr)`. See Findings.
- `UUID.randomUUID()` and `InetAddress.getLocalHost()` are parameters. The uuid is text, and the local host is an `Option` for the `UnknownHostException` case.
- The first-generation `ClusterImpl` has no `stop`, `actorSelection` or public `updateRemoteActors`, so the model has none either.
- The handler can throw `UnsupportedMessage` or `NoSuchActor`. The exception is caught and printed, and the next message is still handled. A handler that throws anything else, which would end the loop thread, is not modelled.
- Counter handles `Get` by replying to the sender. The model leaves the reply out and keeps only the unchanged counter. The `shouldNotLooseAnyMessage` test uses a new sender per message; the model uses one sender, which does not affect the counter. The test's sends run concurrently with the loop; in the model the loop runs after them.
- The ill-typed casts of `AbsActor` and `ActorSystemImpl` are left out. So are the bootstrap classes, the delegation-only reference classes and the test actors other than the counter.
- Counter.IncrementsThenStop and Counter.IncrementsThenStopAll re-state the two stop tests of ActorIT.java:171-195 with the counter actor in place of `LongTaskActor`. The tests send three `TrivialMessage`s to a slow actor and expect "Done 3 times"; the model sends `n` increments and states that all `n` are handled, since the handler's speed has no counterpart in an atomic-step model.

## Findings

| source | as written | input that shows it | evidently intended | confidence | as-written member | corrected member |
|---|---|---|---|---|---|---|
| src/main/java/io/github/codepr/jas/actors/remote/ClusterImpl.java:128-130, 239-241 | the owner of an address is a member whose id `startsWith` the host part of the address | destination host `10.0.0.1`, member id `10.0.0.12/master`: the member on host 10.0.0.12 is accepted as owner | a member whose id is an address on exactly that host (`startsWith(addr + "/")`) | high that the test accepts another host; not executed | Names.PrefixOwnerCrossesHosts | Names.HostOwnerExact |
