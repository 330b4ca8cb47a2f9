/** The two enumerations declared by the `ActorSystem` interface. */
module Modes {

  /** Where `actorOf` places a new actor. */
  datatype ActorMode = LOCAL | REMOTE

  /** Whether a system runs alone or as one member of a cluster; only a
      `CLUSTER` system binds its references in the naming registry. */
  datatype SystemMode = DEFAULT | CLUSTER
}
