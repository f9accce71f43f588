/** Keyspace ids that have a meaning of their own. */
module Keyspaces {

  /** The keyspace of nodes that are not configured to use any. */
  const NULL_KEYSPACE: nat := 0xFFFF_FFFF
}
