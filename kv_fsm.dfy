/**
 * The command encoding of the master's key/value store (master/kv_fsm_op.go):
 * every mutation travels as (opcode, kvPrefix + key, value bytes), and a
 * restart reloads the snapshot entries found under kvPrefix with the prefix cut off.
 */
module KvFsm {
  import opened Optional
  import opened GoStrings
  import opened KvMerge

  datatype KvOp = OpSyncAddKv | OpSyncDelKv | OpSyncUpdateKv

  /** A RaftCmd as the store fills it: opcode, key, value bytes (Go bytes modelled as characters). */
  datatype RaftCmd = RaftCmd(op: KvOp, k: string, v: string)

  /** The caller's key inside a command key or snapshot key. */
  function StripPrefix(prefix: string, k: string): (key: string)
    requires HasPrefix(k, prefix)
    ensures prefix + key == k
    ensures |key| == |k| - |prefix|
  {
    k[|prefix|..]
  }

  /**
   * The command syncPutKv builds: the key under the store's prefix, so that
   * stripping the prefix gives the caller's key back; a nil value travels as
   * empty bytes, any other value byte for byte.
   */
  function PutCmd(prefix: string, op: KvOp, key: string, value: Option<string>): (cmd: RaftCmd)
    ensures cmd.op == op
    ensures HasPrefix(cmd.k, prefix) && StripPrefix(prefix, cmd.k) == key
    ensures value.None? ==> cmd.v == ""
    ensures value.Some? ==> cmd.v == value.value
  {
    RaftCmd(op, prefix + key, if value.None? then "" else value.value)
  }

  /** Prefixing and stripping are inverse: a command key is the prefixed caller key exactly when stripping gives that key. */
  lemma PrefixRoundTrip(prefix: string, key: string, k: string)
    ensures k == prefix + key <==> HasPrefix(k, prefix) && StripPrefix(prefix, k) == key
  {
  }

  /** The SeekForPrefix contract: every entry it returns lies under the prefix. */
  predicate AllUnder(prefix: string, entries: map<string, string>) {
    forall k :: k in entries ==> HasPrefix(k, prefix)
  }
}
