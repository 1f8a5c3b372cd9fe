/**
 * The replicated partition both stores propose commands to. Consensus itself is
 * not modelled: what happens to one proposal is an oracle handed to each
 * mutating operation, and a store records the commands that were accepted.
 */
module Replication {

  /** What became of one proposal: it was committed, the command could not be
      marshalled (so the partition was never called), or the partition refused it. */
  datatype Outcome = Committed | EncodeFailed | SubmitFailed

  /** The accepted-command log after proposing `cmd`: only a committed command is appended. */
  function Commit<C>(log: seq<C>, cmd: C, outcome: Outcome): (log': seq<C>)
    ensures outcome.Committed? ==> log' == log + [cmd]
    ensures !outcome.Committed? ==> log' == log
  {
    if outcome.Committed? then log + [cmd] else log
  }
}
