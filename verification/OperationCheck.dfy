/**
 One partition of `checkOperations` (Lab3/src/porcupine/checker.go): its operations become sorted entries and the
 entries are searched.
 */
module OperationCheck {
  import opened Linearizability
  import opened SearchTheory
  import opened OperationEntries
  import opened Checker
  import opened Options

  /**
   The search decides linearizability of the operations themselves, with their own times. What it reports as
   longest is a longest legal partial linearization with each operation, and is missing only where none exists.
   */
  method CheckPartition<S(!new), I(!new), O(!new)>(
    m: Model<S, I, O>, ops: seq<Operation<I, O>>, computeInfo: bool, kill: nat -> bool)
    returns (ok: bool, longest: seq<Option<seq<nat>>>)
    requires WellTimed(ops) && Congruence(m)
    ensures ok ==> Linearizable(m, ops)
    ensures !ok ==> !Linearizable(m, ops) || exists i :: kill(i)
    ensures Reported(m, ops, longest)
    ensures ok || (computeInfo && forall i :: !kill(i)) ==> Optimal(m, ops, longest)
    ensures ok ==> forall i: nat | i < |ops| :: !kill(i)
    ensures ops != [] && kill(0) ==> !ok && NoneRecorded(longest)
  {
    var entries := MakeEntries(ops);
    ArrangedEntriesAgree(m, ops, entries);
    ok, longest := CheckSingle(m, entries, computeInfo, kill);
  }
}
