/** A database session: writes gather in a working copy, a flush checks the
    constraints, a commit publishes and a rollback throws the writes away. */
module Sql {

  class AsyncSession<T(!new)> {
    const constraints: T -> bool
    var committed: T
    var working: T

    constructor (constraints: T -> bool, tables: T)
      requires constraints(tables)
      ensures this.constraints == constraints && committed == working == tables
    {
      this.constraints := constraints;
      this.committed := tables;
      this.working := tables;
    }

    /** Fresh from the pool: nothing pending, tables as the database keeps them. */
    ghost predicate Clean(valid: T -> bool)
      reads this
    {
      working == committed && valid(committed) && forall t :: constraints(t) == valid(t)
    }

    /** False stands for an IntegrityError. */
    method Flush() returns (ok: bool)
      ensures ok == constraints(working)
    {
      ok := constraints(working);
    }

    /** A commit that fails raises; the transaction is gone. */
    method Commit() returns (ok: bool)
      modifies this
      ensures ok == constraints(old(working))
      ensures working == committed == if ok then old(working) else old(committed)
    {
      ok := constraints(working);
      if ok {
        committed := working;
      } else {
        working := committed;
      }
    }

    method Rollback()
      modifies this
      ensures working == committed == old(committed)
    {
      working := committed;
    }
  }
}
