/** A database session over one table: what has been written so far, and what survives losing the session. */
module Transactions {
  class Session<T> {
    var working: T
    var committed: T

    constructor (table: T)
      ensures working == table && committed == table
    {
      working, committed := table, table;
    }

    method Commit()
      modifies this
      ensures committed == old(working) && working == old(working)
    {
      committed := working;
    }

    method Rollback()
      modifies this
      ensures working == old(committed) && committed == old(committed)
    {
      working := committed;
    }
  }
}
