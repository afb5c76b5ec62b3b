/** Where an entity stands with respect to the database. */
module Persistence {

  datatype PersistenceState = UNKNOWN | NEW | CLEAN | DIRTY | TODELETE | DELETED {

    /** Known to the database or about to be, and not on its way out. */
    predicate IsActive()
      ensures IsActive() <==> !UNKNOWN? && !TODELETE? && !DELETED?
    {
      NEW? || CLEAN? || DIRTY?
    }

    /** Something has to be persisted: from now on the entity is dirty, unless it is new or to be deleted. An entity
        that is already deleted makes the program panic. */
    function Dirtied(): (p: PersistenceState)
      requires !DELETED?
      ensures p.DIRTY? <==> !NEW? && !TODELETE?
      ensures NEW? || TODELETE? ==> p == this
    {
      if CLEAN? || UNKNOWN? then DIRTY else this
    }
  }
}
