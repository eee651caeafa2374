/** The soft-delete life cycle of `BaseModel` in workflow/models/base.py. */
module Workflow {

  class BaseModel {
    var createdAt: int
    var updatedAt: int
    var isActive: bool

    /** A new object is active, created and updated at `now` (the two clock reads are taken as one). */
    constructor (now: int)
      ensures isActive && createdAt == now && updatedAt == now
    {
      createdAt := now;
      updatedAt := now;
      isActive := true;
    }

    /** `save`: only the update time moves (persistence is not modelled). */
    method Save(now: int)
      modifies this`updatedAt
      ensures updatedAt == now
      ensures createdAt == old(createdAt) && isActive == old(isActive)
    {
      updatedAt := now;
    }

    /** `delete`: a soft delete, deactivating the object and saving it; deleting twice leaves it inactive. */
    method Delete(now: int)
      modifies this`isActive, this`updatedAt
      ensures !isActive && updatedAt == now
      ensures createdAt == old(createdAt)
    {
      isActive := false;
      Save(now);
    }
  }
}
