/** The slavenode's sync thread: each round pulls one page from one master. */
module SlavenodeSync {
  import opened Ids
  import opened Oplog
  import opened Slavenode
  import opened MasterServer

  class Sync {
    var currentId: Id
    var store: map<string, FileInfo>

    constructor ()
      ensures View() == Slave(ToId(0), map[])
    {
      currentId, store := ToId(0), map[];
    }

    function View(): Slave
      reads this
    {
      Slave(currentId, store)
    }

    /** One round of the endless loop, against the master that the random choice gave. */
    method Round(master: Server, answered: bool, sets: seq<SetOutcome>)
      modifies this
      ensures View() == Pull(old(View()), master.oplog, answered, sets)
    {
      if !answered {
        return;
      }
      var reply := master.HandleGetOplog(currentId);
      var page := LogData(reply);
      ghost var s := View();
      var i := 0;
      while i < |page|
        invariant 0 <= i <= |page|
        invariant ApplyFrom(s, page, 0, sets) == ApplyFrom(View(), page, i, sets)
      {
        var e := page[i];
        if e.opType == UPLOAD_FILE {
          var outcome := OutcomeAt(sets, i);
          if Executed(outcome) {
            store := store[e.key := e.data];
          }
          if outcome == SetError {
            return;
          }
          currentId := Next(currentId);
        }
        i := i + 1;
      }
    }
  }
}
