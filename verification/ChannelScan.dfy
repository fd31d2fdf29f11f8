/** The batched scan over enabled channels with an id cursor. */
module ChannelScan {
  import opened IdBatches

  const ENABLED := 1

  /** The channels table: the status of each channel by its primary key. */
  type Table = map<int, int>

  function Enabled(t: Table): set<int> {
    set id | id in t && t[id] == ENABLED
  }

  /** The rows a query with this cursor ranges over; a cursor that is not positive filters nothing. */
  function Candidates(t: Table, lastID: int): set<int> {
    if lastID > 0 then Beyond(Enabled(t), lastID) else Enabled(t)
  }

  /**
   The scan ends and visits every enabled channel exactly once, in id order, whatever the number of channels is
   relative to the batch size.  `find` is `findEnabledChannelsAfterID` over a table that does not change meanwhile.
   */
  method Scan(ghost t: Table, batchSize: nat, find: int -> seq<int>) returns (visited: seq<int>)
    requires batchSize >= 1 && forall id :: id in t ==> id > 0
    requires forall lastID :: IsBatch(Candidates(t, lastID), batchSize, find(lastID))
    ensures Ascending(visited) && Ids(visited) == set id | id in t && t[id] == 1
  {
    visited := [];
    var lastID := 0;
    while true
      invariant lastID >= 0 && Candidates(t, lastID) == Beyond(Enabled(t), lastID)
      invariant Ascending(visited) && Ids(visited) == Enabled(t) - Candidates(t, lastID)
      invariant forall x :: x in Ids(visited) ==> x <= lastID
      decreases Candidates(t, lastID)
    {
      var channels := find(lastID);
      if |channels| == 0 {
        break;
      }
      BatchAdvances(Enabled(t), lastID, channels, batchSize);
      AscendingConcat(visited, channels);
      lastID := channels[|channels| - 1];
      visited := visited + channels;
      if |channels| < batchSize {
        break;
      }
    }
  }
}
