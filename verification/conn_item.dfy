/** A pooled WebSocket connection: its two atomic flags, its stream counters and
    the fields the idle list is ordered and culled by. */
module Connections {

  class ConnItem {
    const connectionID: string
    const createdAt: int
    var active: bool
    var closed: bool
    var streams: int
    var activeStreams: int
    var qualityScore: int

    constructor (connectionID: string, createdAt: int)
      ensures this.connectionID == connectionID && this.createdAt == createdAt
      ensures !active && !closed && streams == 0 && activeStreams == 0 && qualityScore == 100
    {
      this.connectionID, this.createdAt := connectionID, createdAt;
      active, closed := false, false;
      streams, activeStreams, qualityScore := 0, 0, 100;
    }

    /** Sets the active flag; tells whether this call was the one that set it. */
    method MarkActive() returns (changed: bool)
      modifies `active
      ensures active && changed == !old(active)
    {
      changed := !active;
      active := true;
    }

    /** Clears the active flag; tells whether this call was the one that cleared it. */
    method MarkIdle() returns (changed: bool)
      modifies `active
      ensures !active && changed == old(active)
    {
      changed := active;
      active := false;
    }
  }
}
