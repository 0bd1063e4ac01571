/** Per-connection heartbeat: the ping awaiting its pong and the misses in a row. */
module Heartbeat {
  import opened Wrappers

  const MAX_MISSED_PONGS_BEFORE_CLOSE := 3
  const CLOSE_CODE := 4002

  type Byte = n: nat | n < 256

  datatype Beat = Beat(pending: Option<string>, missed: Byte)

  datatype Timeout = KeepOpen(missed: Byte) | Close(missed: Byte, code: nat)

  function Fresh(): Beat {
    Beat(None, 0)
  }

  function Pinged(b: Beat, id: string): Beat {
    b.(pending := Some(id))
  }

  predicate Accepts(b: Beat, id: string) {
    b.pending == Some(id)
  }

  function Ponged(b: Beat, id: string): Beat {
    if Accepts(b, id) then Fresh() else b
  }

  // A u8 that saturates.
  function Missed(b: Beat): Beat {
    Beat(None, if b.missed < 255 then b.missed + 1 else 255)
  }

  function Verdict(b: Beat): Timeout {
    if b.missed < MAX_MISSED_PONGS_BEFORE_CLOSE then KeepOpen(b.missed) else Close(b.missed, CLOSE_CODE)
  }

  class AddinHeartbeatState {
    var pendingPingId: Option<string>
    var missedPongs: Byte

    function View(): Beat
      reads this
    {
      Beat(pendingPingId, missedPongs)
    }

    constructor ()
      ensures View() == Fresh()
    {
      pendingPingId, missedPongs := None, 0;
    }

    method StartPing(id: string)
      modifies this
      ensures View() == Pinged(old(View()), id)
    {
      pendingPingId := Some(id);
    }

    method HandlePong(id: string) returns (accepted: bool)
      modifies this
      ensures accepted == Accepts(old(View()), id)
      ensures View() == Ponged(old(View()), id)
    {
      if pendingPingId != Some(id) { return false; }
      pendingPingId := None;
      missedPongs := 0;
      return true;
    }

    method RecordTimeout() returns (verdict: Timeout)
      modifies this
      ensures View() == Missed(old(View()))
      ensures verdict == Verdict(View())
    {
      pendingPingId := None;
      if missedPongs < 255 { missedPongs := missedPongs + 1; }
      return if missedPongs < MAX_MISSED_PONGS_BEFORE_CLOSE then KeepOpen(missedPongs)
             else Close(missedPongs, CLOSE_CODE);
    }
  }
}
