/**
 Storage for a recorded wire that keeps its entries in memory.
 */
module WireLog {
  import opened RecordProtocol

  datatype Result<T> = Ok(value: T) | Cancelled | BadSequence

  function Payloads(entries: seq<WireRecord>): (log: seq<Payload>)
    ensures |log| == |entries|
  {
    seq(|entries|, i requires 0 <= i < |entries| => entries[i].payload)
  }

  /** Storage that keeps its entries in memory. The flag tells whether the caller's
      context has ended. */
  class MemoryWireLog {
    var entries: seq<WireRecord>

    ghost predicate Valid()
      reads this
    {
      |entries| <= MAX_SEQUENCE && forall i :: 0 <= i < |entries| ==> entries[i].sequence == i + 1
    }

    ghost function Contents(): seq<Payload>
      reads this
    {
      Payloads(entries)
    }

    constructor ()
      ensures Valid() && Contents() == []
    {
      entries := [];
    }

    method Head(ended: bool) returns (r: Result<nat>)
      requires Valid()
      ensures r == if ended then Cancelled else Ok(|Contents()|)
    {
      if ended { return Cancelled; }
      return Ok(|entries|);
    }

    // Assigns the next contiguous sequence, or leaves the log alone.
    method Append(ended: bool, payload: Payload) returns (r: Result<nat>)
      requires Valid()
      modifies this
      ensures Valid()
      ensures r == if ended then Cancelled else if |old(Contents())| == MAX_SEQUENCE then BadSequence
              else Ok(|old(Contents())| + 1)
      ensures Contents() == if r.Ok? then old(Contents()) + [payload] else old(Contents())
    {
      if ended { return Cancelled; }
      var sequence := |entries| + 1;
      if sequence > MAX_SEQUENCE { return BadSequence; }
      entries := entries + [WireRecord(sequence, payload)];
      return Ok(sequence);
    }

    // Answers exactly the record the protocol's replay expects under a sequence.
    method Read(ended: bool, sequence: nat) returns (r: Result<WireRecord>)
      requires Valid()
      ensures ended ==> r.Cancelled?
      ensures !ended && (sequence == 0 || sequence > |Contents()|) ==> r.BadSequence?
      ensures !ended && 1 <= sequence <= |Contents()| ==> r.Ok? && IsRun(Contents(), sequence - 1, [r.value])
    {
      if ended { return Cancelled; }
      if sequence == 0 || sequence > |entries| { return BadSequence; }
      return Ok(entries[sequence - 1]);
    }
  }
}
