/**
 The calls of the node processor on its queue: queueing a write for the node, and
 sending the oldest queued write.
 */
module NodeProcessor {
  import opened Basics
  import opened Bytes
  import opened QueueSpec
  import opened Handoff
  import opened PointText
  import Queue

  datatype WriteResult = Queued | ProcessorClosed | NotQueued(reason: Queue.QueueResult)

  datatype SendResult = Sent(n: nat) | NoData | SendFailed

  class NodeProcessor {
    const queue: Queue.Queue
    var isOpen: bool

    constructor (queue: Queue.Queue)
      requires queue.Valid()
      ensures this.queue == queue && isOpen
    {
      this.queue, isOpen := queue, true;
    }

    /** Appends one record for the shard and its points, or changes nothing. */
    method WriteShard(shardID: nat, points: seq<seq<byte>>, now: int) returns (r: WriteResult)
      requires queue.tail == null || queue.Valid()
      modifies queue`dir, queue`segments, queue`tail, queue`view, queue.tail
      ensures old(queue.tail) != null ==> queue.Valid()
      ensures !isOpen ==> r == ProcessorClosed && queue.view == old(queue.view)
      ensures isOpen && old(queue.tail) == null ==> r == NotQueued(Queue.QueueNotOpen) && queue.view == old(queue.view)
      ensures isOpen && old(queue.tail) != null ==>
                var (q, a) := Append(old(queue.view), U64(shardID) + Lines(points), now);
                queue.view == q && r == if a == Appended then Queued else NotQueued(Queue.FromAppend(a))
    {
      if !isOpen {
        return ProcessorClosed;
      }
      var b := MarshalWrite(shardID, points);
      if |b| == 0 {
        return Queued;
      }
      var err := queue.Append(b, now);
      return if err == Queue.Success then Queued else NotQueued(err);
    }

    /** Sends the oldest queued write and moves past it once it is acknowledged; in
        every other case the queue is as it was. `active` is what the metadata says
        about the node, `parses` whether the text of the points parses, and `sent`
        what was handed to the remote writer. */
    method SendWrite(active: Option<bool>, parses: bool, acknowledged: bool, now: int)
      returns (r: SendResult, sent: Option<(nat, seq<byte>)>)
      requires queue.head == null || queue.Valid()
      modifies queue`dir, queue`segments, queue`head, queue`tail, queue`view, queue.head
      ensures old(queue.head) != null ==> queue.Valid()
      ensures old(queue.head) == null ==> sent.None? && queue.view == old(queue.view)
      ensures old(queue.head) == null ==> r == if active == Some(false) then NoData else SendFailed
      ensures old(queue.head) != null ==>
              var entry := Current(old(queue.view));
              && sent == Handed(old(queue.view), active, parses)
              && queue.view == AfterSendWrite(old(queue.view), active, parses, acknowledged, now)
              && (r.Sent? <==> sent.Some? && acknowledged)
              && (r.Sent? ==> r.n == |entry.value|)
              && (r.NoData? <==> active == Some(false) || (active == Some(true) && entry.None?))
    {
      sent := None;
      match active
      case None => return SendFailed, None;
      case Some(isActive) =>
        if !isActive {
          return NoData, None;
        }
        if queue.head != null { AfterCurrentEffect(queue.view); }
        var buf := queue.Current();
        match buf
        case AtEnd => return NoData, None;
        case CurrentNotOpen => return SendFailed, None;
        case BadRecord => return SendFailed, None;
        case Got(b) =>
          var w := UnmarshalWrite(b);
          if w.None? || !parses {
            return SendFailed, None;
          }
          sent := w;
          if !acknowledged {
            return SendFailed, sent;
          }
          var _ := queue.Advance(now);
          return Sent(|b|), sent;
    }
  }
}
