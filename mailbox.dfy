/** The unbounded FIFO mailbox of one actor (`MailBoxImpl`, a wrapper around a
    `LinkedBlockingQueue`). */
module Mailbox {

  class MailBox<M> {
    /** The queued messages, head first. */
    var box: seq<M>

    /** A new mailbox holds no message. */
    constructor ()
      ensures box == []
    {
      box := [];
    }

    /** `put` on an unbounded queue: appends at the tail and never blocks. */
    method Enqueue(message: M)
      modifies this
      ensures box == old(box) + [message]
    {
      box := box + [message];
    }

    /** `take`: removes and returns the head. The queue would block the caller
        while it is empty, so the caller must know that it is not. */
    method Remove() returns (message: M)
      requires box != []
      modifies this
      ensures message == old(box)[0]
      ensures box == old(box)[1..]
    {
      message := box[0];
      box := box[1..];
    }

    /** A non-blocking snapshot of the queue's emptiness. */
    method IsEmpty() returns (empty: bool)
      ensures empty <==> |box| == 0
    {
      empty := |box| == 0;
    }
  }

  /** FIFO: enqueuing `messages` one by one into a new mailbox and then removing
      until it is empty yields exactly `messages`, in the same order. */
  method EnqueueThenDrain<M>(messages: seq<M>) returns (removed: seq<M>)
    ensures removed == messages
  {
    var mailBox := new MailBox<M>();
    var i := 0;
    while i < |messages|
      invariant 0 <= i <= |messages|
      invariant mailBox.box == messages[..i]
    {
      mailBox.Enqueue(messages[i]);
      i := i + 1;
    }
    removed := [];
    var empty := mailBox.IsEmpty();
    while !empty
      invariant removed + mailBox.box == messages
      invariant empty <==> mailBox.box == []
      decreases |mailBox.box|
    {
      var message := mailBox.Remove();
      removed := removed + [message];
      empty := mailBox.IsEmpty();
    }
  }
}
