/** The runtime-managed life cycle of one actor (`AbsActor`): the `alive` and
    `looping` flags, the `sender` of the message being processed, the mailbox,
    the receive loop and the draining `stop`. Each `synchronized` method is one
    atomic step; the user handler `receive` is a parameter of the actor. */
module ActorLifecycle {
  import opened Wrappers
  import opened Mailbox

  /** The exceptions `AbsActor` catches around a call of `receive`. */
  datatype Fault = NoSuchActor | UnsupportedMessage

  /** What one call of a user handler does: the handler state it leaves behind
      and the exception, if any, it throws. */
  datatype Reaction<S> = Reaction(next: S, raised: Option<Fault>)

  /** A user `receive` method over a handler state `S`. */
  type Handler<!S, -M> = (S, M) -> Reaction<S>

  /** The handler state reached from `s` by passing each of `messages` to
      `receive` in order. A raised exception is caught at the loop boundary,
      so it never stops the messages after it from being handled. */
  function Drain<S, M>(receive: Handler<S, M>, s: S, messages: seq<M>): S
    decreases |messages|
  {
    if messages == [] then s else Drain(receive, receive(s, messages[0]).next, messages[1..])
  }

  /** Handling `xs` and then `ys` is handling `xs + ys`. */
  lemma {:induction false} DrainAppend<S, M>(receive: Handler<S, M>, s: S, xs: seq<M>, ys: seq<M>)
    ensures Drain(receive, s, xs + ys) == Drain(receive, Drain(receive, s, xs), ys)
    decreases |xs|
  {
    if xs == [] {
      assert xs + ys == ys;
    } else {
      assert (xs + ys)[0] == xs[0];
      assert (xs + ys)[1..] == xs[1..] + ys;
      DrainAppend(receive, receive(s, xs[0]).next, xs[1..], ys);
    }
  }

  /** Handling one more message after `xs`. */
  lemma DrainSnoc<S, M>(receive: Handler<S, M>, s: S, xs: seq<M>, m: M)
    ensures Drain(receive, s, xs + [m]) == receive(Drain(receive, s, xs), m).next
  {
    DrainAppend(receive, s, xs, [m]);
  }

  /** What an actor has handled and holds at one moment: its handler state,
      current sender, the messages received and accepted so far, the loops
      started and the queue. */
  datatype Trace<S, M, R> = Trace(state: S, sender: Option<R>, received: seq<M>, enqueued: seq<M>,
                                  loopsStarted: nat, box: seq<M>)

  class Actor<S, M, R> {
    /** The user handler (the subclass's `receive`). */
    const receive: Handler<S, M>
    /** The handler state the actor was created with. */
    ghost const initial: S
    const mailBox: MailBox<M>
    /** The handler's own state (the subclass's fields). */
    var state: S
    /** The sender of the current message; `None` stands for `null`. */
    var sender: Option<R>
    var alive: bool
    var looping: bool
    /** Every message passed to `receive` so far, in order. */
    ghost var received: seq<M>
    /** Every message accepted by `enqueue` so far, in order. */
    ghost var enqueued: seq<M>
    /** How many receive loops have been submitted to the worker pool. */
    ghost var loopsStarted: nat

    /** FIFO and no loss: what was accepted is what was handled followed by what
        is still queued, and the handler state is the result of handling the
        received messages in order. */
    ghost predicate Consistent()
      reads this, mailBox
    {
      && enqueued == received + mailBox.box
      && state == Drain(receive, initial, received)
    }

    /** The life-cycle invariant: at most one receive loop is ever started, a
        loop runs only for a live actor, and a stopped actor has nothing
        queued. */
    ghost predicate Valid()
      reads this, mailBox
    {
      && Consistent()
      && loopsStarted <= 1
      && (looping ==> alive && loopsStarted == 1)
      && (alive && !looping ==> loopsStarted == 0)
      && (!alive ==> mailBox.box == [])
    }

    /** The effect of a draining stop: every message queued before it was
        handled in FIFO order, the mailbox is empty and both flags are down. */
    twostate predicate DrainedAndStopped()
      reads this, mailBox
    {
      && !alive && !looping && mailBox.box == []
      && received == old(received) + old(mailBox.box)
      && state == Drain(receive, old(state), old(mailBox.box))
      && enqueued == old(enqueued) && loopsStarted == old(loopsStarted)
      && sender == old(sender)
    }

    /** Nothing about the actor or its queue has changed. */
    twostate predicate Unmoved()
      reads this, mailBox
    {
      && state == old(state) && sender == old(sender) && alive == old(alive) && looping == old(looping)
      && received == old(received) && enqueued == old(enqueued) && loopsStarted == old(loopsStarted)
      && mailBox.box == old(mailBox.box)
    }

    /** The actor's history and queue as a value. */
    ghost function History(): Trace<S, M, R>
      reads this, mailBox
    {
      Trace(state, sender, received, enqueued, loopsStarted, mailBox.box)
    }

    /** `DrainedAndStopped` measured against a recorded history `t`. */
    ghost predicate DrainedSince(t: Trace<S, M, R>)
      reads this, mailBox
    {
      && !alive && !looping && mailBox.box == []
      && received == t.received + t.box
      && state == Drain(receive, t.state, t.box)
      && enqueued == t.enqueued && loopsStarted == t.loopsStarted
      && sender == t.sender
    }

    /** The state of an actor of the given class that has just been created:
        alive, not looping, with no sender and nothing queued or handled. */
    ghost predicate Pristine(receive: Handler<S, M>, initial: S)
      reads this, mailBox
    {
      && this.receive == receive && this.initial == initial && state == initial
      && alive && !looping && sender == None
      && mailBox.box == [] && received == [] && enqueued == [] && loopsStarted == 0
    }

    /** A new actor is alive, not looping, and has an empty mailbox. */
    constructor (receive: Handler<S, M>, initial: S)
      ensures fresh(mailBox) && Pristine(receive, initial) && Valid()
    {
      this.receive := receive;
      this.initial := initial;
      state := initial;
      mailBox := new MailBox<M>();
      sender := None;
      alive := true;
      looping := false;
      received := [];
      enqueued := [];
      loopsStarted := 0;
    }

    /** Records the sender of the message about to be delivered. */
    method SetSender(sender: Option<R>)
      modifies this`sender
      ensures this.sender == sender
      ensures old(Valid()) ==> Valid()
    {
      this.sender := sender;
    }

    /** Accepts a message from any sender. A stopped actor refuses it with
        `NoSuchActorException` and nothing changes; a live one appends it at
        the mailbox tail and submits a receive loop only if none is running. */
    method Enqueue(message: M) returns (o: Outcome<Fault>)
      requires Valid()
      modifies this, mailBox
      ensures Valid()
      ensures !old(alive) ==> o == Fail(NoSuchActor) && unchanged(this, mailBox)
      ensures old(alive) ==> && o == Pass
                             && mailBox.box == old(mailBox.box) + [message]
                             && enqueued == old(enqueued) + [message]
                             && alive && looping
                             && loopsStarted == (if old(looping) then old(loopsStarted) else old(loopsStarted) + 1)
      ensures state == old(state) && received == old(received) && sender == old(sender)
    {
      if !alive {
        return Fail(NoSuchActor);
      }
      mailBox.Enqueue(message);
      enqueued := enqueued + [message];
      if !looping {
        Start();
      }
      o := Pass;
    }

    /** Raises both flags and submits a new receive loop to the worker pool. */
    method Start()
      modifies this`alive, this`looping, this`loopsStarted
      ensures alive && looping && loopsStarted == old(loopsStarted) + 1
    {
      alive := true;
      looping := true;
      loopsStarted := loopsStarted + 1;
    }

    /** Removes the head message. A stopped actor throws
        `NoSuchActorException` and removes nothing; a live one blocks until a
        message is queued, so the caller must know that one is. */
    method GetNextMessage() returns (r: Result<M, Fault>)
      requires alive ==> mailBox.box != []
      modifies mailBox
      ensures !alive ==> r == Failure(NoSuchActor) && mailBox.box == old(mailBox.box)
      ensures alive ==> r == Success(old(mailBox.box)[0]) && mailBox.box == old(mailBox.box)[1..]
    {
      if !alive {
        return Failure(NoSuchActor);
      }
      var message := mailBox.Remove();
      r := Success(message);
    }

    /** One call of `receive`; whatever it throws is caught and printed. */
    method Dispatch(message: M)
      modifies this`state, this`received
      ensures state == receive(old(state), message).next
      ensures received == old(received) + [message]
    {
      var reaction := receive(state, message);
      state := reaction.next;
      received := received + [message];
    }

    /** `receive(getNextMessage())` inside the `try` of the loop bodies. */
    method ProcessNext()
      requires Consistent() && alive && mailBox.box != []
      modifies this`state, this`received, mailBox
      ensures Consistent()
      ensures mailBox.box == old(mailBox.box)[1..]
      ensures received == old(received) + [old(mailBox.box)[0]]
      ensures state == receive(old(state), old(mailBox.box)[0]).next
    {
      ghost var head := mailBox.box[0];
      var next := GetNextMessage();
      if next.Success? {
        Dispatch(next.value);
      }
      DrainSnoc(receive, initial, old(received), head);
      assert old(mailBox.box) == [head] + mailBox.box;
    }

    /** Clears `looping`, then hands every queued message to `receive` in FIFO
        order on the caller's thread, swallowing what the handler throws, and
        finally clears `alive`: nothing queued before the stop is lost, and
        every later `enqueue` fails. */
    method Stop()
      requires Valid()
      modifies this, mailBox
      ensures Valid() && DrainedAndStopped()
    {
      looping := false;
      var empty := mailBox.IsEmpty();
      while !empty
        invariant Consistent()
        invariant alive == old(alive) && !looping
        invariant !alive ==> mailBox.box == []
        invariant empty <==> mailBox.box == []
        invariant enqueued == old(enqueued) && loopsStarted == old(loopsStarted)
        invariant sender == old(sender)
        decreases |mailBox.box|
      {
        ProcessNext();
        empty := mailBox.IsEmpty();
      }
      alive := false;
      assert received == old(received) + old(mailBox.box);
      DrainAppend(receive, initial, old(received), old(mailBox.box));
    }

    /** The receive loop task: while the actor is alive and looping, handle the
        head message, swallowing what the handler throws. The loop is run here
        up to the point where `take` would block on an empty mailbox. */
    method ReceiveLoop()
      requires Valid()
      modifies this`state, this`received, mailBox
      ensures Valid()
      ensures old(alive && looping) ==> && mailBox.box == []
                                        && received == old(received) + old(mailBox.box)
                                        && state == Drain(receive, old(state), old(mailBox.box))
      ensures !old(alive && looping) ==> unchanged(this, mailBox)
    {
      var empty := mailBox.IsEmpty();
      while alive && looping && !empty
        invariant Valid()
        invariant empty <==> mailBox.box == []
        invariant received + mailBox.box == old(received) + old(mailBox.box)
        invariant !old(alive && looping) ==> unchanged(this, mailBox)
        decreases |mailBox.box|
      {
        ProcessNext();
        empty := mailBox.IsEmpty();
      }
      if old(alive && looping) {
        DrainAppend(receive, initial, old(received), old(mailBox.box));
      }
    }
  }

  /** The mailboxes of `actors`. */
  ghost function MailBoxesOf<S, M, R>(actors: set<Actor<S, M, R>>): set<MailBox<M>>
  {
    set a | a in actors :: a.mailBox
  }

  /** The `forEach(stop)` of a system's `stop()`: every actor of `actors`, none
      sharing its mailbox with another, is drained and stopped in turn. */
  method StopEach<S, M, R>(actors: set<Actor<S, M, R>>)
    requires forall a | a in actors :: a.Valid()
    requires forall a, b | a in actors && b in actors && a != b :: a.mailBox != b.mailBox
    modifies actors, MailBoxesOf(actors)
    ensures forall a | a in actors :: a.Valid() && a.DrainedAndStopped()
  {
    var pending := actors;
    while pending != {}
      invariant pending <= actors
      invariant forall a | a in actors :: a.Valid()
      invariant forall a | a in actors - pending :: a.DrainedAndStopped()
      invariant forall a | a in pending :: unchanged(a, a.mailBox)
      decreases pending
    {
      var actor :| actor in pending;
      actor.Stop();
      pending := pending - {actor};
    }
  }
}
