/** The bounded queue between the nodes that prepare CAN messages and the thread that
    writes them to the bus. */
module TransmitQueue {
  import opened Bytes
  import opened Wrappers

  /** One element of the CAN buffer. Bytes beyond the length are left over from earlier
      messages. */
  datatype Slot = Slot(id: nat, len: nat, data: Frame)

  predicate Sane(s: Slot) { s.len <= 8 }

  /** A message as the bus sees it. */
  datatype Message = Message(id: nat, payload: seq<byte>)

  function View(s: Slot): Message
    requires Sane(s)
  {
    Message(s.id, s.data[..s.len])
  }

  function Views(slots: seq<Slot>): (ms: seq<Message>)
    requires forall s | s in slots :: Sane(s)
    ensures |ms| == |slots|
  {
    seq(|slots|, i requires 0 <= i < |slots| => View(slots[i]))
  }

  /** `setId`, `setLen` and a memcpy of `payload` into a slot. */
  function Overwrite(s: Slot, id: nat, payload: seq<byte>): (s': Slot)
    requires |payload| <= 8
    ensures Sane(s') && View(s') == Message(id, payload)
  {
    var s' := Slot(id, |payload|, payload + s.data[|payload|..]);
    assert s'.data[..|payload|] == payload;
    s'
  }

  /** What the bus makes of a flush: an error state, a failed write, or some of the messages
      taken. */
  datatype Outcome = BusError | WriteError | Sent(count: nat)

  // ---------------------------------------------------------------- the queue, specified

  /** What has become of an accepted message that is no longer queued. */
  datatype Fate = Written | Dropped

  datatype Settled = Settled(message: Message, fate: Fate)

  function Settle(ms: seq<Message>, fate: Fate): (r: seq<Settled>)
    ensures |r| == |ms|
  {
    seq(|ms|, i requires 0 <= i < |ms| => Settled(ms[i], fate))
  }

  function Messages(past: seq<Settled>): (ms: seq<Message>)
    ensures |ms| == |past|
  {
    seq(|past|, i requires 0 <= i < |past| => past[i].message)
  }

  /** The messages that a flush disposes of. An error disposes of all of them. */
  function Disposed(queue: seq<Message>, outcome: Outcome): seq<Settled> {
    match outcome
    case Sent(n) => Settle(queue[..Min(n, |queue|)], Written)
    case _ => Settle(queue, Dropped)
  }

  function Remaining(queue: seq<Message>, outcome: Outcome): seq<Message> {
    match outcome
    case Sent(n) => queue[Min(n, |queue|)..]
    case _ => []
  }

  // ---------------------------------------------------------------- the queue, as it is

  class CanWriter {
    const canBuffer: array<Slot>
    const maxSize: nat
    var preparedMessages: nat
    /** Every accepted message that has left the queue, in order of acceptance. */
    ghost var past: seq<Settled>
    /** Every message ever accepted, in order. */
    ghost var accepted: seq<Message>

    ghost predicate Sound()
      reads this, canBuffer
    {
      && canBuffer.Length == maxSize
      && preparedMessages <= maxSize
      && forall s | s in canBuffer[..] :: Sane(s)
    }

    ghost function Queue(): (q: seq<Message>)
      requires Sound()
      reads this, canBuffer
    {
      Views(canBuffer[..preparedMessages])
    }

    /** The accepted messages are, in order, those that have left the queue and then those
        still in it, never more than there is room for. */
    ghost predicate Valid()
      reads this, canBuffer
    {
      Sound() && Conserved(maxSize, State(Queue(), past, accepted))
    }

    constructor (size: nat)
      ensures Valid() && maxSize == size && fresh(canBuffer)
      ensures Queue() == [] && past == [] && accepted == []
    {
      canBuffer := new Slot[size](_ => Slot(0, 0, [0, 0, 0, 0, 0, 0, 0, 0]));
      maxSize := size;
      preparedMessages := 0;
      past, accepted := [], [];
    }

    /** A message is accepted exactly when there is room, and goes to the end of the queue.
        One without data carries whatever its slot last held. */
    method PrepareMessage(id: nat, len: nat, data: Option<seq<byte>>) returns (ok: bool)
      requires Valid()
      requires len <= 8 && (data.Some? ==> |data.value| == len)
      modifies this`preparedMessages, this`accepted, canBuffer
      ensures Valid()
      ensures ok <==> |old(Queue())| < maxSize
      ensures !ok ==> Queue() == old(Queue()) && accepted == old(accepted)
      ensures ok ==>
                && old(preparedMessages) < canBuffer.Length
                && Queue() == old(Queue()) + [Message(id, if data.Some? then data.value
                                                          else old(canBuffer[preparedMessages].data)[..len])]
                && accepted == old(accepted) + Queue()[|Queue()| - 1..]
    {
      if preparedMessages < maxSize {
        ghost var before := canBuffer[..];
        var n := preparedMessages;
        var payload := if data.Some? then data.value else canBuffer[n].data[..len];
        preparedMessages := preparedMessages + 1;
        canBuffer[n] := Overwrite(canBuffer[n], id, payload);
        assert canBuffer[..] == before[n := canBuffer[n]];
        assert canBuffer[..n + 1] == before[..n] + [canBuffer[n]];
        assert Queue() == old(Queue()) + [Message(id, payload)];
        accepted := accepted + [Message(id, payload)];
        ApplyConserves(maxSize, old(State(Queue(), past, accepted)), Prepare(Message(id, payload)));
        return true;
      }
      return false;
    }

    /** The overlapping shift in place: slot by slot, towards the front, copying no more
        than the bytes in use. */
    method HandlePartialWrite(sent: nat)
      requires Sound() && sent <= preparedMessages
      modifies canBuffer
      ensures Sound()
      ensures forall k | 0 <= k < preparedMessages - sent :: View(canBuffer[k]) == old(View(canBuffer[k + sent]))
    {
      hide Overwrite;
      ghost var before := canBuffer[..];
      var i, j := sent, 0;
      while i < preparedMessages
        invariant sent <= i <= preparedMessages && j == i - sent
        invariant forall k | 0 <= k < canBuffer.Length :: Sane(canBuffer[k])
        invariant forall k | 0 <= k < j :: View(canBuffer[k]) == View(before[k + sent])
        invariant canBuffer[j..] == before[j..]
      {
        assert canBuffer[i] == canBuffer[j..][i - j] == before[i];
        var pending := canBuffer[i];
        canBuffer[j] := Overwrite(canBuffer[j], pending.id, pending.data[..pending.len]);
        i, j := i + 1, j + 1;
      }
    }

    /** A flush settles a prefix of the queue as written and keeps the rest in order; an error
        drops all of it. */
    method Flush(outcome: Outcome)
      requires Valid()
      requires outcome.Sent? ==> outcome.count <= preparedMessages
      modifies this, canBuffer
      ensures Valid()
      ensures Queue() == Remaining(old(Queue()), outcome)
      ensures past == old(past) + Disposed(old(Queue()), outcome) && accepted == old(accepted)
      ensures Queue() == if outcome.Sent? then old(Queue())[outcome.count..] else []
      ensures |past| == |old(past)| + if outcome.Sent? then outcome.count else |old(Queue())|
      ensures forall i | |old(past)| <= i < |past| ::
                past[i] == Settled(old(Queue())[i - |old(past)|], if outcome.Sent? then Written else Dropped)
    {
      hide Conserved, View;
      ghost var queue := Queue();
      ApplyConserves(maxSize, State(queue, past, accepted), Op.Flush(outcome));
      past := past + Disposed(queue, outcome);
      if preparedMessages == 0 { return; }
      if !outcome.Sent? {
        preparedMessages := 0;
        return;
      }
      Retire(outcome.count);
    }

    /** The end of a flush: what was sent makes way for the rest. */
    method Retire(sent: nat)
      requires Sound() && sent <= preparedMessages
      modifies this`preparedMessages, canBuffer
      ensures Sound() && Queue() == old(Queue())[sent..]
    {
      ghost var queue := Queue();
      if sent != preparedMessages {
        HandlePartialWrite(sent);
      }
      preparedMessages := preparedMessages - sent;
      assert forall k | 0 <= k < |Queue()| :: Queue()[k] == View(canBuffer[k]) == queue[k + sent];
    }
  }

  // ---------------------------------------------------------------- any interleaving

  datatype Op = Prepare(message: Message) | Flush(outcome: Outcome)

  /** The queue, what has left it, and what was ever accepted. */
  datatype State = State(queue: seq<Message>, past: seq<Settled>, accepted: seq<Message>)

  function Apply(maxSize: nat, s: State, op: Op): State {
    match op
    case Prepare(m) =>
      if |s.queue| < maxSize then s.(queue := s.queue + [m], accepted := s.accepted + [m]) else s
    case Flush(outcome) =>
      s.(queue := Remaining(s.queue, outcome), past := s.past + Disposed(s.queue, outcome))
  }

  function Run(maxSize: nat, s: State, ops: seq<Op>): State
    decreases |ops|
  {
    if ops == [] then s else Run(maxSize, Apply(maxSize, s, ops[0]), ops[1..])
  }

  predicate Conserved(maxSize: nat, s: State) {
    |s.queue| <= maxSize && s.accepted == Messages(s.past) + s.queue
  }

  lemma ApplyConserves(maxSize: nat, s: State, op: Op)
    requires Conserved(maxSize, s)
    ensures Conserved(maxSize, Apply(maxSize, s, op))
  {
    match op
    case Prepare(m) => assert Messages(s.past) + (s.queue + [m]) == (Messages(s.past) + s.queue) + [m];
    case Flush(outcome) =>
      var gone := Disposed(s.queue, outcome);
      assert Messages(s.past + gone) == Messages(s.past) + Messages(gone);
      assert s.queue == Messages(gone) + Remaining(s.queue, outcome);
  }

  lemma {:induction false} RunConserves(maxSize: nat, s: State, ops: seq<Op>)
    requires Conserved(maxSize, s)
    ensures Conserved(maxSize, Run(maxSize, s, ops))
    decreases |ops|
  {
    if ops != [] {
      ApplyConserves(maxSize, s, ops[0]);
      RunConserves(maxSize, Apply(maxSize, s, ops[0]), ops[1..]);
    }
  }

  /** FIFO conservation: over any interleaving of producers and flushes, with any partial
      writes and any errors, the accepted messages are, in order, those written or dropped
      and then those still queued. Nothing is lost, repeated or overtaken, and the queue
      never exceeds its size. */
  lemma FifoConservation(maxSize: nat, ops: seq<Op>)
    ensures var s := Run(maxSize, State([], [], []), ops);
            |s.queue| <= maxSize && s.accepted == Messages(s.past) + s.queue
  {
    assert Conserved(maxSize, State([], [], []));
    RunConserves(maxSize, State([], [], []), ops);
  }

  /** Without errors everything accepted is written, in order, but for what is queued. */
  lemma {:induction false} NothingDropped(maxSize: nat, s: State, ops: seq<Op>)
    requires Conserved(maxSize, s) && forall x | x in s.past :: x.fate.Written?
    requires forall op | op in ops :: op.Flush? ==> op.outcome.Sent?
    ensures forall x | x in Run(maxSize, s, ops).past :: x.fate.Written?
    decreases |ops|
  {
    if ops != [] {
      assert ops[0] in ops;
      ApplyConserves(maxSize, s, ops[0]);
      NothingDropped(maxSize, Apply(maxSize, s, ops[0]), ops[1..]);
    }
  }
}
