/**
 * The JMS message consumer: three listeners (a queue, a topic and an error
 * queue) that each buffer the message before handling it, and the buffer's
 * copy, clear and count operations.
 */
module MessageConsumer {
  import opened Wrappers
  import opened JavaLang

  /** The message's `MessageType` enum. */
  datatype Kind = Info | Warning | Error | Success

  /** A message as the listeners receive it; any reference field may be null. */
  datatype Message = Message(id: Option<string>, content: Option<string>, sender: Option<string>,
                             timestamp: string, kind: Option<Kind>)

  /** The log level a handler writes at. */
  datatype Level = InfoLevel | WarnLevel | ErrorLevel

  /** The destination a listener is bound to. */
  datatype Channel = Queue | Topic | ErrorQueue

  /**
   * `processMessage`: a switch on the type. A null type makes the switch
   * throw a NullPointerException; otherwise the message is logged at the
   * level its type calls for.
   */
  function ProcessMessage(message: Message): (r: Result<Level, Throwable>)
    ensures r.Err? <==> message.kind.None?
    ensures r.Err? ==> r.error == NullPointerException(None)
    ensures r.Ok? ==> (r.value == ErrorLevel <==> message.kind == Some(Error))
    ensures r.Ok? ==> (r.value == WarnLevel <==> message.kind == Some(Warning))
  {
    match message.kind
    case None => Err(NullPointerException(None))
    case Some(Info) => Ok(InfoLevel)
    case Some(Warning) => Ok(WarnLevel)
    case Some(Error) => Ok(ErrorLevel)
    case Some(Success) => Ok(InfoLevel)
  }

  /**
   * What a listener throws after buffering: the queue and topic listeners
   * process the message, the error listener only logs its fields and so
   * never looks at the type.
   */
  function Handle(channel: Channel, message: Message): (thrown: Option<Throwable>)
    ensures channel == ErrorQueue ==> thrown.None?
    ensures channel != ErrorQueue ==> (thrown.Some? <==> message.kind.None?)
  {
    if channel == ErrorQueue then None
    else match ProcessMessage(message)
      case Err(e) => Some(e)
      case Ok(_) => None
  }

  /** One call into the consumer that changes the buffer. */
  datatype Event = Receive(channel: Channel, message: Message) | Clear

  /** The buffer after a history of calls, starting from an empty one. */
  function Buffer(history: seq<Event>): (b: seq<Message>)
    ensures |b| <= |history|
  {
    if history == [] then []
    else
      var n := |history| - 1;
      match history[n]
      case Clear => []
      case Receive(_, m) => Buffer(history[..n]) + [m]
  }

  /** A clear forgets everything before it. */
  lemma {:induction false} ClearForgets(before: seq<Event>, after: seq<Event>)
    ensures Buffer(before + [Clear] + after) == Buffer(after)
  {
    if after == [] {
      assert before + [Clear] + after == before + [Clear];
    } else {
      var n := |after| - 1;
      assert (before + [Clear] + after)[..|before| + 1 + n] == before + [Clear] + after[..n];
      ClearForgets(before, after[..n]);
    }
  }

  /** Messages from the receives in a history, in arrival order. */
  function Received(history: seq<Event>): (ms: seq<Message>)
    ensures |ms| <= |history|
  {
    if history == [] then []
    else
      var n := |history| - 1;
      Received(history[..n]) + (if history[n].Receive? then [history[n].message] else [])
  }

  /** Without a clear, the buffer holds every message received, in order, whatever their handling threw. */
  lemma {:induction false} BufferWithoutClear(history: seq<Event>)
    requires forall k | 0 <= k < |history| :: history[k].Receive?
    ensures Buffer(history) == Received(history)
    ensures |Buffer(history)| == |history|
  {
    if history != [] {
      BufferWithoutClear(history[..|history| - 1]);
    }
  }

  class Consumer {
    var receivedMessages: seq<Message>
    /** The calls made so far, for the invariant. */
    ghost var history: seq<Event>

    /** The buffer is what the calls so far leave in it. */
    ghost predicate Valid()
      reads this
    {
      receivedMessages == Buffer(history)
    }

    constructor ()
      ensures Valid() && receivedMessages == [] && history == []
    {
      receivedMessages := [];
      history := [];
    }

    /** The listener body shared by the three destinations: buffer, then handle. */
    method ReceiveOn(channel: Channel, message: Message) returns (thrown: Option<Throwable>)
      requires Valid()
      modifies this
      ensures Valid() && history == old(history) + [Receive(channel, message)]
      ensures receivedMessages == old(receivedMessages) + [message]
      ensures thrown == Handle(channel, message)
    {
      receivedMessages := receivedMessages + [message];
      history := history + [Receive(channel, message)];
      assert history[..|history| - 1] == old(history);
      thrown := Handle(channel, message);
    }

    /** `receiveMessage`, the `message.queue` listener. */
    method ReceiveMessage(message: Message) returns (thrown: Option<Throwable>)
      requires Valid()
      modifies this
      ensures Valid() && history == old(history) + [Receive(Queue, message)]
      ensures receivedMessages == old(receivedMessages) + [message]
      ensures thrown.Some? <==> message.kind.None?
    {
      thrown := ReceiveOn(Queue, message);
    }

    /** `receiveTopicMessage`, the `message.topic` listener. */
    method ReceiveTopicMessage(message: Message) returns (thrown: Option<Throwable>)
      requires Valid()
      modifies this
      ensures Valid() && history == old(history) + [Receive(Topic, message)]
      ensures receivedMessages == old(receivedMessages) + [message]
      ensures thrown.Some? <==> message.kind.None?
    {
      thrown := ReceiveOn(Topic, message);
    }

    /** `receiveErrorMessage`, the `error.queue` listener; it never throws. */
    method ReceiveErrorMessage(message: Message) returns (thrown: Option<Throwable>)
      requires Valid()
      modifies this
      ensures Valid() && history == old(history) + [Receive(ErrorQueue, message)]
      ensures receivedMessages == old(receivedMessages) + [message]
      ensures thrown.None?
    {
      thrown := ReceiveOn(ErrorQueue, message);
    }

    /** `getReceivedMessages`: a new list with the same contents, so changing it leaves the buffer alone. */
    method GetReceivedMessages() returns (copy: array<Message>)
      ensures fresh(copy) && copy[..] == receivedMessages
    {
      copy := new Message[|receivedMessages|](i requires 0 <= i < |receivedMessages| reads this => receivedMessages[i]);
    }

    /** `clearReceivedMessages`. */
    method ClearReceivedMessages()
      requires Valid()
      modifies this
      ensures Valid() && history == old(history) + [Clear]
      ensures receivedMessages == []
    {
      receivedMessages := [];
      history := history + [Clear];
    }

    /** `getMessageCount`: the buffer's length. */
    method GetMessageCount() returns (count: int)
      ensures count == |receivedMessages|
    {
      count := |receivedMessages|;
    }
  }
}
