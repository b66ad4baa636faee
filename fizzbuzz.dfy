/**
 * The FizzBuzz websocket controller: the classification of a number, the
 * text sent for it, the echo reply, and the scheduled broadcast that consumes
 * one number of a shared counter per run.
 */
module FizzBuzzWebSocket {
  import opened Wrappers
  import opened JavaLang
  import opened MessageTypes

  /** The payload sent to subscribers: a topic (the type's value), a text and a timestamp. */
  datatype FizzBuzzMessage = FizzBuzzMessage(topic: string, message: string, timestamp: string)

  /**
   * `determineMessageType`: divisible by 15, else by 3, else by 5, else a
   * plain number. Java's `%` is zero exactly when Dafny's is, whatever the sign.
   */
  function DetermineMessageType(number: int): (t: MessageType)
    ensures t == FizzBuzz <==> number % 3 == 0 && number % 5 == 0
    ensures t == Fizz <==> number % 3 == 0 && number % 5 != 0
    ensures t == Buzz <==> number % 3 != 0 && number % 5 == 0
    ensures t == Number <==> number % 3 != 0 && number % 5 != 0
  {
    if JRem(number, 15) == 0 then FizzBuzz
    else if JRem(number, 3) == 0 then Fizz
    else if JRem(number, 5) == 0 then Buzz
    else Number
  }

  /** The text before the number in each kind of message. */
  function Lead(t: MessageType): string
  {
    match t
    case FizzBuzz => "FizzBuzz! Number "
    case Fizz => "Fizz! Number "
    case Buzz => "Buzz! Number "
    case _ => "Number "
  }

  /** The text after the number in each kind of message. */
  function Trail(t: MessageType): string
  {
    match t
    case FizzBuzz => " is divisible by both 3 and 5"
    case Fizz => " is divisible by 3"
    case Buzz => " is divisible by 5"
    case _ => " is not divisible by 3 or 5"
  }

  /** `generateFizzBuzzMessage`: the text for the number's type, with the number in decimal. */
  function GenerateFizzBuzzMessage(number: int): (s: string)
    ensures var t := DetermineMessageType(number);
      |s| == |Lead(t)| + |IntToString(number)| + |Trail(t)|
      && s[..|Lead(t)|] == Lead(t)
      && s[|Lead(t)|..|s| - |Trail(t)|] == IntToString(number)
      && s[|s| - |Trail(t)|..] == Trail(t)
  {
    var lead, digits, trail := Lead(DetermineMessageType(number)), IntToString(number), Trail(DetermineMessageType(number));
    SplitThree(lead, digits, trail);
    lead + digits + trail
  }

  /** The leading text tells the four kinds apart by its first and fifth chars. */
  lemma LeadDistinguishes(s: string, t: MessageType, u: MessageType)
    requires t != Welcome && u != Welcome
    requires |s| >= |Lead(t)| && s[..|Lead(t)|] == Lead(t)
    requires |s| >= |Lead(u)| && s[..|Lead(u)|] == Lead(u)
    ensures t == u
  {
    assert s[0] == Lead(t)[0] == Lead(u)[0];
    assert s[4] == Lead(t)[4] == Lead(u)[4];
  }

  /** Every message names its number: different numbers never share a text. */
  lemma MessageIdentifiesNumber(a: int, b: int)
    requires GenerateFizzBuzzMessage(a) == GenerateFizzBuzzMessage(b)
    ensures a == b
  {
    var s, t, u := GenerateFizzBuzzMessage(a), DetermineMessageType(a), DetermineMessageType(b);
    LeadDistinguishes(s, t, u);
    assert IntToString(a) == s[|Lead(t)|..|s| - |Trail(t)|] == IntToString(b);
    IntToStringInjective(a, b);
  }

  /** The message the scheduled task builds for a number. */
  function ScheduledMessage(number: int, timestamp: string): (m: FizzBuzzMessage)
    ensures m.topic in GetAllValues() && m.topic != Welcome.Value()
  {
    FizzBuzzMessage(DetermineMessageType(number).Value(), GenerateFizzBuzzMessage(number), timestamp)
  }

  const EchoPrefix: string := "Echo: "

  /** `handleMessage`: a welcome-typed echo of the incoming text (a null text echoes as "null"). */
  function HandleMessage(message: Option<string>, timestamp: string): (m: FizzBuzzMessage)
    ensures m.topic == Welcome.Value() && m.timestamp == timestamp
    ensures |m.message| >= |EchoPrefix| && m.message[..|EchoPrefix|] == EchoPrefix
    ensures m.message[|EchoPrefix|..] == StringValueOf(message)
  {
    FizzBuzzMessage(Welcome.Value(), EchoPrefix + StringValueOf(message), timestamp)
  }

  /** The controller with its `AtomicInteger` counter and the broadcasts that reached the topic. */
  class FizzBuzzController {
    var counter: int
    var broadcasts: seq<FizzBuzzMessage>

    /** The counter always holds a Java `int`. */
    predicate Valid()
      reads this
    {
      IsInt(counter)
    }

    /** The counter starts at 1 and nothing has been broadcast. */
    constructor ()
      ensures Valid() && counter == 1 && broadcasts == []
    {
      counter := 1;
      broadcasts := [];
    }

    /**
     * `sendFizzBuzzMessage`: take the counter's value and increment it (with
     * `int` wrap-around), build the message, and broadcast it. `failure` is
     * what serialising or sending throws, if anything: a broadcast that fails
     * with an Exception is dropped silently, and only an Error escapes.
     */
    method SendFizzBuzzMessage(timestamp: string, failure: Option<Throwable>)
      returns (built: FizzBuzzMessage, thrown: Option<Throwable>)
      requires Valid()
      modifies this
      ensures Valid()
      ensures built == ScheduledMessage(old(counter), timestamp)
      ensures counter == WrapInt(old(counter) + 1)
      ensures broadcasts == old(broadcasts) + (if failure.None? then [built] else [])
      ensures thrown == (if failure.Some? && !failure.value.IsException() then failure else None)
    {
      var currentNumber := counter;
      counter := WrapInt(counter + 1);
      var messageType := DetermineMessageType(currentNumber);
      var message := GenerateFizzBuzzMessage(currentNumber);
      built := FizzBuzzMessage(messageType.Value(), message, timestamp);
      thrown := None;
      if failure.None? {
        broadcasts := broadcasts + [built];
      } else if !failure.value.IsException() {
        thrown := failure;
      }
    }
  }

  /** The counter's value after `k` scheduled runs, whether or not they broadcast. */
  function CounterAfter(k: nat): (c: int)
    ensures IsInt(c)
  {
    if k == 0 then 1 else WrapInt(CounterAfter(k - 1) + 1)
  }

  /** Run k + 1 uses number k + 1, until the `int` range runs out. */
  lemma {:induction false} CounterAfterRuns(k: nat)
    requires k < INT_MAX
    ensures CounterAfter(k) == k + 1
  {
    if k > 0 {
      CounterAfterRuns(k - 1);
    }
  }

  /** After 2^31 - 1 runs the counter wraps to the most negative `int`. */
  lemma CounterWraps()
    ensures CounterAfter(INT_MAX) == INT_MIN
  {
    CounterAfterRuns(INT_MAX - 1);
  }
}
