/**
 * The server-sent-events service: a list of client emitters, an event
 * counter and an event id, the broadcast that drops clients whose send failed,
 * and the scheduled random event with its type chosen from the counter.
 *
 * What each send does is given as parameters: `failed` holds the emitters
 * whose send throws an IOException, and `escapes` maps an emitter to any
 * other exception its send throws (that outcome wins if an emitter is in both).
 */
module SseService {
  import opened Wrappers
  import opened JavaLang

  /** The event types, each with its wire name and a description. */
  datatype EventType = System | Weather | Stock | News | Alert
  {
    /** `getType()`, which `toString()` also returns. */
    function Type(): string
    {
      match this
      case System => "system"
      case Weather => "weather"
      case Stock => "stock"
      case News => "news"
      case Alert => "alert"
    }

    function Description(): string
    {
      match this
      case System => "System notifications and status updates"
      case Weather => "Weather data updates"
      case Stock => "Stock market data"
      case News => "News headlines"
      case Alert => "Important alerts and notifications"
    }
  }

  /** An event as handed to the emitters. */
  datatype SseEvent = SseEvent(eventType: string, data: string, timestamp: string, id: string)

  /** A client connection; its identity is all the service uses. */
  class Emitter {
    const timeout: int

    constructor (timeout: int)
      ensures this.timeout == timeout
    {
      this.timeout := timeout;
    }
  }

  /**
   * One successful `emitter.send`: the emitter, the SSE frame's id (sent as
   * its decimal text, `String.valueOf`), its name and its data.
   */
  datatype Delivery = Delivery(emitter: Emitter, id: int, name: string, data: SseEvent)

  /** The text of the frame's `id:` line, `String.valueOf` of the id. */
  function IdText(d: Delivery): (s: string)
    ensures |s| >= 1
  {
    IntToString(d.id)
  }

  /** Frames with different ids carry different `id:` lines. */
  lemma IdTextInjective(d: Delivery, e: Delivery)
    requires IdText(d) == IdText(e)
    ensures d.id == e.id
  {
    IntToStringInjective(d.id, e.id);
  }

  /**
   * `determineEventType`: checked in priority order, divisible by 5, then by
   * 4, then by 3, then by 2. Java's `%` is zero exactly when Dafny's is.
   */
  function DetermineEventType(number: int): (t: EventType)
    ensures t == Alert <==> number % 5 == 0
    ensures t == News <==> number % 5 != 0 && number % 4 == 0
    ensures t == Stock <==> number % 5 != 0 && number % 4 != 0 && number % 3 == 0
    ensures t == Weather <==> number % 5 != 0 && number % 4 != 0 && number % 3 != 0 && number % 2 == 0
    ensures t == System <==> number % 5 != 0 && number % 4 != 0 && number % 3 != 0 && number % 2 != 0
  {
    if JRem(number, 5) == 0 then Alert
    else if JRem(number, 4) == 0 then News
    else if JRem(number, 3) == 0 then Stock
    else if JRem(number, 2) == 0 then Weather
    else System
  }

  /** 20 is divisible by both 5 and 4, and 5 wins; 12 by both 4 and 3, and 4 wins. */
  lemma DetermineEventTypePriority()
    ensures DetermineEventType(20) == Alert && DetermineEventType(12) == News
    ensures DetermineEventType(9) == Stock && DetermineEventType(14) == Weather && DetermineEventType(1) == System
  {
  }

  /** The text before the number in each kind of event data. */
  function Lead(t: EventType): string
  {
    match t
    case Alert => "\U{1F6A8} Alert #"
    case News => "\U{1F4F0} News #"
    case Stock => "\U{1F4C8} Stock #"
    case Weather => "\U{1F324}\U{FE0F} Weather #"
    case System => "\U{2699}\U{FE0F} System #"
  }

  /** The text after the number in each kind of event data. */
  function Trail(t: EventType): string
  {
    match t
    case Alert => ": System maintenance scheduled"
    case News => ": Breaking news update"
    case Stock => ": Market data update"
    case Weather => ": Temperature update"
    case System => ": Status update"
  }

  /** `generateEventData`: the type's text with the number in decimal. */
  function GenerateEventData(number: int, t: EventType): (s: string)
    ensures |s| == |Lead(t)| + |IntToString(number)| + |Trail(t)|
    ensures s[..|Lead(t)|] == Lead(t) && s[|s| - |Trail(t)|..] == Trail(t)
    ensures s[|Lead(t)|..|s| - |Trail(t)|] == IntToString(number)
  {
    SplitThree(Lead(t), IntToString(number), Trail(t));
    Lead(t) + IntToString(number) + Trail(t)
  }

  /** For a given type, the data names its number. */
  lemma EventDataIdentifiesNumber(a: int, b: int, t: EventType)
    requires GenerateEventData(a, t) == GenerateEventData(b, t)
    ensures a == b
  {
    var s := GenerateEventData(a, t);
    assert IntToString(a) == s[|Lead(t)|..|s| - |Trail(t)|] == IntToString(b);
    IntToStringInjective(a, b);
  }

  /** The event `sendRandomEvent` builds from the counter value and the current event id. */
  function RandomEvent(number: int, timestamp: string, eventId: int): (e: SseEvent)
    ensures e.eventType == DetermineEventType(number).Type()
    ensures e.id == IntToString(eventId)
  {
    var t := DetermineEventType(number);
    SseEvent(t.Type(), GenerateEventData(number, t), timestamp, IntToString(eventId))
  }

  // ---------- The emitter list ----------

  predicate Distinct(es: seq<Emitter>)
  {
    forall i, j | 0 <= i < j < |es| :: es[i] != es[j]
  }

  /** `list.removeAll(dead)`: every element found in `dead` goes, the rest keep their order. */
  function RemoveAll(es: seq<Emitter>, dead: seq<Emitter>): (r: seq<Emitter>)
    ensures |r| <= |es|
  {
    if es == [] then []
    else
      var n := |es| - 1;
      assert es == es[..n] + [es[n]];
      RemoveAll(es[..n], dead) + (if es[n] in dead then [] else [es[n]])
  }

  /** The emitters whose send fails, in list order: the `deadEmitters` list. */
  function FailedOf(es: seq<Emitter>, failed: set<Emitter>): (r: seq<Emitter>)
    ensures |r| <= |es|
  {
    if es == [] then []
    else
      var n := |es| - 1;
      assert es == es[..n] + [es[n]];
      FailedOf(es[..n], failed) + (if es[n] in failed then [es[n]] else [])
  }

  /** `AtomicLong.getAndIncrement` leaves the next `long`, wrapping from the largest to the smallest. */
  function NextLong(x: int): (r: int)
    ensures IsLong(x) ==> IsLong(r) && r != x
  {
    if x == LONG_MAX then LONG_MIN else x + 1
  }

  /** The event id after `k` draws starting from `firstId`. */
  function IdAfter(firstId: int, k: nat): (r: int)
    ensures IsLong(firstId) ==> IsLong(r)
  {
    if k == 0 then firstId else NextLong(IdAfter(firstId, k - 1))
  }

  /** From a `long` start, `k` draws give the start plus `k` in 64-bit two's complement. */
  lemma {:induction false} IdAfterWraps(firstId: int, k: nat)
    requires IsLong(firstId)
    ensures IdAfter(firstId, k) == WrapLong(firstId + k)
  {
    if k > 0 {
      IdAfterWraps(firstId, k - 1);
      WrapLongAdd(firstId + (k - 1), 1);
      var x := IdAfter(firstId, k - 1);
      assert IsLong(x);
      if x == LONG_MAX {
        assert WrapLong(x + 1) == LONG_MIN;
      }
    }
  }

  /**
   * The frames `sendEvent` delivers: every emitter outside `failed` gets the
   * event, with the id drawn for its position in the list.
   */
  function Deliveries(es: seq<Emitter>, failed: set<Emitter>, event: SseEvent, firstId: int): (r: seq<Delivery>)
    ensures |r| + |FailedOf(es, failed)| == |es|
  {
    if es == [] then []
    else
      var n := |es| - 1;
      Deliveries(es[..n], failed, event, firstId)
      + (if es[n] in failed then [] else [Delivery(es[n], IdAfter(firstId, n), event.eventType, event)])
  }

  /** `removeAll` keeps exactly the elements not in `dead`. */
  lemma {:induction false} RemoveAllMembers(es: seq<Emitter>, dead: seq<Emitter>)
    ensures forall e :: e in RemoveAll(es, dead) <==> e in es && e !in dead
  {
    if es != [] {
      var n := |es| - 1;
      assert es == es[..n] + [es[n]];
      RemoveAllMembers(es[..n], dead);
    }
  }

  /** The dead list holds exactly the listed emitters whose send failed. */
  lemma {:induction false} FailedOfMembers(es: seq<Emitter>, failed: set<Emitter>)
    ensures forall e :: e in FailedOf(es, failed) <==> e in es && e in failed
  {
    if es != [] {
      var n := |es| - 1;
      assert es == es[..n] + [es[n]];
      FailedOfMembers(es[..n], failed);
    }
  }

  /** Each frame goes to a listed emitter outside `failed` and carries the event. */
  lemma {:induction false} DeliveriesTargets(es: seq<Emitter>, failed: set<Emitter>, event: SseEvent, firstId: int)
    ensures forall d | d in Deliveries(es, failed, event, firstId) :: d.emitter in es && d.emitter !in failed && d.data == event
  {
    if es != [] {
      var n := |es| - 1;
      DeliveriesTargets(es[..n], failed, event, firstId);
      var front := Deliveries(es[..n], failed, event, firstId);
      var last := if es[n] in failed then [] else [Delivery(es[n], IdAfter(firstId, n), event.eventType, event)];
      var r := Deliveries(es, failed, event, firstId);
      assert r == front + last;
      forall d | d in r ensures d.emitter in es && d.emitter !in failed && d.data == event {
        if d in front {
          assert d.emitter in es[..n];
        }
      }
    }
  }

  /** After a broadcast, exactly the emitters whose send failed are gone. */
  lemma SurvivorsAreExactlyTheUnfailed(es: seq<Emitter>, failed: set<Emitter>)
    ensures forall e :: e in RemoveAll(es, FailedOf(es, failed)) <==> e in es && e !in failed
  {
    RemoveAllMembers(es, FailedOf(es, failed));
    FailedOfMembers(es, failed);
  }

  /** `removeAll` works element by element, so survivors keep their relative order. */
  lemma {:induction false} RemoveAllAppend(a: seq<Emitter>, b: seq<Emitter>, dead: seq<Emitter>)
    ensures RemoveAll(a + b, dead) == RemoveAll(a, dead) + RemoveAll(b, dead)
  {
    if b != [] {
      var n := |b| - 1;
      assert (a + b)[..|a| + n] == a + b[..n];
      RemoveAllAppend(a, b[..n], dead);
    } else {
      assert a + b == a;
    }
  }

  /** With nothing to remove the list is unchanged. */
  lemma {:induction false} RemoveAllNothing(es: seq<Emitter>)
    ensures RemoveAll(es, []) == es
  {
    if es != [] {
      RemoveAllNothing(es[..|es| - 1]);
      assert es == es[..|es| - 1] + [es[|es| - 1]];
    }
  }

  /** Removing from a repeat-free list leaves it repeat-free. */
  lemma {:induction false} RemoveAllDistinct(es: seq<Emitter>, dead: seq<Emitter>)
    requires Distinct(es)
    ensures Distinct(RemoveAll(es, dead))
  {
    if es != [] {
      var n := |es| - 1;
      assert Distinct(es[..n]) by {
        assert forall i | 0 <= i < n :: es[..n][i] == es[i];
      }
      RemoveAllDistinct(es[..n], dead);
      RemoveAllMembers(es[..n], dead);
      assert es[n] !in es[..n];
    }
  }

  /** `list.remove(e)`: the first occurrence of `e`, if any, goes. */
  function RemoveFirst(es: seq<Emitter>, e: Emitter): (r: seq<Emitter>)
    ensures |r| == if e in es then |es| - 1 else |es|
    ensures forall x :: x in r ==> x in es
  {
    if es == [] then []
    else if es[0] == e then es[1..]
    else [es[0]] + RemoveFirst(es[1..], e)
  }

  /** In a repeat-free list, removing an emitter removes it entirely and keeps every other. */
  lemma {:induction false} RemoveFirstDistinct(es: seq<Emitter>, e: Emitter)
    requires Distinct(es)
    ensures Distinct(RemoveFirst(es, e))
    ensures forall x :: x in RemoveFirst(es, e) <==> x in es && x != e
  {
    if es != [] {
      assert Distinct(es[1..]) by {
        assert forall i | 0 <= i < |es| - 1 :: es[1..][i] == es[i + 1];
      }
      assert es[0] !in es[1..];
      RemoveFirstDistinct(es[1..], e);
    }
  }

  /**
   * The position of the first emitter whose send throws an exception other
   * than IOException, or the list's length when there is none.
   */
  function FirstEscape(es: seq<Emitter>, escapes: map<Emitter, Throwable>): (k: nat)
    ensures k <= |es|
    ensures forall j | 0 <= j < k :: es[j] !in escapes
    ensures k < |es| ==> es[k] in escapes
  {
    if es == [] then 0
    else if es[0] in escapes then 0
    else 1 + FirstEscape(es[1..], escapes)
  }

  /** The contract of FirstEscape determines it: no escape before i, and one at i or the end of the list. */
  lemma FirstEscapeAt(es: seq<Emitter>, escapes: map<Emitter, Throwable>, i: nat)
    requires i <= |es| && forall j | 0 <= j < i :: es[j] !in escapes
    requires i < |es| ==> es[i] in escapes
    ensures FirstEscape(es, escapes) == i
  {
  }

  /** Extending the processed prefix by one emitter extends the dead list and the deliveries by its outcome. */
  lemma PrefixStep(es: seq<Emitter>, i: nat, failed: set<Emitter>, event: SseEvent, firstId: int)
    requires i < |es|
    ensures FailedOf(es[..i + 1], failed) == FailedOf(es[..i], failed) + (if es[i] in failed then [es[i]] else [])
    ensures Deliveries(es[..i + 1], failed, event, firstId) == Deliveries(es[..i], failed, event, firstId)
      + (if es[i] in failed then [] else [Delivery(es[i], IdAfter(firstId, i), event.eventType, event)])
  {
    assert es[..i + 1][..i] == es[..i];
  }


  // ---------- The service ----------

  class Service {
    var counter: int
    var eventId: int
    var emitters: seq<Emitter>
    var deliveries: seq<Delivery>

    /** The counter is an `int`, the id a `long`, and no client is listed twice. */
    predicate Valid()
      reads this
    {
      IsInt(counter) && IsLong(eventId) && Distinct(emitters)
    }

    /** Both counters start at 1 and no client is connected. */
    constructor ()
      ensures Valid() && counter == 1 && eventId == 1 && emitters == [] && deliveries == []
    {
      counter, eventId := 1, 1;
      emitters, deliveries := [], [];
    }

    /** `subscribe`: a new emitter with no timeout is appended to the list. */
    method Subscribe() returns (emitter: Emitter)
      requires Valid()
      modifies this
      ensures Valid() && fresh(emitter) && emitter.timeout == LONG_MAX
      ensures emitters == old(emitters) + [emitter]
      ensures counter == old(counter) && eventId == old(eventId) && deliveries == old(deliveries)
    {
      emitter := new Emitter(LONG_MAX);
      emitters := emitters + [emitter];
    }

    /** The completion, timeout and error callbacks: `emitters.remove(emitter)`. */
    method Disconnect(emitter: Emitter)
      requires Valid()
      modifies this
      ensures Valid()
      ensures emitters == RemoveFirst(old(emitters), emitter)
      ensures emitter !in emitters
      ensures counter == old(counter) && eventId == old(eventId) && deliveries == old(deliveries)
    {
      RemoveFirstDistinct(emitters, emitter);
      emitters := RemoveFirst(emitters, emitter);
    }

    /**
     * `sendEvent`: every listed emitter is sent the event under a fresh id,
     * drawn before the send, so a failed send uses one up as well; the
     * emitters whose send failed (with an IOException, the set `failed`) are
     * then removed. Any other exception from a send is not caught: it ends the
     * loop at that emitter and propagates, and no emitter is removed.
     */
    method SendEvent(event: SseEvent, failed: set<Emitter>, escapes: map<Emitter, Throwable>)
      returns (thrown: Option<Throwable>)
      requires Valid()
      modifies this
      ensures Valid()
      ensures var k := FirstEscape(old(emitters), escapes);
              k == |old(emitters)| ==>
                && thrown.None?
                && emitters == RemoveAll(old(emitters), FailedOf(old(emitters), failed))
                && eventId == IdAfter(old(eventId), |old(emitters)|)
                && deliveries == old(deliveries) + Deliveries(old(emitters), failed, event, old(eventId))
      ensures var k := FirstEscape(old(emitters), escapes);
              k < |old(emitters)| ==>
                && thrown == Some(escapes[old(emitters)[k]])
                && emitters == old(emitters)
                && eventId == IdAfter(old(eventId), k + 1)
                && deliveries == old(deliveries) + Deliveries(old(emitters)[..k], failed, event, old(eventId))
      ensures counter == old(counter)
    {
      var snapshot := emitters;
      var firstId, nextId := eventId, eventId;
      var dead: seq<Emitter> := [];
      var sent: seq<Delivery> := [];
      var i := 0;
      while i < |snapshot| && snapshot[i] !in escapes
        modifies {}
        invariant 0 <= i <= |snapshot|
        invariant nextId == IdAfter(firstId, i)
        invariant dead == FailedOf(snapshot[..i], failed)
        invariant sent == Deliveries(snapshot[..i], failed, event, firstId)
        invariant forall j | 0 <= j < i :: snapshot[j] !in escapes
      {
        var emitter := snapshot[i];
        var id := nextId;
        nextId := NextLong(nextId);
        PrefixStep(snapshot, i, failed, event, firstId);
        // A send that throws an IOException marks the emitter dead; the others deliver.
        if emitter in failed {
          dead := dead + [emitter];
        } else {
          sent := sent + [Delivery(emitter, id, event.eventType, event)];
        }
        i := i + 1;
      }
      if i < |snapshot| {
        // The send to snapshot[i] drew its id and threw: the exception leaves the loop.
        FirstEscapeAt(snapshot, escapes, i);
        eventId := NextLong(nextId);
        deliveries := deliveries + sent;
        return Some(escapes[snapshot[i]]);
      }
      FirstEscapeAt(snapshot, escapes, i);
      eventId := nextId;
      deliveries := deliveries + sent;
      assert snapshot[..i] == snapshot;
      RemoveAllDistinct(emitters, dead);
      emitters := RemoveAll(emitters, dead);
      thrown := None;
    }

    /**
     * `sendRandomEvent`: take the counter's value (it advances with `int`
     * wrap-around), build the event for it under the current id, and send it.
     */
    method SendRandomEvent(timestamp: string, failed: set<Emitter>, escapes: map<Emitter, Throwable>)
      returns (event: SseEvent, thrown: Option<Throwable>)
      requires Valid()
      modifies this
      ensures Valid()
      ensures event == RandomEvent(old(counter), timestamp, old(eventId))
      ensures counter == WrapInt(old(counter) + 1)
      ensures var k := FirstEscape(old(emitters), escapes);
              k == |old(emitters)| ==>
                && thrown.None?
                && emitters == RemoveAll(old(emitters), FailedOf(old(emitters), failed))
                && eventId == IdAfter(old(eventId), |old(emitters)|)
                && deliveries == old(deliveries) + Deliveries(old(emitters), failed, event, old(eventId))
      ensures var k := FirstEscape(old(emitters), escapes);
              k < |old(emitters)| ==>
                && thrown == Some(escapes[old(emitters)[k]])
                && emitters == old(emitters)
                && eventId == IdAfter(old(eventId), k + 1)
                && deliveries == old(deliveries) + Deliveries(old(emitters)[..k], failed, event, old(eventId))
    {
      var currentNumber := counter;
      counter := WrapInt(counter + 1);
      var eventType := DetermineEventType(currentNumber);
      var eventData := GenerateEventData(currentNumber, eventType);
      event := SseEvent(eventType.Type(), eventData, timestamp, IntToString(eventId));
      thrown := SendEvent(event, failed, escapes);
    }

    /** `getActiveClientCount`. */
    method GetActiveClientCount() returns (count: int)
      ensures count == |emitters|
    {
      count := |emitters|;
    }
  }
}
