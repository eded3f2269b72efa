/**
 Tracking notifications of the Redis invalidation bus: what a notification decodes to, and the
 bounded buffers between the connection and the subscriber.
 */
module TrackingQueue {
  import opened Wrappers
  import Protocol

  const BUFFER_SIZE: nat := 256

  type Event = Protocol.Event

  // ----------------------------------------------------------------------------- decoding

  /** A value of a push notification. */
  datatype Value
    = Nil | Text(text: string) | Blob(text: string) | List(items: seq<Value>) | Texts(texts: seq<string>) | Other

  const FLUSH: Event := Protocol.Event(None, None)

  function TrackingKey(value: Value): Option<string> {
    match value
    case Text(key) => Some(key)
    case Blob(key) => Some(key)
    case _ => None
  }

  predicate HasHeader(notification: seq<Value>) {
    |notification| == 2 && notification[0] == Text("invalidate")
  }

  /** The keys that a notification lists, or None when it is malformed. */
  function ListedKeys(notification: seq<Value>): Option<seq<Value>> {
    if !HasHeader(notification) then None
    else
      match notification[1]
      case List(items) => Some(items)
      case Texts(texts) => Some(seq(|texts|, i requires 0 <= i < |texts| => Text(texts[i])))
      case _ => None
  }

  predicate WellFormed(notification: seq<Value>) {
    || (HasHeader(notification) && notification[1] == Nil)
    || (ListedKeys(notification).Some? && forall v <- ListedKeys(notification).value :: TrackingKey(v).Some?)
  }

  /** Redis dropped the whole database, or the marker key is among those listed. */
  predicate Resets(notification: seq<Value>, marker: string) {
    HasHeader(notification) && (notification[1] == Nil
                                || (ListedKeys(notification).Some?
                                    && exists v <- ListedKeys(notification).value :: TrackingKey(v) == Some(marker)))
  }

  datatype Decoded = Decoded(events: seq<Event>, refreshMarker: bool) | Malformed

  /** A notification decodes to one flush if it resets the cache, to nothing if it does not, and to
      an error exactly when it is malformed: never to an event for a single key. */
  method DecodeTrackingInvalidations(notification: seq<Value>, marker: string) returns (r: Decoded)
    ensures r == if !WellFormed(notification) then Malformed
                 else if Resets(notification, marker) then Decoded([FLUSH], true)
                 else Decoded([], false)
  {
    if |notification| != 2 { return Malformed; }
    if notification[0] != Text("invalidate") { return Malformed; }
    if notification[1] == Nil { return Decoded([FLUSH], true); }
    var keys;
    match notification[1] {
      case List(items) => keys := items;
      case Texts(texts) => keys := seq(|texts|, i requires 0 <= i < |texts| => Text(texts[i]));
      case _ => return Malformed;
    }
    var markerChanged := false;
    var i := 0;
    while i < |keys|
      invariant 0 <= i <= |keys|
      invariant forall v <- keys[..i] :: TrackingKey(v).Some?
      invariant markerChanged <==> exists v <- keys[..i] :: TrackingKey(v) == Some(marker)
    {
      assert keys[..i + 1] == keys[..i] + [keys[i]];
      var key := TrackingKey(keys[i]);
      if key.None? {
        assert keys[i] in keys;
        return Malformed;
      }
      markerChanged := markerChanged || key.value == marker;
      i := i + 1;
    }
    assert keys[..i] == keys;
    r := if markerChanged then Decoded([FLUSH], true) else Decoded([], false);
  }

  // ------------------------------------------------------------------------------ buffers

  datatype Outcome = Delivery(event: Event) | Failure(message: string) | Cancelled

  /** One atomic moment of the buffers' history. */
  datatype Moment =
    | Sent(result: Outcome)
    | Dropped(result: Outcome)
    | Got(result: Outcome)
    | GotFlush

  /** The results that entered the buffer, in order. */
  ghost function Entered(log: seq<Moment>): seq<Outcome> {
    if log == [] then []
    else
      var last := log[|log| - 1];
      Entered(log[..|log| - 1]) + if last.Sent? then [last.result] else []
  }

  /** The results the subscriber took out of it, in order. */
  ghost function Taken(log: seq<Moment>): seq<Outcome> {
    if log == [] then []
    else
      var last := log[|log| - 1];
      Taken(log[..|log| - 1]) + if last.Got? then [last.result] else []
  }

  lemma OneMoment(log: seq<Moment>, m: Moment)
    ensures Entered(log + [m]) == Entered(log) + (if m.Sent? then [m.result] else [])
    ensures Taken(log + [m]) == Taken(log) + (if m.Got? then [m.result] else [])
  {
    assert (log + [m])[..|log|] == log;
  }

  ghost predicate FlushAfter(log: seq<Moment>, p: nat) {
    exists q :: p < q < |log| && log[q] == GotFlush
  }

  class Subscription {
    var trackingMessages: seq<Outcome>
    var trackingOverflow: bool
    var pubsubMessages: Option<Outcome>
    var trackingErrors: Option<string>
    var refreshMarker: bool
    ghost var log: seq<Moment>
    /** Drops whose producer has not reached the overflow signal yet. */
    ghost var late: set<nat>

    /** Nothing that was enqueued is lost: it is delivered in order or waiting, and for every drop
        a flush was delivered later, is waiting or is about to be signalled. */
    ghost predicate Valid()
      reads this
    {
      && |trackingMessages| <= BUFFER_SIZE
      && Entered(log) == Taken(log) + trackingMessages
      && (forall p <- late :: p < |log| && log[p].Dropped?)
      && forall p: nat :: p < |log| && log[p].Dropped? ==> p in late || trackingOverflow || FlushAfter(log, p)
    }

    constructor ()
      ensures Valid() && log == []
    {
      trackingMessages, trackingOverflow, pubsubMessages, trackingErrors, refreshMarker := [], false, None, None, false;
      log, late := [], {};
    }

    /** The first select of enqueueTracking: the result enters the buffer unless that is full. */
    method TrySend(result: Outcome) returns (sent: bool, ghost at: nat)
      requires Valid()
      modifies this`trackingMessages, this`log, this`late
      ensures Valid() && at == |old(log)|
      ensures sent <==> |old(trackingMessages)| < BUFFER_SIZE
      ensures trackingMessages == old(trackingMessages) + if sent then [result] else []
      ensures log == old(log) + [if sent then Sent(result) else Dropped(result)]
      ensures late == old(late) + if sent then {} else {at}
    {
      at := |log|;
      sent := |trackingMessages| < BUFFER_SIZE;
      var m := if sent then Sent(result) else Dropped(result);
      OneMoment(log, m);
      StillFlushed(log, m);
      if sent { trackingMessages := trackingMessages + [result]; }
      log, late := log + [m], late + if sent then {} else {at};
    }

    /** The second select: a full buffer turns into one flush signal. */
    method SignalOverflow(ghost at: nat)
      requires Valid()
      modifies this`trackingOverflow, this`late
      ensures Valid() && trackingOverflow && late == old(late) - {at}
    {
      if !trackingOverflow { trackingOverflow := true; }
      late := late - {at};
    }

    /** enqueueTracking, when nothing comes in between its two selects. */
    method EnqueueTracking(result: Outcome)
      requires Valid()
      modifies this`trackingMessages, this`trackingOverflow, this`log, this`late
      ensures Valid() && late == old(late)
      ensures |old(trackingMessages)| < BUFFER_SIZE ==>
                trackingMessages == old(trackingMessages) + [result] && trackingOverflow == old(trackingOverflow)
      ensures |old(trackingMessages)| == BUFFER_SIZE ==> trackingMessages == old(trackingMessages) && trackingOverflow
      ensures log == old(log) + [if |old(trackingMessages)| < BUFFER_SIZE then Sent(result) else Dropped(result)]
    {
      var sent, at := TrySend(result);
      if !sent { SignalOverflow(at); }
    }

    /** A push notification: a reset enqueues one flush and asks for the marker to be renewed, a
        malformed one enqueues an error, and anything else changes nothing. */
    method HandlePushNotification(notification: seq<Value>, marker: string)
      requires Valid()
      modifies this`trackingMessages, this`trackingOverflow, this`log, this`late, this`refreshMarker
      ensures Valid()
      ensures WellFormed(notification) && !Resets(notification, marker) ==>
                log == old(log) && refreshMarker == old(refreshMarker)
      ensures WellFormed(notification) && Resets(notification, marker) ==>
                refreshMarker && log == old(log)
                  + [if |old(trackingMessages)| < BUFFER_SIZE then Sent(Delivery(FLUSH)) else Dropped(Delivery(FLUSH))]
      ensures !WellFormed(notification) ==>
                exists r: Outcome :: r.Failure?
                  && log == old(log) + [if |old(trackingMessages)| < BUFFER_SIZE then Sent(r) else Dropped(r)]
    {
      var decoded := DecodeTrackingInvalidations(notification, marker);
      if decoded.Malformed? {
        EnqueueTracking(Failure("malformed"));
        return;
      }
      var i := 0;
      while i < |decoded.events|
        invariant 0 <= i <= |decoded.events| <= 1 && Valid() && refreshMarker == old(refreshMarker)
        invariant i == 0 ==> log == old(log) && trackingMessages == old(trackingMessages)
        invariant i == 1 ==> log == old(log)
                                + [if |old(trackingMessages)| < BUFFER_SIZE then Sent(Delivery(FLUSH))
                                   else Dropped(Delivery(FLUSH))]
      {
        EnqueueTracking(Delivery(decoded.events[i]));
        i := i + 1;
      }
      if decoded.refreshMarker { refreshMarker := true; }
    }

    method TakeTracking() returns (r: Outcome)
      requires Valid() && trackingMessages != []
      modifies this`trackingMessages, this`log
      ensures Valid() && old(trackingMessages) == [r] + trackingMessages && log == old(log) + [Got(r)]
    {
      r := trackingMessages[0];
      OneMoment(log, Got(r));
      StillFlushed(log, Got(r));
      trackingMessages := trackingMessages[1..];
      log := log + [Got(r)];
    }

    method TakeOverflow() returns (r: Outcome)
      requires Valid() && trackingOverflow
      modifies this`trackingOverflow, this`log
      ensures Valid() && r == Delivery(FLUSH) && !trackingOverflow && log == old(log) + [GotFlush]
    {
      r := Delivery(FLUSH);
      OneMoment(log, GotFlush);
      NowFlushed(log);
      trackingOverflow := false;
      log := log + [GotFlush];
    }

    /** Receive: a tracking error comes first; otherwise any buffer that has something may be
        served, and the wait may be cancelled.  Exactly what is handed out leaves its buffer. */
    method Receive() returns (r: Outcome)
      requires Valid()
      modifies this`trackingMessages, this`trackingOverflow, this`pubsubMessages, this`trackingErrors, this`log
      ensures Valid() && trackingErrors.None?
      ensures old(trackingErrors).Some? ==>
                && r == Failure(old(trackingErrors).value) && log == old(log)
                && unchanged(`trackingMessages, `trackingOverflow, `pubsubMessages)
      ensures old(trackingErrors).None? ==>
                || (r == Cancelled && unchanged(`trackingMessages, `trackingOverflow, `pubsubMessages, `log))
                || (old(pubsubMessages) == Some(r) && pubsubMessages.None?
                    && unchanged(`trackingMessages, `trackingOverflow, `log))
                || (old(trackingMessages) == [r] + trackingMessages && log == old(log) + [Got(r)]
                    && unchanged(`trackingOverflow, `pubsubMessages))
                || (old(trackingOverflow) && !trackingOverflow && r == Delivery(FLUSH) && log == old(log) + [GotFlush]
                    && unchanged(`trackingMessages, `pubsubMessages))
    {
      if trackingErrors.Some? {
        r := Failure(trackingErrors.value);
        trackingErrors := None;
        return;
      }
      if
      case pubsubMessages.Some? =>
        r := pubsubMessages.value;
        pubsubMessages := None;
      case trackingMessages != [] =>
        r := TakeTracking();
      case trackingOverflow =>
        r := TakeOverflow();
      case true =>
        r := Cancelled;
    }

    /** Once the subscriber has drained the buffers and no producer is half way, every result that
        entered was delivered, in order, and every dropped one was followed by a delivered flush. */
    lemma DrainedLosesNothing()
      requires Valid() && trackingMessages == [] && !trackingOverflow && late == {}
      ensures Taken(log) == Entered(log)
      ensures forall p: nat :: p < |log| && log[p].Dropped? ==> FlushAfter(log, p)
    {
    }
  }

  lemma StillFlushed(log: seq<Moment>, m: Moment)
    ensures forall p: nat :: FlushAfter(log, p) ==> FlushAfter(log + [m], p)
  {
    forall p: nat | FlushAfter(log, p) ensures FlushAfter(log + [m], p) {
      var q :| p < q < |log| && log[q] == GotFlush;
      assert (log + [m])[q] == GotFlush;
    }
  }

  lemma NowFlushed(log: seq<Moment>)
    ensures forall p: nat :: p < |log| ==> FlushAfter(log + [GotFlush], p)
  {
    assert (log + [GotFlush])[|log|] == GotFlush;
  }
}
