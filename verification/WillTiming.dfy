/** What closing a connection does with the client's will message and with the session
    (client_lifecycle.go: handleWillOnClose, the scheduling helpers and
    scheduleSessionExpiryCleanup). Times are seconds after the close. */
module WillTiming {
  import opened Options

  const NEVER_EXPIRES: nat := 0xFFFF_FFFF
  const GRACE: nat := 2

  // The cluster-wide will delay center; a failing call may have taken effect.
  datatype Center = Missing | Works | Fails(applied: bool)

  datatype Via = AtOnce | ByCenter | ByTimer

  // One publication of the will that was started or scheduled.
  datatype Will = Will(due: nat, via: Via)

  function SessionExpiry(interval: nat): Option<nat> {
    if interval == NEVER_EXPIRES then None else Some(interval)
  }

  /** The due time section 3.1.3.2.2 of MQTT Version 5.0 asks for: the will delay or the end
      of the session, whichever comes first. */
  function Due(delay: nat, interval: nat): nat {
    match SessionExpiry(interval)
    case None => delay
    case Some(expiry) => if expiry < delay then expiry else delay
  }

  predicate Accepts(center: Center) {
    center.Works? || (center.Fails? && center.applied)
  }

  // The center is consulted only for a will that is not due at once.
  predicate Delayed(delay: nat, interval: nat) {
    delay > 0 && interval > 0
  }

  function ThroughChannel(channel: bool, will: Will): seq<Will> {
    if channel then [will] else []
  }

  /** scheduleWillAtSessionExpiryTask and the center call of scheduleWillDelay. */
  method AddTask(center: Center, due: nat) returns (ok: bool, wills: seq<Will>)
    ensures ok <==> center.Works?
    ensures wills == if Accepts(center) then [Will(due, ByCenter)] else []
  {
    match center
    case Missing => return false, [];
    case Works => return true, [Will(due, ByCenter)];
    case Fails(applied) => return false, if applied then [Will(due, ByCenter)] else [];
  }

  /** handleWillOnClose. `atExpiry` asks the session cleanup to publish; `scheduled` tells it
      that the center will, at session expiry. */
  method HandleWill(owed: bool, token: bool, channel: bool, delay: nat, interval: nat, center: Center)
    returns (wills: seq<Will>, atExpiry: bool, scheduled: bool)
    ensures atExpiry || scheduled <==>
              owed && token && Delayed(delay, interval) && SessionExpiry(interval).Some? && interval <= delay
    ensures (scheduled ==> center.Works?) && (atExpiry ==> !center.Works?)
    ensures forall i :: 0 <= i < |wills| ==>
              wills[i].due == Due(delay, interval) && (wills[i].via.ByCenter? ==> Delayed(delay, interval))
    ensures !(owed && token) ==> wills == []
    ensures owed && token && !Delayed(delay, interval) ==> |wills| == if channel then 1 else 0
    ensures owed && token && Delayed(delay, interval) ==>
              |wills| == (if Accepts(center) then 1 else 0) + (if channel && !center.Works? && !atExpiry then 1 else 0)
  {
    wills, atExpiry, scheduled := [], false, false;
    if !owed || !token { return; }
    if interval == 0 {
      wills := ThroughChannel(channel, Will(0, AtOnce));
      return;
    }
    if delay > 0 && SessionExpiry(interval).Some? && interval <= delay {
      var ok, added := AddTask(center, interval);
      wills := added;
      if ok { scheduled := true; } else { atExpiry := true; }
      return;
    }
    if delay > 0 {
      var ok, added := AddTask(center, delay);
      wills := added;
      if !ok {
        wills := wills + ThroughChannel(channel, Will(delay, ByTimer));
      }
      return;
    }
    wills := ThroughChannel(channel, Will(0, AtOnce));
  }

  /** scheduleSessionExpiryCleanup: when the local cleanup runs, and the will it publishes just
      before. */
  method ScheduleCleanup(interval: nat, channel: bool, atExpiry: bool, scheduled: bool)
    returns (wills: seq<Will>, cleanup: Option<nat>)
    requires atExpiry ==> interval > 0
    ensures cleanup.None? <==> interval == NEVER_EXPIRES
    ensures cleanup.Some? ==> cleanup.value == interval + if scheduled && interval > 0 then GRACE else 0
    ensures wills == if atExpiry && channel && cleanup.Some? then [Will(cleanup.value, ByTimer)] else []
  {
    if SessionExpiry(interval).None? {
      return [], None;
    }
    if interval == 0 {
      return [], Some(0);
    }
    var at := interval;
    if scheduled { at := at + GRACE; }
    return if atExpiry then ThroughChannel(channel, Will(at, ByTimer)) else [], Some(at);
  }

  /** The part of close that deals with the will and the session.

      With a way to publish, an owed will gets exactly one publication, due at the time the
      standard asks for, unless the center stored the task and reported an error: then, and
      only then, a second one with the same due time is started locally. The session is not
      cleaned up before any of them is due. */
  method CloseSession(owed: bool, token: bool, channel: bool, delay: nat, interval: nat, center: Center)
    returns (wills: seq<Will>, cleanup: Option<nat>)
    ensures forall i :: 0 <= i < |wills| ==> wills[i].due == Due(delay, interval)
    ensures forall i :: 0 <= i < |wills| ==>
              wills[i].due == if interval != 0xFFFF_FFFF && interval < delay then interval else delay
    ensures owed && token && channel ==>
              |wills| == if delay > 0 && interval > 0 && center == Fails(true) then 2 else 1
    ensures owed && token && !channel ==>
              && |wills| <= 1
              && (|wills| == 1 <==> delay > 0 && interval > 0 && (center.Works? || center == Fails(true)))
    ensures !(owed && token) ==> wills == []
    ensures cleanup.None? <==> interval == NEVER_EXPIRES
    ensures cleanup.Some? ==> interval <= cleanup.value <= interval + 2
    ensures cleanup.Some? ==> forall i :: 0 <= i < |wills| ==> wills[i].due <= cleanup.value
    ensures cleanup.Some? ==> forall i :: 0 <= i < |wills| && wills[i].via.ByCenter? && center.Works? ==>
              wills[i].due < cleanup.value
  {
    var first, atExpiry, scheduled := HandleWill(owed, token, channel, delay, interval, center);
    var second, at := ScheduleCleanup(interval, channel, atExpiry, scheduled);
    wills, cleanup := first + second, at;
  }
}
