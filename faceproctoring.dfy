/**
 * The face-proctoring hook of app/hooks/useFaceProctoring.ts: how one round
 * of face detections becomes the displayed monitoring state and a violation
 * request, and the per-key 15-second cooldown that decides whether a
 * requested violation reaches `onViolation`. The head-orientation estimate
 * (floating-point landmark geometry) is an input: each detection is given
 * as the orientation `determineOrientation` would assign it.
 */
module FaceProctoring {
  import opened Wrappers

  datatype Status = Idle | Loading | Ready | Failed

  datatype Orientation = Ok | LookingAway | Unknown

  /** `FaceMonitoringState`; `lastDetection` is a millisecond time or null. */
  datatype MonitorState = MonitorState(
    status: Status,
    message: Option<string>,
    faceCount: int,
    orientation: Orientation,
    lastDetection: Option<int>)

  const DefaultState := MonitorState(Idle, None, 0, Unknown, None)

  const OrientationViolationMessage := "Face appears to be looking away from the screen"
  const NoFaceMessage := "No face detected in webcam feed"
  const MultipleFaceMessage := "Multiple faces detected in webcam feed"
  const WaitingMessage := "Waiting for webcam stream..."

  const ViolationCooldownMs := 15000

  /** A violation request: the cooldown key and the message for `onViolation`. */
  datatype Request = Request(key: string, message: string)

  /**
   * The state the hook settles in when it does not start detecting: idle when
   * disabled, waiting when enabled without a stream. `None` means detection
   * starts.
   */
  function Guard(enabled: bool, hasStream: bool): (r: Option<MonitorState>)
    ensures !enabled ==> r == Some(DefaultState) && r.value.status == Idle
    ensures enabled && !hasStream ==>
      (r.Some? && r.value.status == Loading && r.value.message == Some(WaitingMessage)
       && r.value.faceCount == 0 && r.value.orientation == Unknown && r.value.lastDetection.None?)
    ensures r.None? <==> enabled && hasStream
  {
    if !enabled then Some(DefaultState)
    else if !hasStream then Some(DefaultState.(status := Loading, message := Some(WaitingMessage)))
    else None
  }

  /** The state on first render, before any effect has run. */
  function InitialState(enabled: bool): (r: MonitorState)
    ensures r.status == (if enabled then Loading else Idle)
    ensures r.message == (if enabled then Some(WaitingMessage) else None)
    ensures r.faceCount == 0 && r.orientation == Unknown && r.lastDetection.None?
  {
    DefaultState.(status := if enabled then Loading else Idle, message := if enabled then Some(WaitingMessage) else None)
  }

  /**
   * `processDetections`: the new state (every field is patched, so the old
   * state does not show through) and the violation it requests, if any.
   */
  function Classify(detections: seq<Orientation>, now: int): (r: (MonitorState, Option<Request>))
    ensures r.0.status == Ready && r.0.lastDetection == Some(now) && r.0.faceCount == |detections|
    ensures |detections| == 0 ==>
      (r.0.orientation == Unknown && r.0.message == Some(NoFaceMessage)
       && r.1 == Some(Request("no-face", NoFaceMessage)))
    ensures |detections| > 1 ==>
      (r.0.orientation == Unknown && r.0.message == Some(MultipleFaceMessage)
       && r.1 == Some(Request("multiple-faces", MultipleFaceMessage)))
    ensures |detections| == 1 ==>
      (r.0.orientation == detections[0]
       && r.0.message == Some(if detections[0] == Ok then "Single face detected" else OrientationViolationMessage)
       && (r.1.Some? <==> detections[0] == LookingAway)
       && (r.1.Some? ==> r.1 == Some(Request("orientation", OrientationViolationMessage))))
  {
    if |detections| == 0 then
      (MonitorState(Ready, Some(NoFaceMessage), 0, Unknown, Some(now)), Some(Request("no-face", NoFaceMessage)))
    else if |detections| > 1 then
      (MonitorState(Ready, Some(MultipleFaceMessage), |detections|, Unknown, Some(now)),
       Some(Request("multiple-faces", MultipleFaceMessage)))
    else
      var o := detections[0];
      var msg := if o == Ok then "Single face detected" else OrientationViolationMessage;
      (MonitorState(Ready, Some(msg), 1, o, Some(now)),
       if o == LookingAway then Some(Request("orientation", OrientationViolationMessage)) else None)
  }

  /** An unknown orientation shows the looking-away message but requests nothing. */
  lemma UnknownIsQuiet(now: int)
    ensures var r := Classify([Unknown], now);
      r.0.message == Some(OrientationViolationMessage) && r.1.None?
  {
  }

  /** The time a key last fired, 0 when it never has. */
  function LastFired(last: map<string, int>, key: string): int {
    if key in last then last[key] else 0
  }

  /** `triggerViolation`'s test: the cooldown has passed for this key. */
  predicate Fires(last: map<string, int>, key: string, now: int) {
    now - LastFired(last, key) >= ViolationCooldownMs
  }

  /** Firing on one key leaves the cooldown of every other key as it was. */
  lemma KeysIndependent(last: map<string, int>, key: string, other: string, t: int, now: int)
    requires key != other
    ensures Fires(last[key := t], other, now) == Fires(last, other, now)
  {
  }

  /** One `onViolation` call: the key it was fired for, its message and the time. */
  datatype Firing = Firing(key: string, message: string, at: int)

  /** The hook's mutable parts: the displayed state, the cooldown table and the violations reported. */
  class Proctor {
    var state: MonitorState
    var last: map<string, int>
    var reported: seq<Firing>

    /**
     * Every reported firing is recorded in the table no later than the key's
     * last firing, and two firings of one key lie at least 15 s apart.
     */
    ghost predicate Valid()
      reads this
    {
      (forall i :: 0 <= i < |reported| ==> reported[i].key in last && reported[i].at <= last[reported[i].key])
      && (forall i, j :: 0 <= i < j < |reported| && reported[i].key == reported[j].key ==>
            reported[j].at - reported[i].at >= ViolationCooldownMs)
    }

    constructor(enabled: bool)
      ensures Valid()
      ensures state == InitialState(enabled) && last == map[] && reported == []
    {
      state := InitialState(enabled);
      last := map[];
      reported := [];
    }

    /** The guard effect: settles the state when disabled or without a stream. */
    method ApplyGuard(enabled: bool, hasStream: bool)
      modifies this
      ensures state == if Guard(enabled, hasStream).Some? then Guard(enabled, hasStream).value else old(state)
      ensures last == old(last) && reported == old(reported)
    {
      var g := Guard(enabled, hasStream);
      if g.Some? {
        state := g.value;
      }
    }

    /**
     * `triggerViolation`: reports `message` and records `now` for `key` alone
     * exactly when the key's cooldown has passed.
     */
    method TriggerViolation(key: string, message: string, now: int) returns (fired: bool)
      requires Valid()
      modifies this
      ensures Valid()
      ensures fired <==> Fires(old(last), key, now)
      ensures last == if fired then old(last)[key := now] else old(last)
      ensures reported == if fired then old(reported) + [Firing(key, message, now)] else old(reported)
      ensures state == old(state)
    {
      var previous := if key in last then last[key] else 0;
      if now - previous < ViolationCooldownMs {
        return false;
      }
      forall i | 0 <= i < |reported| && reported[i].key == key
        ensures now - reported[i].at >= ViolationCooldownMs
      {
        assert reported[i].at <= last[key];
      }
      last := last[key := now];
      reported := reported + [Firing(key, message, now)];
      fired := true;
    }

    /** `processDetections`: the classified state, then the requested violation, if any. */
    method ProcessDetections(detections: seq<Orientation>, now: int)
      requires Valid()
      modifies this
      ensures Valid()
      ensures state == Classify(detections, now).0
      ensures var req := Classify(detections, now).1;
        if req.Some? && Fires(old(last), req.value.key, now) then
          last == old(last)[req.value.key := now] && reported == old(reported) + [Firing(req.value.key, req.value.message, now)]
        else
          last == old(last) && reported == old(reported)
    {
      var c := Classify(detections, now);
      state := c.0;
      if c.1.Some? {
        var _ := TriggerViolation(c.1.value.key, c.1.value.message, now);
      }
    }

    /** A failing detection round keeps the counts and shows the failure. */
    method DetectionFailed()
      modifies this
      ensures state == old(state).(status := Failed, message := Some("Face detection failed. Check console for details."))
      ensures last == old(last) && reported == old(reported)
    {
      state := state.(status := Failed, message := Some("Face detection failed. Check console for details."));
    }
  }
}
