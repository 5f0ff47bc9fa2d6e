/** Which devices are waiting for a recovery run: one run per device, and a pause after a failure. */
module RecoveryQueue {
  import opened Basics

  const QUEUE_LIMIT := 100
  const HISTORY_RETRY_DELAY: Time := 30 * SECOND

  type Marker = (int, int)
  datatype Request = Request(device: string, uid: string, acknowledged: int, newest: int, marker: Marker)

  /** What a device reports; a field is None when it is missing or not an integer. */
  datatype Report = Report(
    ready: bool, acknowledged: Option<int>, nextSequence: Option<int>,
    networkRecovery: Option<int>, mqttRecovery: Option<int>)

  predicate AtLeast(field: Option<int>, least: int) { field.Some? && field.value >= least }

  predicate Readable(report: Report) {
    && AtLeast(report.networkRecovery, 0) && AtLeast(report.mqttRecovery, 0) && report.ready
    && AtLeast(report.acknowledged, 0) && AtLeast(report.nextSequence, 1)
  }

  function RequestOf(device: string, uid: string, report: Report): Request
    requires Readable(report)
  {
    Request(device, uid, report.acknowledged.value, report.nextSequence.value - 1,
            (report.networkRecovery.value, report.mqttRecovery.value))
  }

  function Devices(queue: seq<Request>): set<string> { set r | r in queue :: r.device }

  class Coordinator {
    var active: bool
    var queue: seq<Request>
    var running: Option<Request>
    var pendingDevices: set<string>
    var retryAfter: map<string, Time>
    var completedMarkers: map<string, Marker>

    /** A device is pending exactly while it waits or runs, and never twice. */
    ghost predicate Valid()
      reads this
    {
      && |queue| <= QUEUE_LIMIT
      && (forall i, j :: 0 <= i < j < |queue| ==> queue[i].device != queue[j].device)
      && (running.Some? ==> running.value.device !in Devices(queue))
      && pendingDevices == Devices(queue) + (if running.Some? then {running.value.device} else {})
    }

    constructor ()
      ensures Valid() && queue == [] && running.None? && retryAfter == map[] && completedMarkers == map[]
    {
      active, queue, running, pendingDevices := true, [], None, {};
      retryAfter, completedMarkers := map[], map[];
    }

    /** Queues a run for a device that is idle, has news since its last completed run, and is not being paused. */
    method Schedule(device: string, uid: string, report: Report, now: Time) returns (scheduled: bool)
      requires Valid()
      modifies this
      ensures Valid() && active == old(active) && running == old(running) && retryAfter == old(retryAfter)
      ensures scheduled <==>
                && device != "" && Readable(report) && active
                && device !in old(pendingDevices) && |old(queue)| < 100
                && report.acknowledged.value < report.nextSequence.value - 1
                && !(device in old(completedMarkers)
                     && old(completedMarkers)[device] == (report.networkRecovery.value, report.mqttRecovery.value))
                && !(device in old(retryAfter) && now < old(retryAfter)[device])
      ensures queue == if scheduled
                       then old(queue) + [Request(device, uid, report.acknowledged.value, report.nextSequence.value - 1,
                                                  (report.networkRecovery.value, report.mqttRecovery.value))]
                       else old(queue)
      ensures completedMarkers ==
                if device != "" && Readable(report) && active && device !in old(pendingDevices)
                   && report.nextSequence.value - 1 <= report.acknowledged.value
                then old(completedMarkers)[device := (report.networkRecovery.value, report.mqttRecovery.value)]
                else old(completedMarkers)
    {
      if device == "" || !Readable(report) { return false; }
      var request := RequestOf(device, uid, report);
      if !active { return false; }
      if device in pendingDevices { return false; }
      if device in completedMarkers && completedMarkers[device] == request.marker { return false; }
      if request.newest <= request.acknowledged {
        completedMarkers := completedMarkers[device := request.marker];
        return false;
      }
      if device in retryAfter && now < retryAfter[device] { return false; }
      ghost var before := queue;
      pendingDevices := pendingDevices + {device};
      if |queue| == QUEUE_LIMIT {
        pendingDevices := pendingDevices - {device};
        return false;
      }
      queue := queue + [request];
      assert forall r :: r in queue <==> r in before || r == request;
      assert forall r :: r in before ==> r.device in Devices(before);
      return true;
    }

    method TakeNext() returns (request: Option<Request>)
      requires Valid() && running.None?
      modifies this`queue, this`running
      ensures Valid() && running == request && pendingDevices == old(pendingDevices)
      ensures if old(queue) == [] then request == None && queue == []
              else request == Some(old(queue)[0]) && queue == old(queue)[1..]
    {
      if queue == [] { return None; }
      ghost var before := queue;
      request := Some(queue[0]);
      queue := queue[1..];
      running := request;
      assert forall r :: r in before <==> r == before[0] || r in queue;
    }

    /** A completed run records its marker; a failed one pauses the device. */
    method Finish(completed: bool, now: Time)
      requires Valid() && running.Some?
      modifies this`running, this`pendingDevices, this`completedMarkers, this`retryAfter
      ensures Valid() && running.None? && queue == old(queue)
      ensures var device := old(running).value.device;
              && device !in pendingDevices
              && (if completed then completedMarkers == old(completedMarkers)[device := old(running).value.marker]
                                    && retryAfter == old(retryAfter) - {device}
                  else completedMarkers == old(completedMarkers)
                       && retryAfter == old(retryAfter)[device := now + 30 * SECOND])
    {
      var request := running.value;
      if completed {
        completedMarkers := completedMarkers[request.device := request.marker];
        retryAfter := retryAfter - {request.device};
      } else {
        retryAfter := retryAfter[request.device := now + HISTORY_RETRY_DELAY];
      }
      pendingDevices := pendingDevices - {request.device};
      running := None;
    }
  }
}
