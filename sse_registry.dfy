/**
 * The registry of open push connections, one per `eventId:userId`.
 * An emitter is an opaque handle; a new one is the next unused number.
 * What the registry sends is recorded in `delivered`; the emitters it has
 * completed are recorded in `completed`.
 */
module SseRegistry {

  import opened Wrappers
  import JavaText
  import Domain
  import Responses
  import Sets

  type Handle = nat

  /** One push: the emitter it went to, its SSE event name and its payload. */
  datatype Delivery = Delivery(emitter: Handle, name: string, event: Responses.QueueSseEvent)

  /** Thirty minutes, in milliseconds. */
  const SSE_TIMEOUT: int := 30 * 60 * 1000

  type Emitters = map<string, Handle>

  /** `register` on the map: the key now names the new emitter, whatever it named before. */
  function Registered(m: Emitters, key: string, emitter: Handle): (r: Emitters)
    ensures r.Keys == m.Keys + {key} && r[key] == emitter
  {
    m[key := emitter]
  }

  /** A teardown callback as written: it removes whatever emitter is stored under its key. */
  function RemovedByKey(m: Emitters, key: string): (r: Emitters)
    ensures key !in r && r.Keys == m.Keys - {key}
  {
    m - {key}
  }

  /** The intended teardown: remove the key only while it still names the callback's own emitter. */
  function RemovedIfCurrent(m: Emitters, key: string, emitter: Handle): (r: Emitters)
    ensures key in m && m[key] == emitter ==> key !in r && r.Keys == m.Keys - {key}
    ensures !(key in m && m[key] == emitter) ==> r == m
  {
    if key in m && m[key] == emitter then m - {key} else m
  }

  /**
   * Re-registering a key completes the old emitter, whose completion
   * callback then fires; the callback as written drops the new
   * registration, so the user stops receiving pushes.
   */
  lemma ReplacedEmitterCallbackDropsReplacement()
    ensures var m := Registered(Registered(map[], "E:u", 0), "E:u", 1);
      "E:u" in m && RemovedByKey(m, "E:u") == map[]
  {
  }

  /** With the identity check, a stale callback never removes a newer emitter. */
  lemma StaleCallbackKeepsReplacement(m: Emitters, key: string, stale: Handle, current: Handle)
    requires stale != current
    ensures RemovedIfCurrent(Registered(m, key, current), key, stale) == Registered(m, key, current)
  {
  }

  /**
   * The pushes made by sending `events[i]` to `users[i]`, in order, over
   * the connections `m` when none of the users appears twice: one push per
   * user registered under the event whose connection does not fail, none
   * for the others.
   */
  function Pushes(m: Emitters, eventId: string, users: seq<string>, events: seq<Responses.QueueSseEvent>,
                  unreachable: set<string>): (r: seq<Delivery>)
    requires |events| == |users|
    ensures |r| <= |users|
    decreases |users|
  {
    if users == [] then []
    else
      var n := |users| - 1;
      var key := Domain.CompositeKey(eventId, users[n]);
      Pushes(m, eventId, users[..n], events[..n], unreachable) +
      if key in m && users[n] !in unreachable then [Delivery(m[key], events[n].eventType, events[n])] else []
  }

  /** The keys such a run of sends drops: those of the users whose connection fails. */
  function Dropped(eventId: string, users: seq<string>, unreachable: set<string>): set<string>
  {
    set u | u in users && u in unreachable :: Domain.CompositeKey(eventId, u)
  }

  /** The push `users[i]` gets in such a run, when it gets one. */
  function PushTo(m: Emitters, eventId: string, users: seq<string>, events: seq<Responses.QueueSseEvent>, i: nat): Delivery
    requires |events| == |users| && i < |users| && Domain.CompositeKey(eventId, users[i]) in m
  {
    Delivery(m[Domain.CompositeKey(eventId, users[i])], events[i].eventType, events[i])
  }

  /**
   * The pushes of a run are exactly those of the reachable registered users:
   * each such user gets the push carrying their event, on their emitter,
   * and every push is one of these.
   */
  lemma {:induction false} PushesReach(m: Emitters, eventId: string, users: seq<string>,
                                       events: seq<Responses.QueueSseEvent>, unreachable: set<string>)
    requires |events| == |users|
    ensures forall i | 0 <= i < |users| && Domain.CompositeKey(eventId, users[i]) in m && users[i] !in unreachable ::
              PushTo(m, eventId, users, events, i) in Pushes(m, eventId, users, events, unreachable)
    ensures forall d | d in Pushes(m, eventId, users, events, unreachable) ::
              exists i | 0 <= i < |users| ::
                Domain.CompositeKey(eventId, users[i]) in m && users[i] !in unreachable && d == PushTo(m, eventId, users, events, i)
    decreases |users|
  {
    if users != [] {
      var n := |users| - 1;
      var front, frontEvents := users[..n], events[..n];
      PushesReach(m, eventId, front, frontEvents, unreachable);
      forall i | 0 <= i < n && Domain.CompositeKey(eventId, users[i]) in m
        ensures PushTo(m, eventId, front, frontEvents, i) == PushTo(m, eventId, users, events, i)
      {
        assert front[i] == users[i] && frontEvents[i] == events[i];
      }
      forall d | d in Pushes(m, eventId, users, events, unreachable)
        ensures exists i | 0 <= i < |users| ::
                  Domain.CompositeKey(eventId, users[i]) in m && users[i] !in unreachable && d == PushTo(m, eventId, users, events, i)
      {
        if d !in Pushes(m, eventId, front, frontEvents, unreachable) {
          assert d == PushTo(m, eventId, users, events, n);
        } else {
          var i :| 0 <= i < n && Domain.CompositeKey(eventId, front[i]) in m && front[i] !in unreachable &&
                   d == PushTo(m, eventId, front, frontEvents, i);
          assert users[i] == front[i];
        }
      }
    }
  }

  /**
   * One more send in such a run: the user's key is still as the run found
   * it, and the pushes and drops grow by that user's share.
   */
  lemma SendExtends(m: Emitters, eventId: string, users: seq<string>, events: seq<Responses.QueueSseEvent>,
                    unreachable: set<string>, i: nat)
    requires |events| == |users| && i < |users|
    requires forall j, k | 0 <= j < k < |users| :: users[j] != users[k]
    ensures var key := Domain.CompositeKey(eventId, users[i]);
      var current := m - Dropped(eventId, users[..i], unreachable);
      (key in current <==> key in m) && (key in m ==> current[key] == m[key]) &&
      Pushes(m, eventId, users[..i + 1], events[..i + 1], unreachable) ==
        Pushes(m, eventId, users[..i], events[..i], unreachable) +
        (if key in m && users[i] !in unreachable then [Delivery(m[key], events[i].eventType, events[i])] else []) &&
      m - Dropped(eventId, users[..i + 1], unreachable) ==
        (if key in m && users[i] in unreachable then current - {key} else current)
  {
    var key := Domain.CompositeKey(eventId, users[i]);
    assert users[..i + 1][..i] == users[..i] && events[..i + 1][..i] == events[..i];
    assert key !in Dropped(eventId, users[..i], unreachable) by {
      forall u | u in users[..i] ensures Domain.CompositeKey(eventId, u) != key {
        var j :| 0 <= j < i && users[..i][j] == u;
        assert users[j] == u;
        Domain.SameEventKeysDiffer(eventId, u, users[i]);
      }
    }
    assert users[..i + 1] == users[..i] + [users[i]];
    assert Dropped(eventId, users[..i + 1], unreachable) ==
           Dropped(eventId, users[..i], unreachable) + (if users[i] in unreachable then {key} else {});
  }

  /**
   * A run of sends continues: whatever `send` does for the next user,
   * starting from the run so far, yields the run one user longer.
   */
  lemma SendContinuesRun(m: Emitters, d: seq<Delivery>, eventId: string, users: seq<string>,
                         events: seq<Responses.QueueSseEvent>, unreachable: set<string>, i: nat,
                         emitters': Emitters, delivered': seq<Delivery>)
    requires |events| == |users| && i < |users|
    requires forall j, k | 0 <= j < k < |users| :: users[j] != users[k]
    requires var key := Domain.CompositeKey(eventId, users[i]);
      var current := m - Dropped(eventId, users[..i], unreachable);
      var sent := d + Pushes(m, eventId, users[..i], events[..i], unreachable);
      if key !in current then emitters' == current && delivered' == sent
      else if users[i] in unreachable then emitters' == current - {key} && delivered' == sent
      else emitters' == current && delivered' == sent + [Delivery(current[key], events[i].eventType, events[i])]
    ensures emitters' == m - Dropped(eventId, users[..i + 1], unreachable)
    ensures delivered' == d + Pushes(m, eventId, users[..i + 1], events[..i + 1], unreachable)
  {
    SendExtends(m, eventId, users, events, unreachable, i);
  }

  /** The keys that `getEmitterCountByEventId` counts. */
  function KeysOfEvent(m: Emitters, eventId: string): (keys: set<string>)
    ensures keys <= m.Keys
    ensures forall userId :: Domain.CompositeKey(eventId, userId) in m ==> Domain.CompositeKey(eventId, userId) in keys
  {
    forall userId | Domain.CompositeKey(eventId, userId) in m
      ensures JavaText.StartsWith(Domain.CompositeKey(eventId, userId), eventId + ":")
    {
      assert Domain.CompositeKey(eventId, userId) == (eventId + ":") + userId;
    }
    set k | k in m && JavaText.StartsWith(k, eventId + ":")
  }

  class QueueSseEmitterRegistry {
    var emitters: Emitters
    /** The handle the next `new SseEmitter` gets. */
    var nextHandle: Handle
    var completed: set<Handle>
    var delivered: seq<Delivery>

    /** Every stored emitter was created here, is stored once, and has not been completed. */
    ghost predicate Valid()
      reads this
    {
      (forall k | k in emitters :: emitters[k] < nextHandle && emitters[k] !in completed) &&
      (forall k, k' | k in emitters && k' in emitters && k != k' :: emitters[k] != emitters[k']) &&
      (forall h | h in completed :: h < nextHandle)
    }

    constructor ()
      ensures Valid() && emitters == map[] && nextHandle == 0 && completed == {} && delivered == []
    {
      emitters := map[];
      nextHandle := 0;
      completed := {};
      delivered := [];
    }

    /** `register`: completes and drops any emitter of the key, then stores a new one. */
    method Register(eventId: string, userId: string) returns (emitter: Handle)
      requires Valid()
      modifies this
      ensures Valid()
      ensures emitter == old(nextHandle) && nextHandle == emitter + 1
      ensures emitter !in old(completed) && forall k | k in old(emitters) :: old(emitters)[k] != emitter
      ensures emitters == Registered(old(emitters), Domain.CompositeKey(eventId, userId), emitter)
      ensures var key := Domain.CompositeKey(eventId, userId);
        completed == old(completed) + (if key in old(emitters) then {old(emitters)[key]} else {})
      ensures delivered == old(delivered)
    {
      var key := Domain.CompositeKey(eventId, userId);
      ghost var others := emitters - {key};
      if key in emitters {
        completed := completed + {emitters[key]};
        emitters := emitters - {key};
      }
      assert emitters == others;
      emitter := nextHandle;
      nextHandle := nextHandle + 1;
      emitters := emitters[key := emitter];
      assert Valid() by {
        forall k | k in emitters ensures emitters[k] < nextHandle && emitters[k] !in completed {
          if k != key { assert emitters[k] == others[k]; }
        }
        forall k, k' | k in emitters && k' in emitters && k != k' ensures emitters[k] != emitters[k'] {
          if k != key && k' != key { assert emitters[k] == others[k] && emitters[k'] == others[k']; }
        }
      }
    }

    /**
     * `send`: a no-op without an emitter; otherwise the event goes out under
     * its type name, or, when the write fails (`sendFails`), the key is
     * dropped and nothing is retried.
     */
    method Send(eventId: string, userId: string, event: Responses.QueueSseEvent, sendFails: bool)
      requires Valid()
      modifies this
      ensures Valid()
      ensures nextHandle == old(nextHandle) && completed == old(completed)
      ensures var key := Domain.CompositeKey(eventId, userId);
        if key !in old(emitters) then emitters == old(emitters) && delivered == old(delivered)
        else if sendFails then emitters == old(emitters) - {key} && delivered == old(delivered)
        else emitters == old(emitters) && delivered == old(delivered) + [Delivery(old(emitters)[key], event.eventType, event)]
    {
      var key := Domain.CompositeKey(eventId, userId);
      if key !in emitters {
        return;
      }
      if sendFails {
        emitters := emitters - {key};
      } else {
        delivered := delivered + [Delivery(emitters[key], event.eventType, event)];
      }
    }

    /** `complete`: removes the key and completes its emitter, if any. */
    method Complete(eventId: string, userId: string)
      requires Valid()
      modifies this
      ensures Valid()
      ensures var key := Domain.CompositeKey(eventId, userId);
        emitters == old(emitters) - {key} &&
        completed == old(completed) + (if key in old(emitters) then {old(emitters)[key]} else {})
      ensures nextHandle == old(nextHandle) && delivered == old(delivered)
    {
      var key := Domain.CompositeKey(eventId, userId);
      if key in emitters {
        completed := completed + {emitters[key]};
        emitters := emitters - {key};
      }
    }

    /**
     * The completion, timeout and error callbacks of `emitter`, registered
     * under `eventId:userId`, with the identity check (see
     * RemovedByKey for the callbacks as written).
     */
    method OnEmitterDone(eventId: string, userId: string, emitter: Handle)
      requires Valid()
      modifies this
      ensures Valid()
      ensures emitters == RemovedIfCurrent(old(emitters), Domain.CompositeKey(eventId, userId), emitter)
      ensures nextHandle == old(nextHandle) && completed == old(completed) && delivered == old(delivered)
    {
      emitters := RemovedIfCurrent(emitters, Domain.CompositeKey(eventId, userId), emitter);
    }

    /** `getEmitterCount`. */
    function GetEmitterCount(): (n: nat)
      reads this
      ensures n == |emitters.Keys|
    {
      |emitters|
    }

    /** `getEmitterCountByEventId`: keys starting with `eventId + ":"`. */
    function GetEmitterCountByEventId(eventId: string): (n: nat)
      reads this
      ensures n <= GetEmitterCount()
      ensures forall userId :: Domain.CompositeKey(eventId, userId) in emitters ==> n >= 1
    {
      var keys := KeysOfEvent(emitters, eventId);
      assert keys <= emitters.Keys;
      Sets.SubsetCard(keys, emitters.Keys);
      |keys|
    }
  }
}
