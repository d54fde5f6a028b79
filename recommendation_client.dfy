/**
 * The browser's record of the recommendation session in progress
 * (`useRecommendationStats`): the current session, its copy in local
 * storage, and the requests the hook sends to the usage and session
 * endpoints. The clock, the device id and each request's outcome are inputs.
 */
module RecommendationClient {
  import opened Common

  /** A session idle this long (in milliseconds) is not restored. */
  const SessionTimeout: int := 5 * 60 * 1000

  datatype ClientSession = ClientSession(
    sessionId: string,
    id: string,
    startTime: int,
    lastActivity: int,
    attemptCount: nat)

  /**
   * What the storage key may hold: a session written by this hook, an empty
   * string, or text that does not decode to a session.
   */
  datatype Stored = Encoded(session: ClientSession) | Blank | Unreadable

  /** A request the hook sends. */
  datatype Outgoing =
    | UsagePost(action: string, deviceId: string)
    | SessionPost(deviceId: string, includeDrink: bool)
    | SessionPut(sessionId: string, action: string, foodId: Option<string>, drinkId: Option<string>,
                 rejectionType: Option<string>, abandonReason: Option<string>)

  /** The reply to the session-creating POST: its ids, or a failure (an error reply or a thrown fetch). */
  datatype StartReply = Started(sessionId: string, id: string) | NotStarted

  /** The same session: only the activity time and the attempt count may differ. */
  predicate SameSession(a: ClientSession, b: ClientSession) {
    a.sessionId == b.sessionId && a.id == b.id && a.startTime == b.startTime
  }

  /** A session the server has just opened. */
  function NewSession(reply: StartReply, now: int): (s: ClientSession)
    requires reply.Started?
    ensures s.sessionId == reply.sessionId && s.id == reply.id
    ensures s.startTime == now && s.lastActivity == now && s.attemptCount == 0
  {
    ClientSession(reply.sessionId, reply.id, now, now, 0)
  }

  /** `updateSessionActivity`'s new session: the same session, active now. */
  function Touched(s: ClientSession, now: int): (t: ClientSession)
    ensures SameSession(s, t) && t.attemptCount == s.attemptCount && t.lastActivity == now
  {
    s.(lastActivity := now)
  }

  /** `recordAttempt`'s new session: the same session, active now, one more attempt. */
  function Attempted(s: ClientSession, now: int): (t: ClientSession)
    ensures SameSession(s, t) && t.attemptCount == s.attemptCount + 1 && t.lastActivity == now
  {
    s.(lastActivity := now, attemptCount := s.attemptCount + 1)
  }

  /** What `saveSessionToStorage` leaves under the key: the session, or nothing for `null`. */
  function StoredForm(s: Option<ClientSession>): Option<Stored> {
    if s.Some? then Some(Encoded(s.value)) else None
  }

  /** `loadSessionFromStorage`'s result: a stored session idle for less than the timeout. */
  function Restored(stored: Option<Stored>, now: int): (r: Option<ClientSession>)
    ensures r.Some? <==>
      stored.Some? && stored.value.Encoded? && now - stored.value.session.lastActivity < SessionTimeout
    ensures r.Some? ==> r.value == stored.value.session
  {
    if stored.Some? && stored.value.Encoded? && now - stored.value.session.lastActivity < SessionTimeout
    then Some(stored.value.session)
    else None
  }

  /**
   * What the load leaves in storage: an expired or unreadable entry is
   * removed; a restored session, an empty string or nothing stays as it is.
   */
  function KeptAfterLoad(stored: Option<Stored>, now: int): (k: Option<Stored>)
    ensures k == stored || k.None?
    ensures k.None? && stored.Some? <==> stored.Some? && !stored.value.Blank? && Restored(stored, now).None?
  {
    if stored.Some? && !stored.value.Blank? && Restored(stored, now).None? then None else stored
  }

  /** A saved session comes back from storage exactly while it is fresh, and is removed after. */
  lemma SaveLoadRoundTrip(s: ClientSession, now: int)
    ensures Restored(StoredForm(Some(s)), now) == (if now - s.lastActivity < SessionTimeout then Some(s) else None)
    ensures KeptAfterLoad(StoredForm(Some(s)), now) == (if now - s.lastActivity < SessionTimeout then StoredForm(Some(s)) else None)
    ensures Restored(StoredForm(None), now).None? && KeptAfterLoad(StoredForm(None), now).None?
  {
  }

  /** Loading twice at the same time gives what loading once gave, and leaves the same storage. */
  lemma LoadIdempotent(stored: Option<Stored>, now: int)
    ensures Restored(KeptAfterLoad(stored, now), now) == Restored(stored, now)
    ensures KeptAfterLoad(KeptAfterLoad(stored, now), now) == KeptAfterLoad(stored, now)
  {
  }

  /** An attempt keeps the session alive: a reload within the timeout restores it, count included. */
  lemma AttemptKeepsSessionAlive(s: ClientSession, at: int, later: int)
    requires at <= later < at + SessionTimeout
    ensures Restored(StoredForm(Some(Attempted(s, at))), later) == Some(Attempted(s, at))
    ensures Restored(StoredForm(Some(Attempted(s, at))), later).value.attemptCount == s.attemptCount + 1
  {
  }

  class SessionTracker {
    var current: Option<ClientSession>
    /** The session storage key's value. */
    var storage: Option<Stored>
    /** Every request sent so far, in order. */
    var sent: seq<Outgoing>

    /** The hook starts without a session; storage holds whatever an earlier page left. */
    constructor (stored: Option<Stored>)
      ensures current.None? && storage == stored && sent == []
    {
      current, storage, sent := None, stored, [];
    }

    /** A current session is the one in storage. */
    predicate Synced()
      reads this
    {
      current.Some? ==> storage == StoredForm(current)
    }

    /** `saveSessionToStorage` */
    method Save(s: Option<ClientSession>)
      modifies this`storage
      ensures storage == StoredForm(s)
    {
      storage := StoredForm(s);
    }

    /** `loadSessionFromStorage` */
    method Load(now: int) returns (r: Option<ClientSession>)
      modifies this`storage
      ensures r == Restored(old(storage), now)
      ensures storage == KeptAfterLoad(old(storage), now)
    {
      r := None;
      if storage.Some? && storage.value != Blank {
        if storage.value.Encoded? && now - storage.value.session.lastActivity < SessionTimeout {
          r := Some(storage.value.session);
        } else {
          storage := None;
        }
      }
    }

    /** The mount effect: a restored session becomes the current one. */
    method Restore(now: int)
      modifies this`storage, this`current
      ensures current == (if Restored(old(storage), now).Some? then Restored(old(storage), now) else old(current))
      ensures storage == KeptAfterLoad(old(storage), now)
      ensures Restored(old(storage), now).Some? ==> Synced()
    {
      var r := Load(now);
      if r.Some? {
        current := r;
      }
    }

    /** `recordUsageStats`: the POST is sent; its outcome does not matter. */
    method RecordUsage(action: string, deviceId: string)
      modifies this`sent
      ensures sent == old(sent) + [UsagePost(action, deviceId)]
    {
      sent := sent + [UsagePost(action, deviceId)];
    }

    /** `updateSessionActivity` */
    method UpdateActivity(s: ClientSession, now: int) returns (t: ClientSession)
      modifies this`current, this`storage
      ensures t == Touched(s, now) && current == Some(t) && Synced()
    {
      t := Touched(s, now);
      current := Some(t);
      Save(Some(t));
    }

    /**
     * `startSession`: a usage 'session_start', then the session POST. On
     * success the new session is current and stored; otherwise nothing changes.
     */
    method StartSession(includeDrink: bool, deviceId: string, reply: StartReply, now: int) returns (r: Option<ClientSession>)
      modifies this
      ensures sent == old(sent) + [UsagePost("session_start", deviceId), SessionPost(deviceId, includeDrink)]
      ensures reply.Started? ==> r == current == Some(NewSession(reply, now)) && Synced()
      ensures reply.NotStarted? ==> r.None? && current == old(current) && storage == old(storage)
    {
      RecordUsage("session_start", deviceId);
      sent := sent + [SessionPost(deviceId, includeDrink)];
      if reply.NotStarted? {
        return None;
      }
      var s := NewSession(reply, now);
      current := Some(s);
      Save(Some(s));
      r := Some(s);
    }

    /**
     * `recordAttempt`: without a session, nothing happens. Otherwise a usage
     * 'attempt', the session is raised and stored, and then the PUT is sent;
     * its result is not looked at.
     */
    method RecordAttempt(foodId: string, drinkId: Option<string>, deviceId: string, now: int)
      modifies this
      ensures old(current).None? ==> current == old(current) && storage == old(storage) && sent == old(sent)
      ensures old(current).Some? ==>
        && current == Some(Attempted(old(current).value, now)) && Synced()
        && sent == old(sent) + [UsagePost("attempt", deviceId),
                                SessionPut(old(current).value.sessionId, "attempt", Some(foodId), drinkId, None, None)]
    {
      if current.None? {
        return;
      }
      var s := current.value;
      RecordUsage("attempt", deviceId);
      var t := Attempted(s, now);
      current := Some(t);
      Save(Some(t));
      sent := sent + [SessionPut(s.sessionId, "attempt", Some(foodId), drinkId, None, None)];
    }

    /** Ends the session after an accept or a reject the server confirmed; keeps it otherwise. */
    method Close(action: string, foodId: string, drinkId: Option<string>, rejectionType: Option<string>,
                 deviceId: string, succeeded: bool)
      requires action == "accept" || action == "reject"
      modifies this
      ensures old(current).None? ==> current == old(current) && storage == old(storage) && sent == old(sent)
      ensures old(current).Some? ==>
        && sent == old(sent) + [UsagePost(action, deviceId),
                                SessionPut(old(current).value.sessionId, action, Some(foodId), drinkId, rejectionType, None)]
        && (succeeded ==> current.None? && storage.None?)
        && (!succeeded ==> current == old(current) && storage == old(storage))
    {
      if current.None? {
        return;
      }
      RecordUsage(action, deviceId);
      sent := sent + [SessionPut(current.value.sessionId, action, Some(foodId), drinkId, rejectionType, None)];
      if succeeded {
        current := None;
        Save(None);
      }
    }

    /** `recordAcceptance` */
    method RecordAcceptance(foodId: string, drinkId: Option<string>, deviceId: string, succeeded: bool)
      modifies this
      ensures old(current).None? ==> current == old(current) && storage == old(storage) && sent == old(sent)
      ensures old(current).Some? ==>
        && sent == old(sent) + [UsagePost("accept", deviceId),
                                SessionPut(old(current).value.sessionId, "accept", Some(foodId), drinkId, None, None)]
        && (succeeded ==> current.None? && storage.None?)
        && (!succeeded ==> current == old(current) && storage == old(storage))
    {
      Close("accept", foodId, drinkId, None, deviceId, succeeded);
    }

    /** `recordRejection`, with 'today' or 'forever'. */
    method RecordRejection(foodId: string, drinkId: Option<string>, rejectionType: string, deviceId: string, succeeded: bool)
      modifies this
      ensures old(current).None? ==> current == old(current) && storage == old(storage) && sent == old(sent)
      ensures old(current).Some? ==>
        && sent == old(sent) + [UsagePost("reject", deviceId),
                                SessionPut(old(current).value.sessionId, "reject", Some(foodId), drinkId, Some(rejectionType), None)]
        && (succeeded ==> current.None? && storage.None?)
        && (!succeeded ==> current == old(current) && storage == old(storage))
    {
      Close("reject", foodId, drinkId, Some(rejectionType), deviceId, succeeded);
    }

    /**
     * `markCurrentSessionAsAbandoned`: without a session, nothing happens.
     * Otherwise a usage 'abandon' and the PUT; once the PUT completes, with
     * whatever result, the session is cleared; if it throws, it is kept.
     */
    method MarkCurrentAbandoned(reason: string, deviceId: string, completed: bool)
      modifies this
      ensures old(current).None? ==> current == old(current) && storage == old(storage) && sent == old(sent)
      ensures old(current).Some? ==>
        && sent == old(sent) + [UsagePost("abandon", deviceId),
                                SessionPut(old(current).value.sessionId, "abandon", None, None, None, Some(reason))]
        && (completed ==> current.None? && storage.None?)
        && (!completed ==> current == old(current) && storage == old(storage))
    {
      if current.None? {
        return;
      }
      RecordUsage("abandon", deviceId);
      sent := sent + [SessionPut(current.value.sessionId, "abandon", None, None, None, Some(reason))];
      if completed {
        current := None;
        Save(None);
      }
    }

    /**
     * `markSessionAsAbandoned`: reports `s` as abandoned with reason 'timeout';
     * nothing else changes. The hook defines it but nothing calls it (an expired
     * stored session is dropped on load without a request), so it is modelled
     * standing alone.
     */
    method MarkSessionAbandoned(s: ClientSession)
      modifies this`sent
      ensures sent == old(sent) + [SessionPut(s.sessionId, "abandon", None, None, None, Some("timeout"))]
    {
      sent := sent + [SessionPut(s.sessionId, "abandon", None, None, None, Some("timeout"))];
    }

    /** `recordClick` */
    method RecordClick(deviceId: string)
      modifies this`sent
      ensures sent == old(sent) + [UsagePost("click", deviceId)]
    {
      RecordUsage("click", deviceId);
    }
  }
}
