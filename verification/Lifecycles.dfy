/** What one Add and one Expire do to every session and what they answer, case by case,
    said with the stored sessions and the verdict on windows only. */
module Lifecycles {
  import opened Arithmetic
  import opened Window
  import opened Keys
  import opened Rings
  import opened Sessions
  import opened Runs
  import opened Verdicts

  /** What releasing by plate change and by inactivity leaves before the session of key is
      looked up at the time at. */
  ghost predicate Stays(cfg: Config, ss: SessionMap, key: Key, at: Time, k: Key) {
    && k in ss
    && (k.scaleID == key.scaleID && k.plate != key.plate ==> !ss[k].state.Finalized?)
    && (k == key ==> Sub(at, ss[k].lastSeen) <= cfg.inactivityTimeout)
  }

  ghost function Staying(cfg: Config, ss: SessionMap, key: Key, at: Time): set<Key> {
    set k | k in ss && Stays(cfg, ss, key, at, k)
  }

  lemma ReleasedAreStaying(cfg: Config, ss: SessionMap, key: Key, at: Time)
    ensures var left := Released(cfg, ss, key, at);
            && left.Keys == Staying(cfg, ss, key, at)
            && forall k :: k in left ==> left[k] == ss[k]
  {
    var left := Released(cfg, ss, key, at);
    forall k
      ensures k in left <==> Stays(cfg, ss, key, at, k)
      ensures k in left ==> left[k] == ss[k]
    {
      if k in ss {
        ReleasedLookup(cfg, ss, key, at, k);
      }
    }
  }

  ghost predicate IsLeastRecent(ss: SessionMap, keys: set<Key>, k: Key) {
    k in keys && k in ss && forall l :: l in keys && l in ss ==> ss[k].lastSeen <= ss[l].lastSeen
  }

  /** Add evicts k: the session of key is not stored, the manager is full, and k is the
      least recently seen session that was chosen. */
  ghost predicate IsEvicted(cfg: Config, ss: SessionMap, key: Key, at: Time, victim: Key, k: Key) {
    var keys := Staying(cfg, ss, key, at);
    && key !in keys && |keys| >= cfg.maxSessions && IsLeastRecent(ss, keys, k)
    && (IsLeastRecent(ss, keys, victim) ==> k == victim)
  }

  lemma OldestIsLeastRecent(ss: SessionMap, left: SessionMap, k: Key)
    requires left.Keys <= ss.Keys && forall l :: l in left ==> left[l] == ss[l]
    ensures IsOldest(LastSeen(left), k) <==> IsLeastRecent(ss, left.Keys, k)
  {
    assert LastSeen(left).Keys == left.Keys;
  }

  /** makeRoom: only such a session is evicted; the one chosen is; and with no room some
      session is, and no other. */
  lemma EvictionIs(cfg: Config, ss: SessionMap, key: Key, r: Reading, victim: Key)
    requires cfg.Valid()
    ensures forall k :: ByEviction(cfg, ss, k, key, r, victim) ==> IsEvicted(cfg, ss, key, r.measuredAt, victim, k)
    ensures IsEvicted(cfg, ss, key, r.measuredAt, victim, victim) ==> ByEviction(cfg, ss, victim, key, r, victim)
    ensures forall k, l :: ByEviction(cfg, ss, k, key, r, victim) && ByEviction(cfg, ss, l, key, r, victim) ==> k == l
    ensures var keys := Staying(cfg, ss, key, r.measuredAt);
            key !in keys && |keys| >= cfg.maxSessions ==> exists k :: ByEviction(cfg, ss, k, key, r, victim)
  {
    var left := Released(cfg, ss, key, r.measuredAt);
    ReleasedAreStaying(cfg, ss, key, r.measuredAt);
    assert |left| == |left.Keys|;
    assert LastSeen(left).Keys == left.Keys;
    OldestIsLeastRecent(ss, left, victim);
    if key !in left && |left| >= cfg.maxSessions {
      var evicted := Evicted(LastSeen(left), victim);
      OldestIsLeastRecent(ss, left, evicted);
      assert ByEviction(cfg, ss, evicted, key, r, victim);
    }
  }

  /** Add leaves the sessions of other keys as they were or releases them, by plate change
      or eviction, and stores none anew. */
  lemma OthersAre(cfg: Config, ss: SessionMap, r: Reading, victim: Key, key: Key, k: Key)
    requires cfg.Valid() && Inv(cfg, ss) && ReadingKey(r) == Some(key) && k != key
    ensures var ss' := AddStep(cfg, ss, r, victim).0;
            && (k in ss' <==> Stays(cfg, ss, key, r.measuredAt, k) && !ByEviction(cfg, ss, k, key, r, victim))
            && (k in ss' ==> ss'[k] == ss[k])
  {
    AddedToOwn(cfg, ss, r, victim, key, k);
    if k in ss {
      ReleasedByOther(cfg, ss, r, victim, key, k);
    } else {
      AdmitKeepsBounds(cfg, ss, key, r.measuredAt, victim);
    }
  }

  /** Expire removes exactly the sessions idle for longer than the timeout and reports the
      finalized ones EMPTY and the others ABANDONED. */
  lemma ExpireIs(cfg: Config, ss: SessionMap, now: Time, k: Key)
    ensures var (kept, released) := ExpireStep(cfg, ss, now);
            && (k in kept <==> k in ss && Sub(now, ss[k].lastSeen) <= cfg.inactivityTimeout)
            && (k in kept ==> kept[k] == ss[k])
            && (k in released <==> k in ss && Sub(now, ss[k].lastSeen) > cfg.inactivityTimeout)
            && (k in released ==> released[k] == if ss[k].state == Finalized then Empty else Abandoned)
  {
  }

  /** An error to a reading without a code, a plate, a weight or a time; nothing changes. */
  lemma InvalidReadingIff(cfg: Config, ss: SessionMap, r: Reading, victim: Key)
    requires cfg.Valid() && Inv(cfg, ss)
    ensures var (ss', reply) := AddStep(cfg, ss, r, victim);
            && (reply.InvalidReading? <==> IsBlank(r.scaleID) || NormalizePlate(r.plate) == ""
                                           || r.weightGrams <= 0 || r.measuredAt == 0)
            && (reply.InvalidReading? ==> ss' == ss)
  {
    BlankIff(r.scaleID);
    if ReadingKey(r).Some? {
      RefusedIff(cfg, ss, r, victim, ReadingKey(r).value);
    }
  }

  /** The window, time and state before the reading; none if no session is stored within
      the inactivity gap. */
  ghost function Before(cfg: Config, ss: SessionMap, k: Key, at: Time): Session {
    if k in ss && Sub(at, ss[k].lastSeen) <= cfg.inactivityTimeout then ss[k] else Session(Empty, [], 0)
  }

  /** The reading joined the window, which keeps its last windowCapacity readings, and the
      verdict on that decided. */
  ghost predicate IsJoined(cfg: Config, k: Key, before: Session, r: Reading, after: Session, result: Result)
    requires cfg.Valid()
  {
    var rs := before.window + [r];
    var w := if |rs| <= cfg.windowCapacity then rs else rs[|rs| - cfg.windowCapacity..];
    && after == Session(result.state, w, r.measuredAt) && result.key == k && Ordered(w)
    && (if !IsReady(cfg, w) then result.state == Collecting && result.window.None? && result.finalization.None?
        else
          && result.window.Some? && IsVerdict(cfg, w, result.window.value)
          && IsDecision(cfg, before.state, r.measuredAt, result.window.value, result))
  }

  /** A window outside the limits collects, a first one within them is a candidate, and
      the next one finalizes with its statistics. */
  predicate IsDecision(cfg: Config, previous: State, at: Time, st: WindowStats, result: Result) {
    if !WithinLimits(cfg, st) then result.state == Collecting && result.finalization.None?
    else if previous != Candidate then result.state == Candidate && result.finalization.None?
    else
      result.state == Finalized && result.finalization.Some? && Reports(cfg, result.finalization.value, st, at)
  }

  /** What Add does to the session of the reading's own key, and what it answers. */
  ghost predicate IsOwnStep(cfg: Config, k: Key, before: Session, r: Reading, after: Option<Session>, reply: Reply)
    requires cfg.Valid()
  {
    if before.state == Failed then after == Some(before) && reply == FailedSession(k)
    else if before.window != [] && r.measuredAt <= before.lastSeen then
      && after == Some(Session(Failed, before.window, before.lastSeen))
      && reply == OutOfOrder(k, before.lastSeen, r.measuredAt)
    else if before.state == Finalized && r.weightGrams <= cfg.lowWeightThresholdGrams then
      after == None && reply == Done(Result(k, Empty, None, None))
    else if before.state == Finalized then
      && after == Some(Session(Finalized, before.window, r.measuredAt))
      && reply == Done(Result(k, Finalized, None, None))
    else after.Some? && reply.Done? && IsJoined(cfg, k, before, r, after.value, reply.result)
  }

  lemma DecisionIs(cfg: Config, k: Key, s: Session, r: Reading, st: WindowStats)
    requires cfg.Valid() && (st.stable <==> WithinLimits(cfg, st))
    ensures var (s', reply) := Decide(cfg, k, s, r, Some(st));
            && reply.Done? && s'.state == reply.result.state && reply.result.key == k && reply.result.window == Some(st)
            && IsDecision(cfg, s.state, r.measuredAt, st, reply.result)
  {
  }

  lemma DecidedIs(cfg: Config, k: Key, s: Session, r: Reading, stats: Option<WindowStats>)
    requires cfg.Valid() && Ordered(Pushed(cfg, s, r))
    requires stats.Some? <==> IsReady(cfg, Pushed(cfg, s, r))
    requires stats.Some? ==> IsVerdict(cfg, Pushed(cfg, s, r), stats.value)
    ensures var (s', reply) := Decide(cfg, k, s, r, stats);
            reply.Done? && IsJoined(cfg, k, s, r, s', reply.result)
  {
    if stats.Some? {
      DecisionIs(cfg, k, s, r, stats.value);
    }
  }

  lemma AcceptedIs(cfg: Config, k: Key, s: Session, r: Reading)
    requires cfg.Valid() && Ordered(Pushed(cfg, s, r))
    ensures var (s', reply) := Accept(cfg, k, s, r);
            reply.Done? && IsJoined(cfg, k, s, r, s', reply.result)
  {
    EvaluatedIsVerdict(cfg, Pushed(cfg, s, r));
    DecidedIs(cfg, k, s, r, Evaluate(cfg, Pushed(cfg, s, r)));
  }

  lemma DeliveredIs(cfg: Config, k: Key, s: Session, r: Reading)
    requires cfg.Valid() && CanReceive(cfg, k, s, r)
    ensures IsOwnStep(cfg, k, s, r, Deliver(cfg, k, s, r).0, Deliver(cfg, k, s, r).1)
  {
    if s.state !in {Failed, Finalized} && (s == FRESH || r.measuredAt > s.lastSeen) {
      DeliverAccepts(cfg, k, s, r);
      AcceptedIs(cfg, k, s, r);
    }
  }

  /** Add, completely: the session of the reading's own key and the answer. */
  lemma OwnStepIs(cfg: Config, ss: SessionMap, r: Reading, victim: Key, k: Key)
    requires cfg.Valid() && Inv(cfg, ss) && ReadingKey(r) == Some(k)
    ensures var (ss', reply) := AddStep(cfg, ss, r, victim);
            IsOwnStep(cfg, k, Before(cfg, ss, k, r.measuredAt), r, if k in ss' then Some(ss'[k]) else None, reply)
  {
    AdmittedCanReceive(cfg, ss, r, victim);
    AdmittedIs(cfg, ss, r, victim, k);
    DeliveredIs(cfg, k, Before(cfg, ss, k, r.measuredAt), r);
  }

  lemma AdmittedIs(cfg: Config, ss: SessionMap, r: Reading, victim: Key, k: Key)
    requires cfg.Valid() && Inv(cfg, ss)
    ensures var admitted := Admit(cfg, ss, k, r.measuredAt, victim);
            k in admitted && admitted[k] == Before(cfg, ss, k, r.measuredAt)
  {
    if k in ss {
      ReleasedLookup(cfg, ss, k, r.measuredAt, k);
      AdmitLookup(cfg, ss, k, r, victim, k);
    } else {
      AdmitKeepsBounds(cfg, ss, k, r.measuredAt, victim);
    }
  }
}
