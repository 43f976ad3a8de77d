/** Whole runs of the manager: any sequence of readings and expiries, from an empty
    manager. When a session ends, and why it finalizes at most once before that. */
module Runs {
  import opened Arithmetic
  import opened Window
  import opened Keys
  import opened Rings
  import opened Sessions

  datatype Event = Add(reading: Reading, victim: Key) | Expire(now: Time)

  datatype Output = Replied(reply: Reply) | Reported(released: map<Key, State>)

  ghost function Step(cfg: Config, ss: SessionMap, e: Event): (SessionMap, Output)
    requires cfg.Valid() && Inv(cfg, ss)
  {
    match e
    case Add(r, victim) => var (ss', reply) := AddStep(cfg, ss, r, victim); (ss', Replied(reply))
    case Expire(now) => var (ss', released) := ExpireStep(cfg, ss, now); (ss', Reported(released))
  }

  lemma StepKeepsInvariant(cfg: Config, ss: SessionMap, e: Event)
    requires cfg.Valid() && Inv(cfg, ss)
    ensures Inv(cfg, Step(cfg, ss, e).0)
  {
    match e
    case Add(r, victim) => AddKeepsInvariant(cfg, ss, r, victim);
    case Expire(now) => ExpireKeepsInvariant(cfg, ss, now);
  }

  /** The sessions after a run; the invariant holds in every reachable state. */
  ghost function After(cfg: Config, es: seq<Event>): (ss: SessionMap)
    requires cfg.Valid()
    ensures Inv(cfg, ss)
    decreases |es|
  {
    if es == [] then map[]
    else
      var ss := After(cfg, es[..|es| - 1]);
      StepKeepsInvariant(cfg, ss, es[|es| - 1]);
      Step(cfg, ss, es[|es| - 1]).0
  }

  /** The output of the last event of a run. */
  ghost function LastOutput(cfg: Config, es: seq<Event>): Output
    requires cfg.Valid() && es != []
  {
    Step(cfg, After(cfg, es[..|es| - 1]), es[|es| - 1]).1
  }

  ghost predicate IsFinalizationOf(o: Output, k: Key) {
    o.Replied? && o.reply.Done? && o.reply.result.key == k && o.reply.result.finalization.Some?
  }

  /** Event i of the run finalizes k. */
  ghost predicate FinalizesAt(cfg: Config, es: seq<Event>, i: int, k: Key)
    requires cfg.Valid() && 0 <= i < |es|
  {
    IsFinalizationOf(LastOutput(cfg, es[..i + 1]), k)
  }

  ghost predicate ByPlateChange(ss: SessionMap, k: Key, key: Key)
    requires k in ss
  {
    k.scaleID == key.scaleID && k.plate != key.plate && ss[k].state.Finalized?
  }

  ghost predicate ByTimeout(cfg: Config, ss: SessionMap, k: Key, key: Key, r: Reading)
    requires k in ss
  {
    k == key && Sub(r.measuredAt, ss[k].lastSeen) > cfg.inactivityTimeout
  }

  ghost predicate ByLowWeight(cfg: Config, ss: SessionMap, k: Key, key: Key, r: Reading)
    requires k in ss
  {
    && k == key && ss[k].state.Finalized?
    && r.measuredAt > ss[k].lastSeen && r.weightGrams <= cfg.lowWeightThresholdGrams
  }

  ghost predicate ByEviction(cfg: Config, ss: SessionMap, k: Key, key: Key, r: Reading, victim: Key)
    requires cfg.Valid()
  {
    var left := Released(cfg, ss, key, r.measuredAt);
    && key !in left && |left| >= cfg.maxSessions && k in left
    && assert LastSeen(left).Keys == left.Keys;
       k == Evicted(LastSeen(left), victim)
  }

  /** The five ways a stored session ends. */
  ghost predicate Releases(cfg: Config, ss: SessionMap, e: Event, k: Key)
    requires cfg.Valid() && k in ss
  {
    match e
    case Expire(now) => Expires(cfg, ss[k], now)
    case Add(r, victim) =>
      && ReadingKey(r).Some?
      && var key := ReadingKey(r).value;
         || ByPlateChange(ss, k, key)
         || ByTimeout(cfg, ss, k, key, r)
         || ByLowWeight(cfg, ss, k, key, r)
         || ByEviction(cfg, ss, k, key, r, victim)
  }

  /** t is s possibly after further readings, and not a new session. */
  ghost predicate Continues(cfg: Config, s: Session, t: Session)
    requires cfg.Valid()
  {
    && s.lastSeen <= t.lastSeen
    && (t.window == s.window || exists r :: t.window == Pushed(cfg, s, r))
  }

  lemma ReleasedLookup(cfg: Config, ss: SessionMap, key: Key, at: Time, k: Key)
    requires k in ss
    ensures var left := Released(cfg, ss, key, at);
            && (k in left <==> !ByPlateChange(ss, k, key)
                               && !(k == key && Sub(at, ss[k].lastSeen) > cfg.inactivityTimeout))
            && (k in left ==> left[k] == ss[k])
  {
    var changed := ReleasePlateChange(ss, key);
    assert k in changed <==> !ByPlateChange(ss, k, key);
  }

  lemma AdmitLookup(cfg: Config, ss: SessionMap, key: Key, r: Reading, victim: Key, k: Key)
    requires cfg.Valid() && k in ss
    ensures var left, admitted := Released(cfg, ss, key, r.measuredAt), Admit(cfg, ss, key, r.measuredAt, victim);
            && (k != key ==> (k in admitted <==> k in left && !ByEviction(cfg, ss, k, key, r, victim)))
            && (k in admitted && k != key ==> admitted[k] == ss[k])
            && (k == key ==> k in admitted && admitted[k] == if k in left then ss[k] else FRESH)
  {
    ReleasedLookup(cfg, ss, key, r.measuredAt, k);
    var left := Released(cfg, ss, key, r.measuredAt);
    assert LastSeen(left).Keys == left.Keys;
  }

  lemma DeliverContinues(cfg: Config, key: Key, s: Session, r: Reading)
    requires cfg.Valid() && CanReceive(cfg, key, s, r) && SessionInv(cfg, key, s)
    ensures var t := Deliver(cfg, key, s, r).0;
            && (t.None? <==> s.state.Finalized? && r.measuredAt > s.lastSeen && r.weightGrams <= cfg.lowWeightThresholdGrams)
            && (t.Some? ==> Continues(cfg, s, t.value))
  {
    if Accepts(s, r) {
      PushedIsOrdered(cfg, key, s, r);
      assert Accept(cfg, key, s, r).0.window == Pushed(cfg, s, r);
    }
  }

  lemma FreshIsNotContinuation(cfg: Config, key: Key, s: Session, r: Reading)
    requires cfg.Valid() && SessionInv(cfg, key, s) && ReadingKey(r) == Some(key)
    requires Sub(r.measuredAt, s.lastSeen) > cfg.inactivityTimeout
    ensures var t := Deliver(cfg, key, FRESH, r).0; t.Some? && !Continues(cfg, s, t.value)
  {
    PushedIsOrdered(cfg, key, FRESH, r);
    var t := Accept(cfg, key, FRESH, r).0;
    assert t.window == [r] != s.window;
    forall r'
      ensures |Pushed(cfg, s, r')| >= 2
    {
    }
  }

  /** Add changes no session but its own key's once that is admitted. */
  lemma AddedToOwn(cfg: Config, ss: SessionMap, r: Reading, victim: Key, key: Key, k: Key)
    requires cfg.Valid() && Inv(cfg, ss) && ReadingKey(r) == Some(key) && k != key
    ensures var ss', admitted := AddStep(cfg, ss, r, victim).0, Admit(cfg, ss, key, r.measuredAt, victim);
            (k in ss' <==> k in admitted) && (k in ss' ==> ss'[k] == admitted[k])
  {
  }

  lemma ReleasedByOther(cfg: Config, ss: SessionMap, r: Reading, victim: Key, key: Key, k: Key)
    requires cfg.Valid() && Inv(cfg, ss) && k in ss && ReadingKey(r) == Some(key) && k != key
    ensures var ss' := AddStep(cfg, ss, r, victim).0;
            && (k in ss' ==> ss'[k] == ss[k])
            && (k in ss' <==> !ByPlateChange(ss, k, key) && !ByEviction(cfg, ss, k, key, r, victim))
  {
    AddedToOwn(cfg, ss, r, victim, key, k);
    LeftByOther(cfg, ss, r, victim, key, k);
  }

  lemma LeftByOther(cfg: Config, ss: SessionMap, r: Reading, victim: Key, key: Key, k: Key)
    requires cfg.Valid() && k in ss && k != key
    ensures var admitted := Admit(cfg, ss, key, r.measuredAt, victim);
            && (k in admitted ==> admitted[k] == ss[k])
            && (k in admitted <==> !ByPlateChange(ss, k, key) && !ByEviction(cfg, ss, k, key, r, victim))
  {
    ReleasedLookup(cfg, ss, key, r.measuredAt, k);
    AdmitLookup(cfg, ss, key, r, victim, k);
  }

  lemma ReleasedByOwn(cfg: Config, ss: SessionMap, r: Reading, victim: Key, k: Key)
    requires cfg.Valid() && Inv(cfg, ss) && k in ss && ReadingKey(r) == Some(k)
    ensures var ss' := AddStep(cfg, ss, r, victim).0;
            (k in ss' && Continues(cfg, ss[k], ss'[k])) <==> !ByTimeout(cfg, ss, k, k, r) && !ByLowWeight(cfg, ss, k, k, r)
    ensures !ByPlateChange(ss, k, k)
    ensures ByEviction(cfg, ss, k, k, r, victim) ==> ByTimeout(cfg, ss, k, k, r)
  {
    assert SessionInv(cfg, k, ss[k]);
    AdmittedCanReceive(cfg, ss, r, victim);
    ReleasedLookup(cfg, ss, k, r.measuredAt, k);
    AdmitLookup(cfg, ss, k, r, victim, k);
    if ByTimeout(cfg, ss, k, k, r) {
      FreshIsNotContinuation(cfg, k, ss[k], r);
    } else {
      DeliverContinues(cfg, k, ss[k], r);
    }
  }

  /** A session survives a step, with its history, exactly when none of the five
      releases happens to it. */
  lemma ReleasedIff(cfg: Config, ss: SessionMap, e: Event, k: Key)
    requires cfg.Valid() && Inv(cfg, ss) && k in ss
    ensures var ss' := Step(cfg, ss, e).0;
            Releases(cfg, ss, e, k) <==> !(k in ss' && Continues(cfg, ss[k], ss'[k]))
  {
    match e
    case Expire(now) =>
    case Add(r, victim) =>
      if ReadingKey(r).Some? {
        var key := ReadingKey(r).value;
        if k == key {
          ReleasedByOwn(cfg, ss, r, victim, k);
        } else {
          ReleasedByOther(cfg, ss, r, victim, key, k);
        }
      }
  }

  /** A FAILED session ignores everything but the inactivity gap, Expire and eviction: a
      reading for another plate on its scale does not release it, although the comment
      on FailedSessionError says so. */
  lemma FailedSurvivesPlateChange(cfg: Config, ss: SessionMap, r: Reading, victim: Key, key: Key, k: Key)
    requires cfg.Valid() && Inv(cfg, ss) && k in ss && ss[k].state.Failed?
    requires ReadingKey(r) == Some(key) && key.scaleID == k.scaleID && key.plate != k.plate
    ensures var ss' := AddStep(cfg, ss, r, victim).0;
            (k in ss' && ss'[k] == ss[k]) <==> !ByEviction(cfg, ss, k, key, r, victim)
  {
    ReleasedByOther(cfg, ss, r, victim, key, k);
  }

  lemma FailedReleasedOnlyBy(cfg: Config, ss: SessionMap, e: Event, k: Key)
    requires cfg.Valid() && Inv(cfg, ss) && k in ss && ss[k].state.Failed?
    ensures (k in Step(cfg, ss, e).0 && Step(cfg, ss, e).0[k] == ss[k])
       <==> match e
            case Expire(now) => !Expires(cfg, ss[k], now)
            case Add(r, victim) =>
              ReadingKey(r).Some? ==> var key := ReadingKey(r).value;
                                      !ByTimeout(cfg, ss, k, key, r) && !ByEviction(cfg, ss, k, key, r, victim)
  {
    match e
    case Expire(now) =>
    case Add(r, victim) =>
      if ReadingKey(r).Some? {
        var key := ReadingKey(r).value;
        if k == key {
          FailedOwn(cfg, ss, r, victim, k);
        } else {
          ReleasedByOther(cfg, ss, r, victim, key, k);
        }
      }
  }

  lemma FailedOwn(cfg: Config, ss: SessionMap, r: Reading, victim: Key, k: Key)
    requires cfg.Valid() && Inv(cfg, ss) && k in ss && ReadingKey(r) == Some(k) && ss[k].state.Failed?
    ensures var ss' := AddStep(cfg, ss, r, victim).0; (k in ss' && ss'[k] == ss[k]) <==> !ByTimeout(cfg, ss, k, k, r)
    ensures ByEviction(cfg, ss, k, k, r, victim) ==> ByTimeout(cfg, ss, k, k, r)
  {
    ReleasedByOwn(cfg, ss, r, victim, k);
    if !ByTimeout(cfg, ss, k, k, r) {
      AdmittedCanReceive(cfg, ss, r, victim);
      ReleasedLookup(cfg, ss, k, r.measuredAt, k);
      AdmitLookup(cfg, ss, k, r, victim, k);
    } else {
      assert Continues(cfg, ss[k], ss[k]);
    }
  }

  /** A FINALIZED or FAILED session that is not released stays so. */
  lemma ClosedStays(cfg: Config, ss: SessionMap, e: Event, k: Key)
    requires cfg.Valid() && Inv(cfg, ss) && k in ss && ss[k].state in {Finalized, Failed}
    requires !Releases(cfg, ss, e, k)
    ensures var ss' := Step(cfg, ss, e).0; k in ss' && ss'[k].state in {Finalized, Failed}
  {
    if e.Add? && ReadingKey(e.reading).Some? {
      var key := ReadingKey(e.reading).value;
      if k == key {
        OwnClosedStays(cfg, ss, e.reading, e.victim, k);
      } else {
        ReleasedByOther(cfg, ss, e.reading, e.victim, key, k);
      }
    }
  }

  lemma OwnClosedStays(cfg: Config, ss: SessionMap, r: Reading, victim: Key, k: Key)
    requires cfg.Valid() && Inv(cfg, ss) && k in ss && ss[k].state in {Finalized, Failed} && ReadingKey(r) == Some(k)
    requires !ByTimeout(cfg, ss, k, k, r) && !ByLowWeight(cfg, ss, k, k, r)
    ensures var ss' := AddStep(cfg, ss, r, victim).0; k in ss' && ss'[k].state in {Finalized, Failed}
  {
    AdmittedCanReceive(cfg, ss, r, victim);
    assert SessionInv(cfg, k, ss[k]);
    ReleasedLookup(cfg, ss, k, r.measuredAt, k);
    AdmitLookup(cfg, ss, k, r, victim, k);
  }

  /** Add answers an error to a valid reading of k: its session is stored, not past the
      inactivity gap, and FAILED or already as new as the reading. */
  ghost predicate Refuses(cfg: Config, ss: SessionMap, k: Key, r: Reading) {
    && k in ss && Sub(r.measuredAt, ss[k].lastSeen) <= cfg.inactivityTimeout
    && (ss[k].state.Failed? || r.measuredAt <= ss[k].lastSeen)
  }

  lemma DeliverRefuses(cfg: Config, key: Key, s: Session, r: Reading)
    requires cfg.Valid() && CanReceive(cfg, key, s, r)
    ensures var (t, reply) := Deliver(cfg, key, s, r);
            && (!reply.Done? <==> s.state.Failed? || (s.lastSeen != 0 && r.measuredAt <= s.lastSeen))
            && (!reply.Done? ==> t == Some(s.(state := Failed)))
            && (reply.Done? && t.Some? ==> t.value.lastSeen == r.measuredAt && !t.value.state.Failed?)
  {
    if Accepts(s, r) {
      PushedIsOrdered(cfg, key, s, r);
      AcceptFinalizes(cfg, key, s, r);
    }
  }

  /** Exactly when Add refuses a valid reading, and what it then leaves: the session FAILED
      and otherwise as it was. */
  lemma RefusedIff(cfg: Config, ss: SessionMap, r: Reading, victim: Key, k: Key)
    requires cfg.Valid() && Inv(cfg, ss) && ReadingKey(r) == Some(k)
    ensures var (ss', reply) := AddStep(cfg, ss, r, victim);
            && (!reply.Done? <==> Refuses(cfg, ss, k, r))
            && (!reply.Done? ==> k in ss' && ss'[k] == ss[k].(state := Failed))
            && (reply.Done? && k in ss' ==> ss'[k].lastSeen == r.measuredAt && !ss'[k].state.Failed?)
  {
    AdmittedCanReceive(cfg, ss, r, victim);
    if k in ss {
      assert SessionInv(cfg, k, ss[k]);
      ReleasedLookup(cfg, ss, k, r.measuredAt, k);
      AdmitLookup(cfg, ss, k, r, victim, k);
    }
    DeliverRefuses(cfg, k, Admit(cfg, ss, k, r.measuredAt, victim)[k], r);
  }

  /** Once a reading was given to its session, the session refuses it from then on. */
  lemma RefusesAfterAdd(cfg: Config, ss: SessionMap, r: Reading, victim: Key, k: Key)
    requires cfg.Valid() && Inv(cfg, ss) && ReadingKey(r) == Some(k)
    requires k in AddStep(cfg, ss, r, victim).0
    ensures Refuses(cfg, AddStep(cfg, ss, r, victim).0, k, r)
  {
    RefusedIff(cfg, ss, r, victim, k);
  }

  /** A session that is not released goes on refusing. */
  lemma RefusesStays(cfg: Config, ss: SessionMap, e: Event, k: Key, r: Reading)
    requires cfg.Valid() && Inv(cfg, ss) && Refuses(cfg, ss, k, r) && !Releases(cfg, ss, e, k)
    ensures Refuses(cfg, Step(cfg, ss, e).0, k, r)
  {
    if e.Add? && ReadingKey(e.reading).Some? {
      var key := ReadingKey(e.reading).value;
      if key == k {
        OwnStillRefuses(cfg, ss, e.reading, e.victim, k, r);
      } else {
        ReleasedByOther(cfg, ss, e.reading, e.victim, key, k);
      }
    }
  }

  lemma OwnStillRefuses(cfg: Config, ss: SessionMap, o: Reading, victim: Key, k: Key, r: Reading)
    requires cfg.Valid() && Inv(cfg, ss) && Refuses(cfg, ss, k, r) && ReadingKey(o) == Some(k)
    requires !Releases(cfg, ss, Add(o, victim), k)
    ensures Refuses(cfg, AddStep(cfg, ss, o, victim).0, k, r)
  {
    ReleasedByOwn(cfg, ss, o, victim, k);
    RefusedIff(cfg, ss, o, victim, k);
  }

  lemma DeliverFinalizes(cfg: Config, key: Key, s: Session, r: Reading)
    requires cfg.Valid() && CanReceive(cfg, key, s, r)
    ensures var (t, reply) := Deliver(cfg, key, s, r);
            && (reply.Done? ==> reply.result.key == key)
            && (IsFinalizationOf(Replied(reply), key) ==> s.state.Candidate? && t.Some? && t.value.state.Finalized?)
  {
    if Accepts(s, r) {
      PushedIsOrdered(cfg, key, s, r);
      AcceptFinalizes(cfg, key, s, r);
    }
  }

  lemma AcceptFinalizes(cfg: Config, key: Key, s: Session, r: Reading)
    requires cfg.Valid() && Ordered(Pushed(cfg, s, r))
    ensures var (t, reply) := Accept(cfg, key, s, r);
            && reply.Done? && reply.result.key == key
            && (reply.result.finalization.Some? ==> s.state.Candidate? && t.state.Finalized?)
  {
  }

  /** A finalization comes from a CANDIDATE session and leaves it FINALIZED. */
  lemma FinalizationStep(cfg: Config, ss: SessionMap, e: Event, k: Key)
    requires cfg.Valid() && Inv(cfg, ss) && IsFinalizationOf(Step(cfg, ss, e).1, k)
    ensures k in ss && ss[k].state == Candidate
    ensures var ss' := Step(cfg, ss, e).0; k in ss' && ss'[k].state == Finalized
  {
    var r, victim := e.reading, e.victim;
    var key := ReadingKey(r).value;
    AdmittedCanReceive(cfg, ss, r, victim);
    AdmitKeepsBounds(cfg, ss, key, r.measuredAt, victim);
    DeliverFinalizes(cfg, key, Admit(cfg, ss, key, r.measuredAt, victim)[key], r);
  }

  lemma AfterStep(cfg: Config, es: seq<Event>, i: nat)
    requires cfg.Valid() && i < |es|
    ensures After(cfg, es[..i + 1]) == Step(cfg, After(cfg, es[..i]), es[i]).0
    ensures LastOutput(cfg, es[..i + 1]) == Step(cfg, After(cfg, es[..i]), es[i]).1
  {
    assert es[..i + 1][..i] == es[..i];
  }

  /** No session of k is released by the events from i (inclusive) to j. */
  ghost predicate NotReleased(cfg: Config, es: seq<Event>, i: nat, j: nat, k: Key)
    requires cfg.Valid() && i <= j <= |es|
  {
    forall m {:trigger es[m]} :: i <= m < j && k in After(cfg, es[..m]) ==> !Releases(cfg, After(cfg, es[..m]), es[m], k)
  }

  lemma {:induction false} StaysClosed(cfg: Config, es: seq<Event>, i: nat, j: nat, k: Key)
    requires cfg.Valid() && i < j <= |es| && FinalizesAt(cfg, es, i, k) && NotReleased(cfg, es, i + 1, j, k)
    ensures k in After(cfg, es[..j]) && After(cfg, es[..j])[k].state in {Finalized, Failed}
    decreases j
  {
    AfterStep(cfg, es, j - 1);
    if j == i + 1 {
      FinalizationStep(cfg, After(cfg, es[..i]), es[i], k);
    } else {
      StaysClosed(cfg, es, i, j - 1, k);
      ClosedStays(cfg, After(cfg, es[..j - 1]), es[j - 1], k);
    }
  }

  /** One finalization per passage: between two finalizations of the same key its
      session is released in one of the five ways. */
  lemma OneFinalizationPerPassage(cfg: Config, es: seq<Event>, i: nat, j: nat, k: Key)
    requires cfg.Valid() && i < j < |es| && FinalizesAt(cfg, es, i, k) && FinalizesAt(cfg, es, j, k)
    ensures exists m {:trigger es[m]} ::
      i < m < j && k in After(cfg, es[..m]) && Releases(cfg, After(cfg, es[..m]), es[m], k)
  {
    if NotReleased(cfg, es, i + 1, j, k) {
      StaysClosed(cfg, es, i, j, k);
      AfterStep(cfg, es, j);
      FinalizationStep(cfg, After(cfg, es[..j]), es[j], k);
    }
  }
}
