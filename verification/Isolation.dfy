/** Scales do not influence each other: a run looks to one scale like the run of its own
    readings (and every Expire), as long as the manager never fills up. */
module Isolation {
  import opened Window
  import opened Keys
  import opened Sessions
  import opened Runs

  ghost function OnScale(ss: SessionMap, scale: string): SessionMap {
    map k | k in ss && k.scaleID == scale :: ss[k]
  }

  /** Readings that name the scale, and every Expire. */
  ghost predicate Concerns(e: Event, scale: string) {
    e.Add? ==> NormalizeCode(e.reading.scaleID) == scale
  }

  ghost function Project(es: seq<Event>, scale: string): seq<Event> {
    if es == [] then []
    else Project(es[..|es| - 1], scale) + (if Concerns(es[|es| - 1], scale) then [es[|es| - 1]] else [])
  }

  ghost function OutputOnScale(o: Output, scale: string): Output {
    match o
    case Replied(_) => o
    case Reported(released) => Reported(map k | k in released && k.scaleID == scale :: released[k])
  }

  lemma OnScaleKeepsInvariant(cfg: Config, ss: SessionMap, scale: string)
    requires Inv(cfg, ss)
    ensures Inv(cfg, OnScale(ss, scale)) && |OnScale(ss, scale)| <= |ss|
  {
    assert OnScale(ss, scale).Keys <= ss.Keys;
    SubsetSize(OnScale(ss, scale).Keys, ss.Keys);
    PartKeepsInvariant(cfg, ss, OnScale(ss, scale));
  }

  lemma ReleasedOnScale(cfg: Config, ss: SessionMap, key: Key, at: Time)
    ensures OnScale(Released(cfg, ss, key, at), key.scaleID) == Released(cfg, OnScale(ss, key.scaleID), key, at)
  {
    assert OnScale(ReleasePlateChange(ss, key), key.scaleID) == ReleasePlateChange(OnScale(ss, key.scaleID), key);
  }

  lemma AdmitOnScale(cfg: Config, ss: SessionMap, key: Key, at: Time, victim: Key)
    requires cfg.Valid() && |ss| < cfg.maxSessions
    ensures var part := OnScale(ss, key.scaleID);
            && |part| <= |ss|
            && OnScale(Admit(cfg, ss, key, at, victim), key.scaleID) == Admit(cfg, part, key, at, victim)
            && key in Admit(cfg, ss, key, at, victim)
            && key in Admit(cfg, part, key, at, victim)
            && Admit(cfg, ss, key, at, victim)[key] == Admit(cfg, part, key, at, victim)[key]
  {
    var part := OnScale(ss, key.scaleID);
    assert part.Keys <= ss.Keys;
    SubsetSize(part.Keys, ss.Keys);
    ReleasedOnScale(cfg, ss, key, at);
    ReleasedIsPart(cfg, ss, key, at);
    ReleasedIsPart(cfg, part, key, at);
    var whole, left := Released(cfg, ss, key, at), Released(cfg, part, key, at);
    assert key in whole <==> key in left;
    if key !in whole {
      assert MakeRoom(cfg, whole, victim) == whole && MakeRoom(cfg, left, victim) == left;
      assert OnScale(whole[key := FRESH], key.scaleID) == left[key := FRESH];
    }
  }

  /** A step that concerns the scale does the same on the scale's own sessions. */
  lemma OwnStep(cfg: Config, ss: SessionMap, e: Event, scale: string)
    requires cfg.Valid() && Inv(cfg, ss) && |ss| < cfg.maxSessions && Concerns(e, scale)
    ensures Inv(cfg, OnScale(ss, scale))
    ensures Step(cfg, OnScale(ss, scale), e)
         == (OnScale(Step(cfg, ss, e).0, scale), OutputOnScale(Step(cfg, ss, e).1, scale))
  {
    OnScaleKeepsInvariant(cfg, ss, scale);
    match e
    case Expire(now) => ExpireOnScale(cfg, ss, now, scale);
    case Add(r, victim) =>
      if ReadingKey(r).Some? {
        AddOnScale(cfg, ss, r, victim, ReadingKey(r).value);
      }
  }

  lemma AddOnScale(cfg: Config, ss: SessionMap, r: Reading, victim: Key, key: Key)
    requires cfg.Valid() && Inv(cfg, ss) && |ss| < cfg.maxSessions && ReadingKey(r) == Some(key)
    requires Inv(cfg, OnScale(ss, key.scaleID))
    ensures var (ss', reply) := AddStep(cfg, ss, r, victim);
            AddStep(cfg, OnScale(ss, key.scaleID), r, victim) == (OnScale(ss', key.scaleID), reply)
  {
    var part := OnScale(ss, key.scaleID);
    AdmittedCanReceive(cfg, ss, r, victim);
    AdmittedCanReceive(cfg, part, r, victim);
    AdmitOnScale(cfg, ss, key, r.measuredAt, victim);
    var whole, own := Admit(cfg, ss, key, r.measuredAt, victim), Admit(cfg, part, key, r.measuredAt, victim);
    var (s, reply) := Deliver(cfg, key, whole[key], r);
    UpdateOnScale(whole, key, s);
  }

  lemma UpdateOnScale(ss: SessionMap, key: Key, s: Option<Session>)
    ensures s.Some? ==> OnScale(ss[key := s.value], key.scaleID) == OnScale(ss, key.scaleID)[key := s.value]
    ensures OnScale(ss - {key}, key.scaleID) == OnScale(ss, key.scaleID) - {key}
  {
  }

  lemma ExpireOnScale(cfg: Config, ss: SessionMap, now: Time, scale: string)
    ensures ExpireStep(cfg, OnScale(ss, scale), now).0 == OnScale(ExpireStep(cfg, ss, now).0, scale)
    ensures Reported(ExpireStep(cfg, OnScale(ss, scale), now).1)
         == OutputOnScale(Reported(ExpireStep(cfg, ss, now).1), scale)
  {
  }

  /** A step that does not concern the scale leaves its sessions alone. */
  lemma OtherStep(cfg: Config, ss: SessionMap, e: Event, scale: string)
    requires cfg.Valid() && Inv(cfg, ss) && |ss| < cfg.maxSessions && !Concerns(e, scale)
    ensures OnScale(Step(cfg, ss, e).0, scale) == OnScale(ss, scale)
  {
    if ReadingKey(e.reading).Some? {
      var key := ReadingKey(e.reading).value;
      OtherAdd(cfg, ss, e.reading, e.victim, key, scale);
    }
  }

  lemma OtherAdd(cfg: Config, ss: SessionMap, r: Reading, victim: Key, key: Key, scale: string)
    requires cfg.Valid() && Inv(cfg, ss) && |ss| < cfg.maxSessions && ReadingKey(r) == Some(key) && key.scaleID != scale
    ensures OnScale(AddStep(cfg, ss, r, victim).0, scale) == OnScale(ss, scale)
  {
    var ss' := AddStep(cfg, ss, r, victim).0;
    forall k: Key | k.scaleID == scale
      ensures SameAt(ss, ss', k)
    {
      OtherKey(cfg, ss, r, victim, key, k);
    }
    SameOnScale(ss, ss', scale);
  }

  ghost predicate SameAt(ss: SessionMap, ss': SessionMap, k: Key) {
    (k in ss' <==> k in ss) && (k in ss ==> ss'[k] == ss[k])
  }

  lemma SameOnScale(ss: SessionMap, ss': SessionMap, scale: string)
    requires forall k: Key | k.scaleID == scale :: SameAt(ss, ss', k)
    ensures OnScale(ss', scale) == OnScale(ss, scale)
  {
    forall k: Key
      ensures k in OnScale(ss', scale) <==> k in OnScale(ss, scale)
    {
      if k.scaleID == scale {
        assert SameAt(ss, ss', k);
      }
    }
    forall k | k in OnScale(ss, scale)
      ensures OnScale(ss', scale)[k] == OnScale(ss, scale)[k]
    {
      assert SameAt(ss, ss', k);
    }
  }

  lemma OtherKey(cfg: Config, ss: SessionMap, r: Reading, victim: Key, key: Key, k: Key)
    requires cfg.Valid() && Inv(cfg, ss) && |ss| < cfg.maxSessions
    requires ReadingKey(r) == Some(key) && key.scaleID != k.scaleID
    ensures var ss' := AddStep(cfg, ss, r, victim).0; (k in ss' <==> k in ss) && (k in ss ==> ss'[k] == ss[k])
  {
    ReleasedIsPart(cfg, ss, key, r.measuredAt);
    if k in ss {
      ReleasedByOther(cfg, ss, r, victim, key, k);
    } else {
      AdmittedCanReceive(cfg, ss, r, victim);
      AdmitKeepsBounds(cfg, ss, key, r.measuredAt, victim);
      assert k !in Admit(cfg, ss, key, r.measuredAt, victim);
    }
  }

  /** The run never reaches MaxSessions. */
  ghost predicate HasRoom(cfg: Config, es: seq<Event>)
    requires cfg.Valid()
  {
    |After(cfg, es)| < cfg.maxSessions
  }

  ghost predicate NeverFull(cfg: Config, es: seq<Event>)
    requires cfg.Valid()
  {
    forall i {:trigger es[..i]} :: 0 <= i <= |es| ==> HasRoom(cfg, es[..i])
  }

  /** Scale isolation over whole runs. */
  lemma {:induction false} ScaleIsolation(cfg: Config, es: seq<Event>, scale: string)
    requires cfg.Valid() && NeverFull(cfg, es)
    ensures After(cfg, Project(es, scale)) == OnScale(After(cfg, es), scale)
    ensures es != [] && Concerns(es[|es| - 1], scale) ==>
      LastOutput(cfg, Project(es, scale)) == OutputOnScale(LastOutput(cfg, es), scale)
    decreases |es|
  {
    if es == [] {
      assert OnScale(map[], scale) == map[];
    } else {
      var front, last := es[..|es| - 1], es[|es| - 1];
      NeverFullBefore(cfg, es);
      ScaleIsolation(cfg, front, scale);
      if Concerns(last, scale) {
        OwnStep(cfg, After(cfg, front), last, scale);
        assert Project(es, scale) == Project(front, scale) + [last];
        LastStep(cfg, Project(front, scale), last);
      } else {
        OtherStep(cfg, After(cfg, front), last, scale);
        assert Project(es, scale) == Project(front, scale);
      }
    }
  }

  lemma LastStep(cfg: Config, front: seq<Event>, last: Event)
    requires cfg.Valid()
    ensures After(cfg, front + [last]) == Step(cfg, After(cfg, front), last).0
    ensures LastOutput(cfg, front + [last]) == Step(cfg, After(cfg, front), last).1
  {
    assert (front + [last])[..|front|] == front;
  }

  lemma NeverFullBefore(cfg: Config, es: seq<Event>)
    requires cfg.Valid() && NeverFull(cfg, es) && es != []
    ensures NeverFull(cfg, es[..|es| - 1]) && HasRoom(cfg, es[..|es| - 1])
  {
    var front := es[..|es| - 1];
    forall i | 0 <= i <= |front|
      ensures HasRoom(cfg, front[..i])
    {
      assert front[..i] == es[..i];
    }
  }
}
