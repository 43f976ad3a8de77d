/** The stabilizer's Manager: sessions updated in place, each with its own ring.
    Every method is tied to the session machine on values in Sessions. */
module Managers {
  import opened Window
  import opened Keys
  import opened Rings
  import opened OrderStatistics
  import S = Sessions

  /** The source's session struct. */
  class Session {
    var state: S.State
    const readings: Ring
    var lastSeen: Time

    constructor (capacity: nat)
      requires capacity > 0
      ensures state == S.Empty && lastSeen == 0
      ensures readings.Valid() && readings.Contents() == [] && readings.elements.Length == capacity
      ensures fresh(readings) && fresh(readings.elements)
    {
      state := S.Empty;
      readings := new Ring(capacity);
      lastSeen := 0;
    }

    ghost function Model(): S.Session
      requires readings.Valid()
      reads this, readings, readings.elements
    {
      S.Session(state, readings.Contents(), lastSeen)
    }

    /** Add from the push into the ring on; the window is evaluated and applied. */
    method Accept(cfg: Config, key: Key, reading: Reading) returns (reply: S.Reply)
      requires cfg.Valid() && readings.Valid() && readings.elements.Length == cfg.windowCapacity
      requires Ordered(S.Pushed(cfg, Model(), reading))
      modifies this, readings, readings.elements
      ensures readings.Valid()
      ensures (Model(), reply) == S.Accept(cfg, key, old(Model()), reading)
    {
      var previous := state;
      readings.Add(reading);
      lastSeen := reading.measuredAt;
      var window := readings.Values();
      var stats := ComputeStats(cfg, window);
      match stats
      case None =>
        state := S.Collecting;
        reply := S.Done(S.Result(key, state, None, None));
      case Some(stats) =>
        var result := ApplyWindow(cfg, key, previous, stats);
        reply := S.Done(result);
    }

    /** applyWindow. */
    method ApplyWindow(cfg: Config, key: Key, previous: S.State, stats: WindowStats) returns (result: S.Result)
      modifies this`state
      ensures (state, result) == S.ApplyWindow(cfg, key, previous, lastSeen, stats)
    {
      if stats.stable {
        if previous == S.Candidate {
          state := S.Finalized;
          var finalization := S.Finalization(stats.medianGrams, cfg.algorithmVersion, stats.sampleCount,
                                             stats.dispersionGrams, stats.slope, lastSeen);
          return S.Result(key, S.Finalized, Some(stats), Some(finalization));
        }
        state := S.Candidate;
        return S.Result(key, S.Candidate, Some(stats), None);
      }
      state := S.Collecting;
      return S.Result(key, S.Collecting, Some(stats), None);
    }
  }

  /** The objects a session owns. */
  ghost function Owned(s: Session): set<object> {
    {s, s.readings, s.readings.elements}
  }

  predicate ResultLeq(a: S.Result, b: S.Result) {
    KeyLeq(a.key, b.key)
  }

  lemma ResultOrder()
    ensures TotalPreorder(ResultLeq)
  {
    forall a: S.Result, b: S.Result
      ensures ResultLeq(a, b) || ResultLeq(b, a)
    {
      KeyOrderTotal(a.key, b.key);
    }
    forall a: S.Result, b: S.Result, c: S.Result | ResultLeq(a, b) && ResultLeq(b, c)
      ensures ResultLeq(a, c)
    {
      KeyOrderTransitive(a.key, b.key, c.key);
    }
  }

  function ReportOf(k: Key, state: S.State): S.Result {
    S.Result(k, state, None, None)
  }

  /** The reports of the listed keys, in that order. */
  ghost function Reports(order: seq<Key>, released: map<Key, S.State>): (r: seq<S.Result>)
    requires forall k :: k in order ==> k in released
    ensures |r| == |order|
  {
    seq(|order|, i requires 0 <= i < |order| => ReportOf(order[i], released[order[i]]))
  }

  /** order enumerates keys without repetition. */
  ghost predicate Lists(order: seq<Key>, keys: set<Key>) {
    && (forall k :: k in order <==> k in keys)
    && (forall i, j :: 0 <= i < j < |order| ==> order[i] != order[j])
  }

  class Manager {
    const config: Config
    var sessions: map<Key, Session>
    ghost var Repr: set<object>

    /** New: a manager without sessions, or None for an invalid configuration. */
    static method New(cfg: Config) returns (r: Option<Manager>)
      ensures r.Some? <==> cfg.Valid()
      ensures r.None? <==>
        || cfg.windowCapacity < 30 || cfg.minSamples < 30 || cfg.windowCapacity < cfg.minSamples
        || cfg.minWindowDuration < 3_000_000_000
        || cfg.maxSessions < 1 || cfg.absoluteToleranceGrams < 0 || cfg.percentToleranceBPS < 0
        || cfg.maxSlopeGramsPerSecond < 0 || cfg.lowWeightThresholdGrams < 0 || cfg.inactivityTimeout <= 0
      ensures r.Some? ==> fresh(r.value) && r.value.Valid() && r.value.Model() == map[] && r.value.Repr == {}
      ensures r.Some? ==>
        r.value.config
        == if cfg.algorithmVersion == "" then cfg.(algorithmVersion := DEFAULT_ALGORITHM_VERSION) else cfg
    {
      if !cfg.Valid() {
        return None;
      }
      var m := new Manager(cfg);
      return Some(m);
    }

    constructor (cfg: Config)
      requires cfg.Valid()
      ensures Valid() && Model() == map[] && Repr == {}
      ensures config == if cfg.algorithmVersion == "" then cfg.(algorithmVersion := DEFAULT_ALGORITHM_VERSION) else cfg
    {
      config := if cfg.algorithmVersion == "" then cfg.(algorithmVersion := DEFAULT_ALGORITHM_VERSION) else cfg;
      sessions := map[];
      Repr := {};
      new;
      assert Model() == map[];
    }

    /** Rings are well formed and no two sessions share an object. */
    ghost predicate Separated()
      reads this, Repr
    {
      && config.Valid() && this !in Repr
      && (forall k :: k in sessions ==>
            sessions[k] in Repr && sessions[k].readings in Repr && sessions[k].readings.elements in Repr)
      && (forall k :: k in sessions ==>
            sessions[k].readings.Valid() && sessions[k].readings.elements.Length == config.windowCapacity)
      && (forall k, l :: k in sessions && l in sessions && k != l ==> Owned(sessions[k]) !! Owned(sessions[l]))
    }

    ghost function Model(): S.SessionMap
      requires Separated()
      reads this, Repr
    {
      map k | k in sessions :: sessions[k].Model()
    }

    ghost predicate Valid()
      reads this, Repr
    {
      Separated() && S.Inv(config, Model())
    }

    twostate lemma ShrunkIsSeparated()
      requires old(Separated())
      requires sessions.Keys <= old(sessions).Keys && forall k :: k in sessions ==> sessions[k] == old(sessions)[k]
      requires Repr == old(Repr) && forall o :: o in Repr ==> unchanged(o)
      ensures Separated()
      ensures forall k :: k in sessions ==> sessions[k].Model() == old(sessions[k].Model())
    {
    }

    /** Deleting map entries deletes them from the model and touches nothing else. */
    twostate lemma Shrunk()
      requires old(Separated())
      requires sessions.Keys <= old(sessions).Keys && forall k :: k in sessions ==> sessions[k] == old(sessions)[k]
      requires Repr == old(Repr) && forall o :: o in Repr ==> unchanged(o)
      ensures Separated() && Model() == S.Part(old(Model()), sessions.Keys)
    {
      ShrunkIsSeparated();
    }

    /** Manager.State. */
    method State(key: Key) returns (state: S.State)
      requires Valid()
      ensures var k := Key(NormalizeCode(key.scaleID), NormalizePlate(key.plate));
              state == if k in Model() then Model()[k].state else S.Empty
    {
      var k := Key(NormalizeCode(key.scaleID), NormalizePlate(key.plate));
      if k in sessions {
        return sessions[k].state;
      }
      return S.Empty;
    }

    /** The loop of releaseFinalizedForPlateChange. */
    method DeleteFinalizedOthers(key: Key)
      modifies this`sessions
      ensures sessions == map k | k in old(sessions) && !(k.scaleID == key.scaleID && k.plate != key.plate
                                                          && old(sessions)[k].state.Finalized?) :: old(sessions)[k]
    {
      var todo := sessions.Keys;
      while todo != {}
        invariant todo <= old(sessions).Keys && sessions.Keys <= old(sessions).Keys
        invariant forall k :: k in sessions ==> sessions[k] == old(sessions)[k]
        invariant forall k :: k in old(sessions) ==>
          (k in sessions <==> k in todo || !(k.scaleID == key.scaleID && k.plate != key.plate
                                             && old(sessions)[k].state.Finalized?))
        decreases |todo|
      {
        var existing :| existing in todo;
        todo := todo - {existing};
        if existing.scaleID == key.scaleID && existing.plate != key.plate && sessions[existing].state.Finalized? {
          sessions := sessions - {existing};
        }
      }
    }

    method ReleaseFinalizedForPlateChange(key: Key)
      requires Separated()
      modifies this`sessions
      ensures sessions.Keys <= old(sessions).Keys && forall k :: k in sessions ==> sessions[k] == old(sessions)[k]
      ensures Separated() && Model() == S.ReleasePlateChange(old(Model()), key)
    {
      ghost var m := Model();
      DeleteFinalizedOthers(key);
      Shrunk();
      S.PlateChangeIsPart(m, key, sessions.Keys);
    }

    /** The loop of makeRoom: the least recently seen session, the first one met on a
        tie. */
    method OldestKey() returns (oldestKey: Key)
      requires sessions.Keys != {}
      requires forall k :: k in sessions ==> sessions[k].lastSeen != 0
      ensures oldestKey in sessions && forall k :: k in sessions ==> sessions[oldestKey].lastSeen <= sessions[k].lastSeen
    {
      oldestKey := Key("", "");
      var oldest: Time := 0;
      var todo := sessions.Keys;
      while todo != {}
        invariant todo <= sessions.Keys
        invariant todo == sessions.Keys ==> oldest == 0
        invariant todo != sessions.Keys ==> oldestKey in sessions && oldest == sessions[oldestKey].lastSeen
        invariant todo != sessions.Keys ==> forall k :: k in sessions && k !in todo ==> oldest <= sessions[k].lastSeen
        decreases |todo|
      {
        var key :| key in todo;
        todo := todo - {key};
        if oldest == 0 || sessions[key].lastSeen < oldest {
          oldestKey, oldest := key, sessions[key].lastSeen;
        }
      }
    }

    method EvictOldest() returns (ghost victim: Key)
      requires Separated() && |sessions| >= config.maxSessions
      requires forall k :: k in sessions ==> sessions[k].lastSeen != 0
      modifies this`sessions
      ensures victim in old(sessions) && sessions == old(sessions) - {victim}
      ensures forall k :: k in old(sessions) ==> old(sessions[victim].lastSeen) <= old(sessions[k].lastSeen)
    {
      var oldestKey := OldestKey();
      victim := oldestKey;
      sessions := sessions - {oldestKey};
    }

    method MakeRoom() returns (ghost victim: Key)
      requires Separated() && forall k :: k in sessions ==> sessions[k].lastSeen != 0
      modifies this`sessions
      ensures sessions.Keys <= old(sessions).Keys && forall k :: k in sessions ==> sessions[k] == old(sessions)[k]
      ensures Separated() && Model() == S.MakeRoom(config, old(Model()), victim)
    {
      victim := Key("", "");
      ghost var m := Model();
      assert m.Keys == sessions.Keys;
      if |sessions| >= config.maxSessions {
        victim := EvictOldest();
        Shrunk();
        S.EvictsOldest(config, m, victim);
      }
    }

    /** Changing the objects of one session changes its entry in the model only. */
    twostate lemma ChangedOne(key: Key)
      requires old(Separated()) && key in sessions && sessions == old(sessions) && Repr == old(Repr)
      requires forall o :: o in Repr && o !in Owned(sessions[key]) ==> unchanged(o)
      requires sessions[key].readings.Valid()
      ensures Separated() && Model() == old(Model())[key := sessions[key].Model()]
    {
    }

    /** A new session adds its entry to the model. */
    twostate lemma Grown(key: Key, new current: Session)
      requires old(Separated()) && sessions == old(sessions)[key := current] && key !in old(sessions)
      requires Repr == old(Repr) + Owned(current) && fresh(Owned(current)) && this !in Owned(current)
      requires forall o :: o in old(Repr) ==> unchanged(o)
      requires current.readings.Valid() && current.readings.elements.Length == config.windowCapacity
      ensures Separated() && Model() == old(Model())[key := current.Model()]
    {
    }

    /** Add up to the point where the session of key exists. The source also marks the
        dropped stale session ABANDONED, which nothing can observe. */
    method Admit(key: Key, at: Time) returns (current: Session, ghost victim: Key)
      requires Valid()
      modifies this
      ensures Separated() && fresh(Repr - old(Repr)) && key in sessions && current == sessions[key]
      ensures Model() == S.Admit(config, old(Model()), key, at, victim)
    {
      victim := Key("", "");
      ghost var m := Model();
      SeenBefore();
      ReleaseFinalizedForPlateChange(key);
      DropIfStale(key, at);
      assert Model() == S.Released(config, m, key, at);
      if key !in sessions {
        victim := MakeRoom();
        current := Insert(key);
      } else {
        current := sessions[key];
      }
    }

    lemma SeenBefore()
      requires Valid()
      ensures forall k :: k in sessions ==> sessions[k].lastSeen != 0
    {
      forall k | k in sessions
        ensures sessions[k].lastSeen != 0
      {
        assert S.SessionInv(config, k, Model()[k]);
      }
    }

    method DropIfStale(key: Key, at: Time)
      requires Separated()
      modifies this`sessions
      ensures sessions.Keys <= old(sessions).Keys && forall k :: k in sessions ==> sessions[k] == old(sessions)[k]
      ensures Separated() && Model() == S.DropStale(config, old(Model()), key, at)
    {
      if key in sessions && Sub(at, sessions[key].lastSeen) > config.inactivityTimeout {
        Drop(key);
      }
    }

    /** delete(m.sessions, key). */
    method Drop(key: Key)
      requires Separated()
      modifies this`sessions
      ensures sessions == old(sessions) - {key}
      ensures Separated() && Model() == old(Model()) - {key}
    {
      sessions := sessions - {key};
      Shrunk();
    }

    method Insert(key: Key) returns (current: Session)
      requires Separated() && key !in sessions
      modifies this
      ensures Separated() && fresh(Repr - old(Repr)) && key in sessions && current == sessions[key]
      ensures Model() == old(Model())[key := S.FRESH]
    {
      current := new Session(config.windowCapacity);
      sessions := sessions[key := current];
      Repr := Repr + Owned(current);
      Grown(key, current);
    }

    /** Add once the session exists. */
    method Deliver(key: Key, current: Session, reading: Reading) returns (reply: S.Reply)
      requires Separated() && key in sessions && current == sessions[key]
      requires S.CanReceive(config, key, current.Model(), reading)
      modifies this`sessions, current, current.readings, current.readings.elements
      ensures Separated()
      ensures var (s, r) := S.Deliver(config, key, old(current.Model()), reading);
              && reply == r
              && Model() == if s.Some? then old(Model())[key := s.value] else old(Model()) - {key}
    {
      if current.state == S.Failed {
        return S.FailedSession(key);
      }
      if current.lastSeen != 0 && reading.measuredAt <= current.lastSeen {
        current.state := S.Failed;
        ChangedOne(key);
        return S.OutOfOrder(key, current.lastSeen, reading.measuredAt);
      }
      if current.state == S.Finalized {
        if reading.weightGrams <= config.lowWeightThresholdGrams {
          Drop(key);
          return S.Done(S.Result(key, S.Empty, None, None));
        }
        current.lastSeen := reading.measuredAt;
        ChangedOne(key);
        return S.Done(S.Result(key, S.Finalized, None, None));
      }
      S.PushedIsOrdered(config, key, current.Model(), reading);
      reply := current.Accept(config, key, reading);
      ChangedOne(key);
    }

    /** Manager.Add. */
    method Add(reading: Reading) returns (reply: S.Reply, ghost victim: Key)
      requires Valid()
      modifies this, Repr
      ensures Valid() && fresh(Repr - old(Repr))
      ensures (Model(), reply) == S.AddStep(config, old(Model()), reading, victim)
    {
      var k := ReadingKey(reading);
      if k.None? {
        return S.InvalidReading, Key("", "");
      }
      ghost var m := Model();
      var current;
      current, victim := Admit(k.value, reading.measuredAt);
      S.AdmittedCanReceive(config, m, reading, victim);
      reply := Deliver(k.value, current, reading);
      S.AddKeepsInvariant(config, m, reading, victim);
    }

    /** The loop of Expire; released holds the keys past the timeout. */
    method DeleteExpired(now: Time, ghost released: map<Key, S.State>) returns (results: seq<S.Result>,
                         ghost order: seq<Key>)
      requires released.Keys <= sessions.Keys
      requires forall k :: k in sessions ==>
        (k in released <==> Sub(now, sessions[k].lastSeen) > config.inactivityTimeout)
      requires forall k :: k in released ==>
        released[k] == if sessions[k].state.Finalized? then S.Empty else S.Abandoned
      modifies this`sessions
      ensures forall k :: k in sessions <==> k in old(sessions) && k !in released
      ensures forall k :: k in sessions ==> sessions[k] == old(sessions)[k]
      ensures Lists(order, released.Keys) && results == Reports(order, released)
    {
      results, order := [], [];
      var todo := sessions.Keys;
      while todo != {}
        invariant todo <= old(sessions).Keys && sessions.Keys <= old(sessions).Keys
        invariant forall k :: k in sessions ==> sessions[k] == old(sessions)[k]
        invariant forall k :: k in old(sessions) ==> (k in sessions <==> k in todo || k !in released)
        invariant forall k :: k in order <==> k in released && k !in todo
        invariant forall i, j :: 0 <= i < j < |order| ==> order[i] != order[j]
        invariant |results| == |order|
        invariant forall i :: 0 <= i < |order| ==> results[i] == ReportOf(order[i], released[order[i]])
        decreases |todo|
      {
        var key :| key in todo;
        if Sub(now, sessions[key].lastSeen) > config.inactivityTimeout {
          var state := if sessions[key].state.Finalized? then S.Empty else S.Abandoned;
          sessions := sessions - {key};
          results := results + [ReportOf(key, state)];
          order := order + [key];
        }
        todo := todo - {key};
      }
    }

    method DropExpired(now: Time) returns (results: seq<S.Result>, ghost order: seq<Key>)
      requires Separated()
      modifies this`sessions
      ensures Separated() && Model() == S.ExpireStep(config, old(Model()), now).0
      ensures var released := S.ExpireStep(config, old(Model()), now).1;
              Lists(order, released.Keys) && results == Reports(order, released)
    {
      ghost var m := Model();
      results, order := DeleteExpired(now, S.ExpireStep(config, m, now).1);
      Shrunk();
      assert sessions.Keys == m.Keys - S.ExpireStep(config, m, now).1.Keys;
      S.KeptIsPart(config, m, now);
    }

    /** Expire: each released session is reported once, ordered by scale and plate. */
    method Expire(now: Time) returns (results: seq<S.Result>, ghost order: seq<Key>)
      requires Valid()
      modifies this`sessions
      ensures Valid() && Model() == S.ExpireStep(config, old(Model()), now).0
      ensures var released := S.ExpireStep(config, old(Model()), now).1;
              && Lists(order, released.Keys)
              && multiset(results) == multiset(Reports(order, released))
              && SortedBy(results, ResultLeq)
    {
      S.ExpireKeepsInvariant(config, Model(), now);
      var unsorted;
      unsorted, order := DropExpired(now);
      ResultOrder();
      results := Sorted(unsorted, ResultLeq);
    }
  }
}
