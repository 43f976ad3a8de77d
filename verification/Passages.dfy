/** The same manager with no ring and no state flag: each passage is just the history of
    its accepted readings, and the state is a question about that history. Runs of the
    real machine and of this one are indistinguishable. */
module Passages {
  import opened Arithmetic
  import opened Window
  import opened Keys
  import opened Rings
  import opened Sessions
  import opened Runs

  /** Every accepted reading since the passage began, heavy ones after finalization
      included; failed after an out-of-order reading. */
  datatype Passage = Passage(history: seq<Reading>, failed: bool)

  type PassageMap = map<Key, Passage>

  ghost predicate HistoryOk(cfg: Config, k: Key, h: seq<Reading>) {
    h != [] && WindowOk(cfg, k, h)
  }

  lemma SuffixInOrder(h: seq<Reading>, n: nat)
    requires Ordered(h)
    ensures Ordered(Suffix(h, n))
  {
    var t := Suffix(h, n);
    assert forall i :: 0 <= i < |t| ==> t[i] == h[i + (|h| - |t|)];
  }

  /** The statistics of the last windowCapacity readings. */
  ghost function LastWindow(cfg: Config, h: seq<Reading>): Option<WindowStats>
    requires cfg.Valid() && Ordered(h)
  {
    SuffixInOrder(h, cfg.windowCapacity);
    Evaluate(cfg, Suffix(h, cfg.windowCapacity))
  }

  /** The statistics of the window that ends a history; None while it is not ready. */
  type Look = seq<Reading> -> Option<WindowStats>

  /** The windows of a configuration. What follows holds for any Look, and for this one
      describes the manager. */
  ghost function Windows(cfg: Config): Look
    requires cfg.Valid()
  {
    (h: seq<Reading>) => if Ordered(h) then LastWindow(cfg, h) else None
  }

  /** The window ending with h is ready and stable. */
  ghost predicate Stable(look: Look, h: seq<Reading>) {
    look(h).Some? && look(h).value.stable
  }

  /** The windows ending with the last two readings of h are both ready and stable. */
  ghost predicate EndsStablePair(look: Look, h: seq<Reading>) {
    h != [] && Stable(look, h[..|h| - 1]) && Stable(look, h)
  }

  /** Two consecutive stable windows have occurred. */
  ghost predicate FinalizedBy(look: Look, h: seq<Reading>)
    decreases |h|
  {
    h != [] && (EndsStablePair(look, h) || FinalizedBy(look, h[..|h| - 1]))
  }

  lemma {:induction false} PairFinalizes(look: Look, h: seq<Reading>, j: nat)
    requires j <= |h| && EndsStablePair(look, h[..j])
    ensures FinalizedBy(look, h)
    decreases |h|
  {
    if j == |h| {
      assert h[..j] == h;
    } else {
      assert h[..|h| - 1][..j] == h[..j];
      PairFinalizes(look, h[..|h| - 1], j);
    }
  }

  lemma {:induction false} FinalizingPair(look: Look, h: seq<Reading>) returns (j: nat)
    requires FinalizedBy(look, h)
    ensures j <= |h| && EndsStablePair(look, h[..j])
    decreases |h|
  {
    if EndsStablePair(look, h) {
      j := |h|;
      assert h[..j] == h;
    } else {
      j := FinalizingPair(look, h[..|h| - 1]);
      assert h[..|h| - 1][..j] == h[..j];
    }
  }

  /** FinalizedBy asks for some prefix that ends with a stable pair. */
  lemma FinalizedBySomePair(look: Look, h: seq<Reading>)
    ensures FinalizedBy(look, h) <==> exists j {:trigger h[..j]} :: 0 <= j <= |h| && EndsStablePair(look, h[..j])
  {
    if FinalizedBy(look, h) {
      var j := FinalizingPair(look, h);
      assert EndsStablePair(look, h[..j]);
    }
    forall j | 0 <= j <= |h| && EndsStablePair(look, h[..j])
      ensures FinalizedBy(look, h)
    {
      PairFinalizes(look, h, j);
    }
  }

  /** A finalization needs two ready windows, so at least minSamples + 1 readings. */
  lemma FinalizationNeedsSamples(cfg: Config, h: seq<Reading>)
    requires cfg.Valid() && EndsStablePair(Windows(cfg), h)
    ensures |h| >= cfg.minSamples + 1
  {
  }

  /** The readings that went into the window: those up to the finalization. */
  ghost function InWindow(look: Look, h: seq<Reading>): seq<Reading>
    decreases |h|
  {
    if h == [] then []
    else if FinalizedBy(look, h[..|h| - 1]) then InWindow(look, h[..|h| - 1])
    else h
  }

  ghost function StateOf(look: Look, p: Passage): State {
    if p.failed then Failed
    else if FinalizedBy(look, p.history) then Finalized
    else if Stable(look, p.history) then Candidate
    else Collecting
  }

  ghost function LastAt(p: Passage): Time
    requires p.history != []
  {
    p.history[|p.history| - 1].measuredAt
  }

  /** The session the real machine stores for a passage. */
  ghost function SessionOf(cfg: Config, look: Look, p: Passage): Session
    requires cfg.Valid()
  {
    if p.history == [] then FRESH
    else Session(StateOf(look, p), Suffix(InWindow(look, p.history), cfg.windowCapacity), LastAt(p))
  }

  ghost predicate AllOk(cfg: Config, ps: PassageMap) {
    forall k :: k in ps ==> HistoryOk(cfg, k, ps[k].history)
  }

  ghost function SessionsOf(cfg: Config, look: Look, ps: PassageMap): SessionMap
    requires cfg.Valid()
  {
    map k | k in ps :: SessionOf(cfg, look, ps[k])
  }

  ghost predicate Closed(look: Look, p: Passage) {
    !p.failed && FinalizedBy(look, p.history)
  }

  ghost function ClosedKeys(look: Look, ps: PassageMap): set<Key> {
    set k | k in ps && Closed(look, ps[k])
  }

  ghost predicate NonEmpty(ps: PassageMap) {
    forall k :: k in ps ==> ps[k].history != []
  }

  /** The passages left when a reading of key arrives; those in closed are finalized. */
  ghost function Left(cfg: Config, ps: PassageMap, closed: set<Key>, key: Key, at: Time): PassageMap
    requires NonEmpty(ps)
  {
    map k | k in ps && !(k.scaleID == key.scaleID && k.plate != key.plate && k in closed)
                    && !(k == key && Sub(at, LastAt(ps[k])) > cfg.inactivityTimeout) :: ps[k]
  }

  ghost function SeenAt(ps: PassageMap): (seen: map<Key, Time>)
    requires NonEmpty(ps)
    ensures seen.Keys == ps.Keys
  {
    map k | k in ps :: LastAt(ps[k])
  }

  /** The passages kept, and the one the reading of key belongs to, empty if new. */
  ghost function Arrive(cfg: Config, ps: PassageMap, closed: set<Key>, key: Key, at: Time, victim: Key): (PassageMap,
                        Passage)
    requires cfg.Valid() && NonEmpty(ps)
  {
    var left := Left(cfg, ps, closed, key, at);
    if key in left then (left, left[key])
    else if |left| < cfg.maxSessions then (left, Passage([], false))
    else (left - {Evicted(SeenAt(left), victim)}, Passage([], false))
  }

  /** The verdict on an accepted history that was not finalized before its last reading. */
  ghost function Verdict(cfg: Config, look: Look, key: Key, h: seq<Reading>): Result
    requires h != []
  {
    match look(h)
    case None => Result(key, Collecting, None, None)
    case Some(st) =>
      if EndsStablePair(look, h) then
        Result(key, Finalized, Some(st),
               Some(Finalization(st.medianGrams, cfg.algorithmVersion, st.sampleCount, st.dispersionGrams, st.slope,
                                 h[|h| - 1].measuredAt)))
      else
        Result(key, if st.stable then Candidate else Collecting, Some(st), None)
  }

  ghost predicate CanContinue(cfg: Config, key: Key, p: Passage, r: Reading) {
    && ReadingKey(r) == Some(key)
    && if p.history == [] then !p.failed
       else HistoryOk(cfg, key, p.history) && Sub(r.measuredAt, LastAt(p)) <= cfg.inactivityTimeout
  }

  lemma ExtendedOk(cfg: Config, key: Key, p: Passage, r: Reading)
    requires CanContinue(cfg, key, p, r) && (p.history != [] ==> r.measuredAt > LastAt(p))
    ensures HistoryOk(cfg, key, p.history + [r])
  {
    AppendedOk(cfg, key, p.history, r);
  }

  /** A reading arrives at a passage; None when the passage is over. */
  ghost function Continue(cfg: Config, look: Look, key: Key, p: Passage, r: Reading): (Option<Passage>, Reply)
    requires cfg.Valid() && CanContinue(cfg, key, p, r)
  {
    if p.failed then
      (Some(p), FailedSession(key))
    else if p.history != [] && r.measuredAt <= LastAt(p) then
      (Some(p.(failed := true)), OutOfOrder(key, LastAt(p), r.measuredAt))
    else
      var h := p.history + [r];
      if !FinalizedBy(look, p.history) then (Some(Passage(h, false)), Done(Verdict(cfg, look, key, h)))
      else if r.weightGrams <= cfg.lowWeightThresholdGrams then (None, Done(Result(key, Empty, None, None)))
      else (Some(Passage(h, false)), Done(Result(key, Finalized, None, None)))
  }

  lemma ArrivedCanContinue(cfg: Config, ps: PassageMap, closed: set<Key>, r: Reading, victim: Key, key: Key)
    requires cfg.Valid() && AllOk(cfg, ps) && ReadingKey(r) == Some(key)
    ensures CanContinue(cfg, key, Arrive(cfg, ps, closed, key, r.measuredAt, victim).1, r)
  {
  }

  ghost function KeptAt(cfg: Config, ps: PassageMap, now: Time): PassageMap
    requires NonEmpty(ps)
  {
    map k | k in ps && Sub(now, LastAt(ps[k])) <= cfg.inactivityTimeout :: ps[k]
  }

  ghost function ReportAt(cfg: Config, ps: PassageMap, closed: set<Key>, now: Time): map<Key, State>
    requires NonEmpty(ps)
  {
    map k | k in ps && Sub(now, LastAt(ps[k])) > cfg.inactivityTimeout :: if k in closed then Empty else Abandoned
  }

  ghost function Advance(cfg: Config, look: Look, ps: PassageMap, e: Event): (PassageMap, Output)
    requires cfg.Valid() && AllOk(cfg, ps)
  {
    match e
    case Expire(now) =>
      (KeptAt(cfg, ps, now), Reported(ReportAt(cfg, ps, ClosedKeys(look, ps), now)))
    case Add(r, victim) =>
      match ReadingKey(r)
      case None => (ps, Replied(InvalidReading))
      case Some(key) =>
        ArrivedCanContinue(cfg, ps, ClosedKeys(look, ps), r, victim, key);
        var (others, p) := Arrive(cfg, ps, ClosedKeys(look, ps), key, r.measuredAt, victim);
        var (q, reply) := Continue(cfg, look, key, p, r);
        (if q.Some? then others[key := q.value] else others - {key}, Replied(reply))
  }

  lemma PartIsOk(cfg: Config, ps: PassageMap, qs: PassageMap)
    requires AllOk(cfg, ps) && forall k :: k in qs ==> k in ps && qs[k] == ps[k]
    ensures AllOk(cfg, qs)
  {
    forall k | k in qs
      ensures HistoryOk(cfg, k, qs[k].history)
    {
      assert HistoryOk(cfg, k, ps[k].history);
    }
  }

  lemma ContinuedOk(cfg: Config, look: Look, key: Key, p: Passage, r: Reading)
    requires cfg.Valid() && CanContinue(cfg, key, p, r)
    ensures var q := Continue(cfg, look, key, p, r).0; q.Some? ==> HistoryOk(cfg, key, q.value.history)
  {
    if !p.failed && (p.history != [] ==> r.measuredAt > LastAt(p)) {
      ExtendedOk(cfg, key, p, r);
    }
  }

  lemma AdvanceKeepsOk(cfg: Config, look: Look, ps: PassageMap, e: Event)
    requires cfg.Valid() && AllOk(cfg, ps)
    ensures AllOk(cfg, Advance(cfg, look, ps, e).0)
  {
    if e.Add? && ReadingKey(e.reading).Some? {
      var r, key := e.reading, ReadingKey(e.reading).value;
      var (others, p) := Arrive(cfg, ps, ClosedKeys(look, ps), key, r.measuredAt, e.victim);
      ArrivedCanContinue(cfg, ps, ClosedKeys(look, ps), r, e.victim, key);
      ContinuedOk(cfg, look, key, p, r);
      PartIsOk(cfg, ps, others);
    }
  }

  /** The passages after a run. */
  ghost function PassagesAfter(cfg: Config, look: Look, es: seq<Event>): (ps: PassageMap)
    requires cfg.Valid()
    ensures AllOk(cfg, ps)
    decreases |es|
  {
    if es == [] then map[]
    else
      var ps := PassagesAfter(cfg, look, es[..|es| - 1]);
      AdvanceKeepsOk(cfg, look, ps, es[|es| - 1]);
      Advance(cfg, look, ps, es[|es| - 1]).0
  }

  ghost function LastPassageOutput(cfg: Config, look: Look, es: seq<Event>): Output
    requires cfg.Valid() && es != []
  {
    Advance(cfg, look, PassagesAfter(cfg, look, es[..|es| - 1]), es[|es| - 1]).1
  }

  lemma NotFinalizedInWindow(look: Look, h: seq<Reading>)
    requires !FinalizedBy(look, h)
    ensures InWindow(look, h) == h
  {
  }

  /** One more reading on a history that is not finalized, given the statistics of its
      last window. */
  lemma DecideRefines(cfg: Config, look: Look, key: Key, p: Passage, r: Reading)
    requires cfg.Valid() && look([]).None? && !p.failed && !FinalizedBy(look, p.history)
    ensures Decide(cfg, key, SessionOf(cfg, look, p), r, look(p.history + [r]))
         == (SessionOf(cfg, look, Passage(p.history + [r], false)), Done(Verdict(cfg, look, key, p.history + [r])))
  {
    NotFinalizedInWindow(look, p.history);
    PushedIsLastWindow(cfg, look, p, r);
    OneMoreReading(look, p.history, r);
    if look(p.history + [r]).Some? {
      ApplyIsVerdict(cfg, look, key, p.history, r, SessionOf(cfg, look, p).state);
    }
  }

  lemma PushedIsLastWindow(cfg: Config, look: Look, p: Passage, r: Reading)
    requires cfg.Valid() && InWindow(look, p.history) == p.history
    ensures Pushed(cfg, SessionOf(cfg, look, p), r) == Suffix(p.history + [r], cfg.windowCapacity)
  {
    SuffixOfSuffix(p.history, r, cfg.windowCapacity);
  }

  lemma OneMoreReading(look: Look, h: seq<Reading>, r: Reading)
    requires !FinalizedBy(look, h)
    ensures InWindow(look, h + [r]) == h + [r]
    ensures FinalizedBy(look, h + [r]) <==> EndsStablePair(look, h + [r])
    ensures EndsStablePair(look, h + [r]) <==> Stable(look, h) && Stable(look, h + [r])
  {
    assert (h + [r])[..|h|] == h;
  }

  lemma ApplyIsVerdict(cfg: Config, look: Look, key: Key, h: seq<Reading>, r: Reading, previous: State)
    requires !FinalizedBy(look, h)
    requires look(h + [r]).Some? && (previous.Candidate? <==> Stable(look, h))
    ensures ApplyWindow(cfg, key, previous, r.measuredAt, look(h + [r]).value)
         == (StateOf(look, Passage(h + [r], false)), Verdict(cfg, look, key, h + [r]))
  {
    OneMoreReading(look, h, r);
  }

  /** The machine evaluates what look sees. */
  ghost predicate Sees(cfg: Config, look: Look, key: Key, p: Passage, r: Reading)
    requires cfg.Valid()
  {
    var s := SessionOf(cfg, look, p);
    && look([]).None?
    && (!p.failed && !FinalizedBy(look, p.history) && Ordered(p.history + [r]) ==>
          Ordered(Pushed(cfg, s, r)) && Accept(cfg, key, s, r) == Decide(cfg, key, s, r, look(p.history + [r])))
  }

  lemma WindowsSee(cfg: Config, key: Key, p: Passage, r: Reading)
    requires cfg.Valid()
    ensures Sees(cfg, Windows(cfg), key, p, r)
  {
    if !FinalizedBy(Windows(cfg), p.history) && Ordered(p.history + [r]) {
      NotFinalizedInWindow(Windows(cfg), p.history);
      PushedIsLastWindow(cfg, Windows(cfg), p, r);
      SuffixInOrder(p.history + [r], cfg.windowCapacity);
    }
  }

  lemma HeavyRefines(cfg: Config, look: Look, key: Key, p: Passage, r: Reading)
    requires cfg.Valid() && p.history != [] && !p.failed && FinalizedBy(look, p.history)
    ensures SessionOf(cfg, look, Passage(p.history + [r], false)) == SessionOf(cfg, look, p).(lastSeen := r.measuredAt)
  {
    assert (p.history + [r])[..|p.history|] == p.history;
  }

  lemma OldRefines(cfg: Config, look: Look, key: Key, p: Passage, r: Reading)
    requires cfg.Valid() && CanContinue(cfg, key, p, r) && CanReceive(cfg, key, SessionOf(cfg, look, p), r)
    requires p.history != [] && (p.failed || r.measuredAt <= LastAt(p))
    ensures var (q, reply) := Continue(cfg, look, key, p, r);
            && q.Some? && q.value.history == p.history
            && Deliver(cfg, key, SessionOf(cfg, look, p), r) == (Some(SessionOf(cfg, look, q.value)), reply)
  {
    NotZero(p.history[|p.history| - 1]);
  }

  lemma ClosedRefines(cfg: Config, look: Look, key: Key, p: Passage, r: Reading)
    requires cfg.Valid() && CanContinue(cfg, key, p, r) && CanReceive(cfg, key, SessionOf(cfg, look, p), r)
    requires p.history != [] && !p.failed && r.measuredAt > LastAt(p) && FinalizedBy(look, p.history)
    ensures var (q, reply) := Continue(cfg, look, key, p, r);
            && (q.Some? ==> q.value.history == p.history + [r])
            && Deliver(cfg, key, SessionOf(cfg, look, p), r)
               == (if q.Some? then Some(SessionOf(cfg, look, q.value)) else None, reply)
  {
    NotZero(p.history[|p.history| - 1]);
    HeavyRefines(cfg, look, key, p, r);
    DeliverToClosed(cfg, key, SessionOf(cfg, look, p), r);
  }

  lemma DeliverToClosed(cfg: Config, key: Key, s: Session, r: Reading)
    requires cfg.Valid() && CanReceive(cfg, key, s, r) && s.state.Finalized? && s.lastSeen != 0
    requires r.measuredAt > s.lastSeen
    ensures Deliver(cfg, key, s, r)
         == if r.weightGrams <= cfg.lowWeightThresholdGrams then (None, Done(Result(key, Empty, None, None)))
            else (Some(s.(lastSeen := r.measuredAt)), Done(Result(key, Finalized, None, None)))
  {
  }

  /** A session that takes the reading in delivers what Accept answers. */
  lemma DeliverAccepts(cfg: Config, key: Key, s: Session, r: Reading)
    requires cfg.Valid() && CanReceive(cfg, key, s, r) && Accepts(s, r) && Ordered(Pushed(cfg, s, r))
    ensures Deliver(cfg, key, s, r) == (Some(Accept(cfg, key, s, r).0), Accept(cfg, key, s, r).1)
  {
  }

  lemma OpenRefines(cfg: Config, look: Look, key: Key, p: Passage, r: Reading)
    requires cfg.Valid() && CanContinue(cfg, key, p, r) && Sees(cfg, look, key, p, r)
    requires CanReceive(cfg, key, SessionOf(cfg, look, p), r) && Ordered(p.history + [r])
    requires !p.failed && (p.history != [] ==> r.measuredAt > LastAt(p)) && !FinalizedBy(look, p.history)
    ensures Continue(cfg, look, key, p, r)
         == (Some(Passage(p.history + [r], false)), Done(Verdict(cfg, look, key, p.history + [r])))
    ensures var (q, reply) := Continue(cfg, look, key, p, r);
            Deliver(cfg, key, SessionOf(cfg, look, p), r) == (Some(SessionOf(cfg, look, q.value)), reply)
  {
    DecideRefines(cfg, look, key, p, r);
    DeliverAccepts(cfg, key, SessionOf(cfg, look, p), r);
  }

  lemma ContinueRefines(cfg: Config, look: Look, key: Key, p: Passage, r: Reading)
    requires cfg.Valid() && CanContinue(cfg, key, p, r) && Sees(cfg, look, key, p, r)
    requires CanReceive(cfg, key, SessionOf(cfg, look, p), r)
    ensures var (q, reply) := Continue(cfg, look, key, p, r);
            && (q.Some? ==> HistoryOk(cfg, key, q.value.history))
            && Deliver(cfg, key, SessionOf(cfg, look, p), r)
               == (if q.Some? then Some(SessionOf(cfg, look, q.value)) else None, reply)
  {
    if p.history != [] && (p.failed || r.measuredAt <= LastAt(p)) {
      OldRefines(cfg, look, key, p, r);
    } else {
      ExtendedOk(cfg, key, p, r);
      if FinalizedBy(look, p.history) {
        ClosedRefines(cfg, look, key, p, r);
      } else {
        OpenRefines(cfg, look, key, p, r);
      }
    }
  }

  /** ss and ps agree on what decides releases: times and finalized keys. */
  ghost predicate Agree(ss: SessionMap, ps: PassageMap, closed: set<Key>)
    requires NonEmpty(ps)
  {
    && ss.Keys == ps.Keys
    && (forall k :: k in ps ==> ss[k].lastSeen == LastAt(ps[k]))
    && (forall k :: k in ps ==> (ss[k].state.Finalized? <==> k in closed))
  }

  lemma StateIsFinalized(cfg: Config, look: Look, p: Passage)
    requires cfg.Valid() && p.history != []
    ensures SessionOf(cfg, look, p).state.Finalized? <==> Closed(look, p)
    ensures SessionOf(cfg, look, p).lastSeen == LastAt(p)
  {
  }

  lemma SessionsAgree(cfg: Config, look: Look, ps: PassageMap)
    requires cfg.Valid() && AllOk(cfg, ps)
    ensures NonEmpty(ps) && Agree(SessionsOf(cfg, look, ps), ps, ClosedKeys(look, ps))
  {
    forall k | k in ps
      ensures SessionsOf(cfg, look, ps)[k].lastSeen == LastAt(ps[k])
      ensures SessionsOf(cfg, look, ps)[k].state.Finalized? <==> k in ClosedKeys(look, ps)
    {
      StateIsFinalized(cfg, look, ps[k]);
    }
  }

  lemma LeftAgrees(cfg: Config, ss: SessionMap, ps: PassageMap, closed: set<Key>, key: Key, at: Time)
    requires NonEmpty(ps) && Agree(ss, ps, closed)
    ensures var left := Left(cfg, ps, closed, key, at);
            && Released(cfg, ss, key, at) == Part(ss, left.Keys)
            && Agree(Released(cfg, ss, key, at), left, closed)
  {
    var released, left := Released(cfg, ss, key, at), Left(cfg, ps, closed, key, at);
    forall k: Key
      ensures k in released <==> k in left
      ensures k in left ==> released[k] == ss[k]
    {
      if k in ps {
        ReleasedLookup(cfg, ss, key, at, k);
      }
    }
  }

  lemma ArriveAgrees(cfg: Config, ss: SessionMap, ps: PassageMap, closed: set<Key>, key: Key, at: Time, victim: Key)
    requires cfg.Valid() && NonEmpty(ps) && Agree(ss, ps, closed)
    ensures var (others, p) := Arrive(cfg, ps, closed, key, at, victim);
            && others.Keys <= ps.Keys && (forall k :: k in others ==> others[k] == ps[k])
            && (p.history == [] ==> p == Passage([], false) && key !in others)
            && (p.history != [] ==> key in others && others[key] == p)
            && Admit(cfg, ss, key, at, victim)
            == if p.history == [] then Part(ss, others.Keys)[key := FRESH] else Part(ss, others.Keys)
  {
    var left := Left(cfg, ps, closed, key, at);
    LeftAgrees(cfg, ss, ps, closed, key, at);
    if key !in left {
      RoomAgrees(cfg, Released(cfg, ss, key, at), left, closed, victim);
      PartOfPart(ss, left.Keys, Arrive(cfg, ps, closed, key, at, victim).0.Keys);
    }
  }

  lemma PartOfPart(ss: SessionMap, keys: set<Key>, fewer: set<Key>)
    requires fewer <= keys
    ensures Part(Part(ss, keys), fewer) == Part(ss, fewer)
  {
  }

  lemma RoomAgrees(cfg: Config, ss: SessionMap, ps: PassageMap, closed: set<Key>, victim: Key)
    requires cfg.Valid() && NonEmpty(ps) && Agree(ss, ps, closed)
    ensures |ss| == |ps|
    ensures |ss| < cfg.maxSessions ==> MakeRoom(cfg, ss, victim) == ss
    ensures |ss| >= cfg.maxSessions ==> MakeRoom(cfg, ss, victim) == Part(ss, ps.Keys - {Evicted(SeenAt(ps), victim)})
  {
    assert |ss.Keys| == |ps.Keys|;
    assert LastSeen(ss) == SeenAt(ps);
  }

  lemma SessionsOfPart(cfg: Config, look: Look, ps: PassageMap, qs: PassageMap)
    requires cfg.Valid() && qs.Keys <= ps.Keys && forall k :: k in qs ==> qs[k] == ps[k]
    ensures Part(SessionsOf(cfg, look, ps), qs.Keys) == SessionsOf(cfg, look, qs)
  {
  }

  lemma ArriveRefines(cfg: Config, look: Look, ps: PassageMap, key: Key, at: Time, victim: Key)
    requires cfg.Valid() && AllOk(cfg, ps)
    ensures var (others, p) := Arrive(cfg, ps, ClosedKeys(look, ps), key, at, victim);
            && AllOk(cfg, others)
            && Admit(cfg, SessionsOf(cfg, look, ps), key, at, victim)
               == SessionsOf(cfg, look, others)[key := SessionOf(cfg, look, p)]
  {
    var (others, p) := Arrive(cfg, ps, ClosedKeys(look, ps), key, at, victim);
    SessionsAgree(cfg, look, ps);
    ArriveAgrees(cfg, SessionsOf(cfg, look, ps), ps, ClosedKeys(look, ps), key, at, victim);
    PartIsOk(cfg, ps, others);
    SessionsOfPart(cfg, look, ps, others);
    if p.history != [] {
      assert SessionsOf(cfg, look, others)[key] == SessionOf(cfg, look, p);
    }
  }

  lemma AddRefines(cfg: Config, look: Look, ps: PassageMap, r: Reading, victim: Key, key: Key)
    requires cfg.Valid() && AllOk(cfg, ps) && Inv(cfg, SessionsOf(cfg, look, ps)) && ReadingKey(r) == Some(key)
    requires forall p :: Sees(cfg, look, key, p, r)
    ensures AllOk(cfg, Advance(cfg, look, ps, Add(r, victim)).0)
    ensures Step(cfg, SessionsOf(cfg, look, ps), Add(r, victim))
         == (SessionsOf(cfg, look, Advance(cfg, look, ps, Add(r, victim)).0), Advance(cfg, look, ps, Add(r, victim)).1)
  {
    var ss := SessionsOf(cfg, look, ps);
    var (others, p) := Arrive(cfg, ps, ClosedKeys(look, ps), key, r.measuredAt, victim);
    AdvanceKeepsOk(cfg, look, ps, Add(r, victim));
    AdmittedCanReceive(cfg, ss, r, victim);
    ArrivedCanContinue(cfg, ps, ClosedKeys(look, ps), r, victim, key);
    ArriveRefines(cfg, look, ps, key, r.measuredAt, victim);
    ContinueRefines(cfg, look, key, p, r);
    var q := Continue(cfg, look, key, p, r).0;
    UpdateRefines(cfg, look, others, key, q, SessionOf(cfg, look, p));
  }

  lemma UpdateRefines(cfg: Config, look: Look, others: PassageMap, key: Key, q: Option<Passage>, s: Session)
    requires cfg.Valid() && AllOk(cfg, others) && (q.Some? ==> HistoryOk(cfg, key, q.value.history))
    ensures q.Some? ==> AllOk(cfg, others[key := q.value])
    ensures q.Some? ==>
      SessionsOf(cfg, look, others)[key := s][key := SessionOf(cfg, look, q.value)]
      == SessionsOf(cfg, look, others[key := q.value])
    ensures SessionsOf(cfg, look, others)[key := s] - {key} == SessionsOf(cfg, look, others - {key})
  {
  }

  lemma ExpireAgrees(cfg: Config, ss: SessionMap, ps: PassageMap, closed: set<Key>, now: Time)
    requires NonEmpty(ps) && Agree(ss, ps, closed)
    ensures ExpireStep(cfg, ss, now).0 == Part(ss, KeptAt(cfg, ps, now).Keys)
    ensures ExpireStep(cfg, ss, now).1 == ReportAt(cfg, ps, closed, now)
  {
  }

  lemma ExpireRefines(cfg: Config, look: Look, ps: PassageMap, now: Time)
    requires cfg.Valid() && AllOk(cfg, ps)
    ensures AllOk(cfg, KeptAt(cfg, ps, now))
    ensures ExpireStep(cfg, SessionsOf(cfg, look, ps), now).0 == SessionsOf(cfg, look, KeptAt(cfg, ps, now))
    ensures ExpireStep(cfg, SessionsOf(cfg, look, ps), now).1 == ReportAt(cfg, ps, ClosedKeys(look, ps), now)
  {
    SessionsAgree(cfg, look, ps);
    ExpireAgrees(cfg, SessionsOf(cfg, look, ps), ps, ClosedKeys(look, ps), now);
    PartIsOk(cfg, ps, KeptAt(cfg, ps, now));
    SessionsOfPart(cfg, look, ps, KeptAt(cfg, ps, now));
  }

  /** Every run of the manager is a run of the history machine: same sessions up to
      SessionsOf, same outputs. */
  lemma {:induction false} RunsRefine(cfg: Config, es: seq<Event>)
    requires cfg.Valid()
    ensures After(cfg, es) == SessionsOf(cfg, Windows(cfg), PassagesAfter(cfg, Windows(cfg), es))
    ensures es != [] ==> LastOutput(cfg, es) == LastPassageOutput(cfg, Windows(cfg), es)
    decreases |es|
  {
    if es == [] {
      assert SessionsOf(cfg, Windows(cfg), map[]) == map[];
    } else {
      var front, last := es[..|es| - 1], es[|es| - 1];
      RunsRefine(cfg, front);
      if last.Add? && ReadingKey(last.reading).Some? {
        forall p
          ensures Sees(cfg, Windows(cfg), ReadingKey(last.reading).value, p, last.reading)
        {
          WindowsSee(cfg, ReadingKey(last.reading).value, p, last.reading);
        }
      }
      StepRefines(cfg, Windows(cfg), PassagesAfter(cfg, Windows(cfg), front), last);
    }
  }

  lemma StepRefines(cfg: Config, look: Look, ps: PassageMap, e: Event)
    requires cfg.Valid() && AllOk(cfg, ps) && Inv(cfg, SessionsOf(cfg, look, ps))
    requires e.Add? && ReadingKey(e.reading).Some? ==>
      forall p :: Sees(cfg, look, ReadingKey(e.reading).value, p, e.reading)
    ensures AllOk(cfg, Advance(cfg, look, ps, e).0)
    ensures Step(cfg, SessionsOf(cfg, look, ps), e)
         == (SessionsOf(cfg, look, Advance(cfg, look, ps, e).0), Advance(cfg, look, ps, e).1)
  {
    match e
    case Expire(now) => ExpireRefines(cfg, look, ps, now);
    case Add(r, victim) =>
      if ReadingKey(r).Some? {
        AddRefines(cfg, look, ps, r, victim, ReadingKey(r).value);
      }
  }

  /** Readings of one key that the manager accepts one after the other: increasing times,
      no gap over the timeout, and no low weight once finalized. */
  ghost predicate Accepted(cfg: Config, look: Look, k: Key, rs: seq<Reading>)
    requires cfg.Valid()
  {
    && WindowOk(cfg, k, rs)
    && forall j {:trigger rs[..j]} :: 0 <= j < |rs| && FinalizedBy(look, rs[..j]) ==>
         rs[j].weightGrams > cfg.lowWeightThresholdGrams
  }

  ghost function Adds(rs: seq<Reading>, victim: Key): (es: seq<Event>)
    ensures |es| == |rs|
  {
    seq(|rs|, i requires 0 <= i < |rs| => Add(rs[i], victim))
  }

  lemma AcceptedPrefix(cfg: Config, look: Look, k: Key, rs: seq<Reading>)
    requires cfg.Valid() && Accepted(cfg, look, k, rs) && rs != []
    ensures Accepted(cfg, look, k, rs[..|rs| - 1])
    ensures FinalizedBy(look, rs[..|rs| - 1]) ==> rs[|rs| - 1].weightGrams > cfg.lowWeightThresholdGrams
  {
    var front := rs[..|rs| - 1];
    forall j | 0 <= j < |front| && FinalizedBy(look, front[..j])
      ensures front[j].weightGrams > cfg.lowWeightThresholdGrams
    {
      assert front[..j] == rs[..j];
    }
  }

  ghost function Alone(k: Key, rs: seq<Reading>): PassageMap {
    if rs == [] then map[] else map[k := Passage(rs, false)]
  }

  /** The reply to the last of the accepted readings rs. */
  ghost function ReplyTo(cfg: Config, look: Look, k: Key, rs: seq<Reading>): Reply
    requires rs != []
  {
    Done(if FinalizedBy(look, rs[..|rs| - 1]) then Result(k, Finalized, None, None) else Verdict(cfg, look, k, rs))
  }

  lemma AddsOneMore(rs: seq<Reading>, victim: Key)
    requires rs != []
    ensures rs == rs[..|rs| - 1] + [rs[|rs| - 1]]
    ensures Adds(rs, victim) == Adds(rs[..|rs| - 1], victim) + [Add(rs[|rs| - 1], victim)]
  {
  }

  /** The passage of accepted readings is their history. */
  lemma {:induction false} AcceptedHistory(cfg: Config, look: Look, k: Key, rs: seq<Reading>, victim: Key)
    requires cfg.Valid() && Accepted(cfg, look, k, rs)
    ensures PassagesAfter(cfg, look, Adds(rs, victim)) == Alone(k, rs)
    ensures rs != [] ==> LastPassageOutput(cfg, look, Adds(rs, victim)) == Replied(ReplyTo(cfg, look, k, rs))
    decreases |rs|
  {
    if rs != [] {
      var front, r := rs[..|rs| - 1], rs[|rs| - 1];
      AcceptedPrefix(cfg, look, k, rs);
      AcceptedHistory(cfg, look, k, front, victim);
      AddsOneMore(rs, victim);
      AcceptedStep(cfg, look, k, Adds(front, victim), front, r, victim);
    }
  }

  lemma OneMoreEvent(cfg: Config, look: Look, es: seq<Event>, e: Event)
    requires cfg.Valid()
    ensures PassagesAfter(cfg, look, es + [e]) == Advance(cfg, look, PassagesAfter(cfg, look, es), e).0
    ensures LastPassageOutput(cfg, look, es + [e]) == Advance(cfg, look, PassagesAfter(cfg, look, es), e).1
  {
    assert (es + [e])[..|es|] == es;
  }

  lemma AcceptedStep(cfg: Config, look: Look, k: Key, es: seq<Event>, front: seq<Reading>, r: Reading, victim: Key)
    requires cfg.Valid() && WindowOk(cfg, k, front) && WindowOk(cfg, k, front + [r])
    requires FinalizedBy(look, front) ==> r.weightGrams > cfg.lowWeightThresholdGrams
    requires PassagesAfter(cfg, look, es) == Alone(k, front)
    ensures PassagesAfter(cfg, look, es + [Add(r, victim)]) == Alone(k, front + [r])
    ensures LastPassageOutput(cfg, look, es + [Add(r, victim)]) == Replied(ReplyTo(cfg, look, k, front + [r]))
  {
    OneMoreEvent(cfg, look, es, Add(r, victim));
    NextAccepted(cfg, look, k, front, r, victim);
  }

  lemma ArriveAlone(cfg: Config, k: Key, front: seq<Reading>, closed: set<Key>, r: Reading, victim: Key)
    requires cfg.Valid() && WindowOk(cfg, k, front + [r])
    ensures NonEmpty(Alone(k, front))
    ensures Arrive(cfg, Alone(k, front), closed, k, r.measuredAt, victim) == (Alone(k, front), Passage(front, false))
  {
    var rs, ps := front + [r], Alone(k, front);
    if front != [] {
      var n := |front| - 1;
      assert rs[n] == front[n] && rs[n + 1] == r;
      assert Sub(rs[n + 1].measuredAt, rs[n].measuredAt) <= cfg.inactivityTimeout;
    }
    assert Left(cfg, ps, closed, k, r.measuredAt) == ps;
  }

  lemma ContinueAlone(cfg: Config, look: Look, k: Key, front: seq<Reading>, r: Reading)
    requires cfg.Valid() && WindowOk(cfg, k, front) && WindowOk(cfg, k, front + [r])
    requires FinalizedBy(look, front) ==> r.weightGrams > cfg.lowWeightThresholdGrams
    ensures CanContinue(cfg, k, Passage(front, false), r)
    ensures Continue(cfg, look, k, Passage(front, false), r)
         == (Some(Passage(front + [r], false)), ReplyTo(cfg, look, k, front + [r]))
  {
    var rs := front + [r];
    assert rs[|front|] == r && rs[..|rs| - 1] == front;
    assert ReadingKey(rs[|front|]) == Some(k);
    if front != [] {
      var n := |front| - 1;
      assert rs[n] == front[n];
      assert Sub(rs[n + 1].measuredAt, rs[n].measuredAt) <= cfg.inactivityTimeout;
    }
  }

  lemma NextAccepted(cfg: Config, look: Look, k: Key, front: seq<Reading>, r: Reading, victim: Key)
    requires cfg.Valid() && WindowOk(cfg, k, front) && WindowOk(cfg, k, front + [r])
    requires FinalizedBy(look, front) ==> r.weightGrams > cfg.lowWeightThresholdGrams
    ensures AllOk(cfg, Alone(k, front))
    ensures Advance(cfg, look, Alone(k, front), Add(r, victim))
         == (Alone(k, front + [r]), Replied(ReplyTo(cfg, look, k, front + [r])))
  {
    var ps := Alone(k, front);
    ArriveAlone(cfg, k, front, ClosedKeys(look, ps), r, victim);
    ContinueAlone(cfg, look, k, front, r);
    assert ps[k := Passage(front + [r], false)] == Alone(k, front + [r]);
    assert (front + [r])[|front|] == r;
    assert ReadingKey((front + [r])[|front|]) == Some(k);
  }

  /** The finalization point of readings rs alone in a manager. */
  lemma FinalizationPointAlone(cfg: Config, k: Key, rs: seq<Reading>, victim: Key)
    requires cfg.Valid() && Accepted(cfg, Windows(cfg), k, rs) && rs != []
    ensures LastOutput(cfg, Adds(rs, victim)).Replied? && LastOutput(cfg, Adds(rs, victim)).reply.Done?
    ensures IsPointReply(Windows(cfg), k, rs, LastOutput(cfg, Adds(rs, victim)).reply.result)
  {
    RunsRefine(cfg, Adds(rs, victim));
    AcceptedReply(cfg, Windows(cfg), k, rs, victim, LastOutput(cfg, Adds(rs, victim)));
  }

  /** result is what the history rs of accepted readings, with windows look, calls for. */
  ghost predicate IsPointReply(look: Look, k: Key, rs: seq<Reading>, result: Result)
    requires rs != []
  {
    && result.key == k
    && (result.finalization.Some? <==> EndsStablePair(look, rs) && !FinalizedBy(look, rs[..|rs| - 1]))
    && (result.finalization.Some? ==> result.finalization.value.weightGrams == look(rs).value.medianGrams)
    && (result.state == Finalized <==> FinalizedBy(look, rs))
    && (result.state == Candidate <==> Stable(look, rs) && !FinalizedBy(look, rs))
  }

  lemma AcceptedReply(cfg: Config, look: Look, k: Key, rs: seq<Reading>, victim: Key, output: Output)
    requires cfg.Valid() && Accepted(cfg, look, k, rs) && rs != []
    requires output == LastPassageOutput(cfg, look, Adds(rs, victim))
    ensures output.Replied? && output.reply.Done? && IsPointReply(look, k, rs, output.reply.result)
  {
    AcceptedHistory(cfg, look, k, rs, victim);
    ReplyFacts(cfg, look, k, rs);
  }

  lemma ReplyFacts(cfg: Config, look: Look, k: Key, rs: seq<Reading>)
    requires rs != []
    ensures IsPointReply(look, k, rs, ReplyTo(cfg, look, k, rs).result)
  {
  }

  /** The last event of the run is a reading of k that Add answers, and the session of k
      is stored after it. */
  ghost predicate EndsAccepted(cfg: Config, es: seq<Event>, k: Key)
    requires cfg.Valid()
  {
    && es != [] && es[|es| - 1].Add? && ReadingKey(es[|es| - 1].reading) == Some(k)
    && LastOutput(cfg, es).Replied? && LastOutput(cfg, es).reply.Done? && k in After(cfg, es)
  }

  /** A reading that is answered and leaves its passage there has joined its history, and
      the reply is the verdict on it. */
  lemma AnsweredJoins(cfg: Config, look: Look, ps: PassageMap, r: Reading, victim: Key, k: Key)
    requires cfg.Valid() && AllOk(cfg, ps) && ReadingKey(r) == Some(k)
    requires var (ps', output) := Advance(cfg, look, ps, Add(r, victim));
             k in ps' && output.Replied? && output.reply.Done?
    ensures var (ps', output) := Advance(cfg, look, ps, Add(r, victim));
            var h := ps'[k].history;
            && !ps'[k].failed && h != [] && h[|h| - 1] == r
            && output.reply == ReplyTo(cfg, look, k, h)
  {
    ArrivedCanContinue(cfg, ps, ClosedKeys(look, ps), r, victim, k);
    var (others, p) := Arrive(cfg, ps, ClosedKeys(look, ps), k, r.measuredAt, victim);
    assert (p.history + [r])[..|p.history|] == p.history;
  }

  /** The accepted readings of the passage of k that a run ends in. */
  ghost function HistoryIn(cfg: Config, es: seq<Event>, k: Key): (h: seq<Reading>)
    requires cfg.Valid()
    ensures Ordered(h)
  {
    var ps := PassagesAfter(cfg, Windows(cfg), es);
    if k in ps then ps[k].history else []
  }

  lemma EndsWithLast(cfg: Config, es: seq<Event>, k: Key)
    requires cfg.Valid() && EndsAccepted(cfg, es, k)
    ensures var h := HistoryIn(cfg, es, k);
            && h != [] && h[|h| - 1] == es[|es| - 1].reading
            && LastOutput(cfg, es).reply == ReplyTo(cfg, Windows(cfg), k, h)
            && After(cfg, es)[k] == SessionOf(cfg, Windows(cfg), Passage(h, false))
  {
    RunsRefine(cfg, es);
    var front, last := es[..|es| - 1], es[|es| - 1];
    AnsweredJoins(cfg, Windows(cfg), PassagesAfter(cfg, Windows(cfg), front), last.reading, last.victim, k);
  }

  /** The finalization point, in any run and among any other sessions. When a reading of k
      is accepted, the reply is a finalization exactly if the last two windows of its
      passage are ready and stable and no earlier two were; the weight is then the median
      of the last window; and the state is CANDIDATE exactly if only the last window is
      stable. */
  lemma FinalizationPoint(cfg: Config, es: seq<Event>, k: Key)
    requires cfg.Valid() && EndsAccepted(cfg, es, k)
    ensures var h := HistoryIn(cfg, es, k);
            && h != [] && h[|h| - 1] == es[|es| - 1].reading
            && IsPointReply(Windows(cfg), k, h, LastOutput(cfg, es).reply.result)
  {
    EndsWithLast(cfg, es, k);
    ReplyFacts(cfg, Windows(cfg), k, HistoryIn(cfg, es, k));
  }
}
