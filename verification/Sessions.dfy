/** The session machine of the stabilizer on values: what Manager.Add and
    Manager.Expire do to the map of sessions. Go's random map order decides which of
    several equally old sessions makeRoom evicts; the victim argument stands for it. */
module Sessions {
  import opened Arithmetic
  import opened Window
  import opened Keys
  import opened Rings
  import opened Rationals

  datatype State = Empty | Collecting | Candidate | Finalized | Abandoned | Failed

  datatype Session = Session(state: State, window: seq<Reading>, lastSeen: Time)

  type SessionMap = map<Key, Session>

  datatype Finalization = Finalization(
    weightGrams: int,
    algorithmVersion: string,
    sampleCount: int,
    dispersionGrams: int,
    slope: Rational,
    stabilizedAt: Time)

  datatype Result = Result(key: Key, state: State, window: Option<WindowStats>, finalization: Option<Finalization>)

  /** Add's result or error. */
  datatype Reply =
    | InvalidReading
    | FailedSession(key: Key)
    | OutOfOrder(key: Key, previous: Time, current: Time)
    | Done(result: Result)

  const FRESH: Session := Session(Empty, [], 0)

  ghost predicate GapsWithin(cfg: Config, rs: seq<Reading>) {
    forall i :: 0 <= i < |rs| - 1 ==> Sub(rs[i + 1].measuredAt, rs[i].measuredAt) <= cfg.inactivityTimeout
  }

  ghost predicate OnlyKey(k: Key, rs: seq<Reading>) {
    forall i :: 0 <= i < |rs| ==> ReadingKey(rs[i]) == Some(k)
  }

  /** What every stored session satisfies: a bounded, non-empty window of its own key's
      readings, strictly increasing in time with no gap over the timeout. */
  ghost predicate SessionInv(cfg: Config, k: Key, s: Session) {
    && s.state in {Collecting, Candidate, Finalized, Failed}
    && 0 < |s.window| <= cfg.windowCapacity
    && WindowOk(cfg, k, s.window)
    && s.lastSeen != 0
    && s.window[|s.window| - 1].measuredAt <= s.lastSeen
    && (s.state in {Collecting, Candidate} ==> s.window[|s.window| - 1].measuredAt == s.lastSeen)
  }

  /** The manager's invariant: bounded, every session as above, and at most one
      FINALIZED session on a scale. */
  ghost predicate Inv(cfg: Config, ss: SessionMap) {
    && |ss| <= cfg.maxSessions
    && (forall k :: k in ss ==> SessionInv(cfg, k, ss[k]))
    && OneFinalizedPerScale(ss)
  }

  ghost predicate OneFinalizedPerScale(ss: SessionMap) {
    forall k, l | k in ss && l in ss && k.scaleID == l.scaleID && ss[k].state.Finalized? && ss[l].state.Finalized? ::
      k == l
  }

  /** The sessions of ss with a key in keys. */
  ghost function Part(ss: SessionMap, keys: set<Key>): SessionMap {
    map k | k in ss && k in keys :: ss[k]
  }

  /** releaseFinalizedForPlateChange. */
  ghost function ReleasePlateChange(ss: SessionMap, key: Key): SessionMap {
    map k | k in ss && !(k.scaleID == key.scaleID && k.plate != key.plate && ss[k].state.Finalized?) :: ss[k]
  }

  lemma PlateChangeIsPart(ss: SessionMap, key: Key, keys: set<Key>)
    requires forall k ::
      k in keys <==> k in ss && !(k.scaleID == key.scaleID && k.plate != key.plate && ss[k].state.Finalized?)
    ensures ReleasePlateChange(ss, key) == Part(ss, keys)
  {
  }

  /** The inactivity check at the head of Add. */
  ghost predicate IsStale(cfg: Config, ss: SessionMap, key: Key, at: Time) {
    key in ss && Sub(at, ss[key].lastSeen) > cfg.inactivityTimeout
  }

  ghost function DropStale(cfg: Config, ss: SessionMap, key: Key, at: Time): SessionMap {
    if IsStale(cfg, ss, key, at) then ss - {key} else ss
  }

  ghost function LastSeen(ss: SessionMap): map<Key, Time> {
    map k | k in ss :: ss[k].lastSeen
  }

  ghost predicate IsOldest(seen: map<Key, Time>, k: Key) {
    k in seen && forall l :: l in seen ==> seen[k] <= seen[l]
  }

  lemma {:induction false} OldestExists(seen: map<Key, Time>)
    requires |seen| > 0
    ensures exists k :: IsOldest(seen, k)
    decreases |seen|
  {
    var k :| k in seen;
    var rest := seen - {k};
    if |rest| == 0 {
      assert seen.Keys == {k} + rest.Keys;
      assert IsOldest(seen, k);
    } else {
      assert |rest| < |seen| by {
        assert rest.Keys < seen.Keys;
        SubsetSize(rest.Keys, seen.Keys);
      }
      OldestExists(rest);
      var l :| IsOldest(rest, l);
      assert forall j :: j in seen ==> j == k || j in rest;
      assert IsOldest(seen, if seen[k] <= seen[l] then k else l);
    }
  }

  lemma {:induction false} SubsetSize<T>(a: set<T>, b: set<T>)
    requires a <= b
    ensures |a| <= |b|
    ensures a != b ==> |a| < |b|
    decreases |b|
  {
    if a == {} {
      assert a != b ==> |b| > 0;
    } else {
      var x :| x in a;
      SubsetSize(a - {x}, b - {x});
      assert a == (a - {x}) + {x} && b == (b - {x}) + {x};
    }
  }

  /** The session makeRoom evicts: a least recently seen one, victim if it is one. */
  ghost function Evicted(seen: map<Key, Time>, victim: Key): (k: Key)
    requires |seen| > 0
    ensures IsOldest(seen, k)
    ensures IsOldest(seen, victim) ==> k == victim
  {
    if IsOldest(seen, victim) then victim
    else
      OldestExists(seen);
      var k :| IsOldest(seen, k);
      k
  }

  /** makeRoom. */
  ghost function MakeRoom(cfg: Config, ss: SessionMap, victim: Key): SessionMap
    requires cfg.Valid()
  {
    if |ss| < cfg.maxSessions then ss
    else
      assert LastSeen(ss).Keys == ss.Keys;
      ss - {Evicted(LastSeen(ss), victim)}
  }

  /** makeRoom deletes the victim it found, if that is a least recently seen session. */
  lemma EvictsOldest(cfg: Config, ss: SessionMap, victim: Key)
    requires cfg.Valid() && |ss| >= cfg.maxSessions && victim in ss
    requires forall k :: k in ss ==> ss[victim].lastSeen <= ss[k].lastSeen
    ensures MakeRoom(cfg, ss, victim) == Part(ss, ss.Keys - {victim})
  {
    assert LastSeen(ss).Keys == ss.Keys;
  }

  /** Add up to the point where the session of key exists. */
  ghost function Released(cfg: Config, ss: SessionMap, key: Key, at: Time): SessionMap {
    DropStale(cfg, ReleasePlateChange(ss, key), key, at)
  }

  ghost function Admit(cfg: Config, ss: SessionMap, key: Key, at: Time, victim: Key): SessionMap
    requires cfg.Valid()
  {
    var ss' := Released(cfg, ss, key, at);
    if key in ss' then ss' else MakeRoom(cfg, ss', victim)[key := FRESH]
  }

  /** applyWindow. */
  ghost function ApplyWindow(cfg: Config, key: Key, previous: State, lastSeen: Time, stats: WindowStats): (State,
                             Result)
  {
    if stats.stable then
      if previous.Candidate? then
        (Finalized, Result(key, Finalized, Some(stats),
                           Some(Finalization(stats.medianGrams, cfg.algorithmVersion, stats.sampleCount,
                                             stats.dispersionGrams, stats.slope, lastSeen))))
      else
        (Candidate, Result(key, Candidate, Some(stats), None))
    else
      (Collecting, Result(key, Collecting, Some(stats), None))
  }

  ghost predicate CanReceive(cfg: Config, key: Key, s: Session, r: Reading) {
    && ReadingKey(r) == Some(key)
    && (s == FRESH || (SessionInv(cfg, key, s) && Sub(r.measuredAt, s.lastSeen) <= cfg.inactivityTimeout))
  }

  /** What the readings do to the window of a session that accepts r. */
  ghost function Pushed(cfg: Config, s: Session, r: Reading): seq<Reading>
    requires cfg.Valid()
  {
    Suffix(s.window + [r], cfg.windowCapacity)
  }

  ghost predicate WindowOk(cfg: Config, k: Key, rs: seq<Reading>) {
    OnlyKey(k, rs) && Ordered(rs) && GapsWithin(cfg, rs)
  }

  lemma AppendedOk(cfg: Config, k: Key, rs: seq<Reading>, r: Reading)
    requires WindowOk(cfg, k, rs) && ReadingKey(r) == Some(k)
    requires rs != [] ==> rs[|rs| - 1].measuredAt < r.measuredAt
    requires rs != [] ==> Sub(r.measuredAt, rs[|rs| - 1].measuredAt) <= cfg.inactivityTimeout
    ensures WindowOk(cfg, k, rs + [r])
  {
    AppendedInOrder(rs, r);
    assert forall i :: 0 <= i < |rs| ==> (rs + [r])[i] == rs[i];
  }

  lemma AppendedInOrder(rs: seq<Reading>, r: Reading)
    requires Ordered(rs) && r.weightGrams > 0
    requires rs != [] ==> rs[|rs| - 1].measuredAt < r.measuredAt
    ensures Ordered(rs + [r])
  {
    var t := rs + [r];
    forall i, j | 0 <= i < j < |t|
      ensures t[i].measuredAt < t[j].measuredAt
    {
      assert rs != [] && (i < |rs| - 1 ==> rs[i].measuredAt < rs[|rs| - 1].measuredAt);
    }
  }

  lemma SuffixOk(cfg: Config, k: Key, rs: seq<Reading>, n: nat)
    requires WindowOk(cfg, k, rs)
    ensures WindowOk(cfg, k, Suffix(rs, n))
  {
    var t := Suffix(rs, n);
    var d := |rs| - |t|;
    forall i | 0 <= i < |t|
      ensures t[i] == rs[i + d]
    {
    }
    forall i | 0 <= i < |t| - 1
      ensures Sub(t[i + 1].measuredAt, t[i].measuredAt) <= cfg.inactivityTimeout
    {
      assert t[i] == rs[i + d] && t[i + 1] == rs[(i + d) + 1];
    }
  }

  lemma PushedIsOrdered(cfg: Config, key: Key, s: Session, r: Reading)
    requires cfg.Valid() && CanReceive(cfg, key, s, r)
    requires s != FRESH ==> s.state in {Collecting, Candidate} && r.measuredAt > s.lastSeen
    ensures var w := Pushed(cfg, s, r); WindowOk(cfg, key, w) && |w| > 0 && w[|w| - 1] == r
  {
    AppendedOk(cfg, key, s.window, r);
    SuffixOk(cfg, key, s.window + [r], cfg.windowCapacity);
  }

  /** What the statistics of the new window decide; None while it is not ready. */
  ghost function Decide(cfg: Config, key: Key, s: Session, r: Reading, stats: Option<WindowStats>): (a: (Session,
                        Reply))
    requires cfg.Valid()
    ensures a.0.window == Pushed(cfg, s, r) && a.0.lastSeen == r.measuredAt
    ensures a.0.state in {Collecting, Candidate, Finalized}
  {
    var w := Pushed(cfg, s, r);
    match stats
    case None =>
      (Session(Collecting, w, r.measuredAt), Done(Result(key, Collecting, None, None)))
    case Some(st) =>
      var (state, result) := ApplyWindow(cfg, key, s.state, r.measuredAt, st);
      (Session(state, w, r.measuredAt), Done(result))
  }

  /** Add once the reading is in the window. */
  ghost function Accept(cfg: Config, key: Key, s: Session, r: Reading): (a: (Session, Reply))
    requires cfg.Valid() && Ordered(Pushed(cfg, s, r))
    ensures a.0.window == Pushed(cfg, s, r) && a.0.lastSeen == r.measuredAt
    ensures a.0.state in {Collecting, Candidate, Finalized}
  {
    Decide(cfg, key, s, r, Evaluate(cfg, Pushed(cfg, s, r)))
  }

  /** The reading goes into the window: the session is neither failed nor finalized and
      the reading is newer than the last. */
  ghost predicate Accepts(s: Session, r: Reading) {
    s.state !in {Failed, Finalized} && (s.lastSeen == 0 || r.measuredAt > s.lastSeen)
  }

  /** The part of Add that works on one session; None when the session is deleted. */
  ghost function Deliver(cfg: Config, key: Key, s: Session, r: Reading): (Option<Session>, Reply)
    requires cfg.Valid() && CanReceive(cfg, key, s, r)
  {
    if s.state.Failed? then
      (Some(s), FailedSession(key))
    else if s.lastSeen != 0 && r.measuredAt <= s.lastSeen then
      (Some(s.(state := Failed)), OutOfOrder(key, s.lastSeen, r.measuredAt))
    else if s.state.Finalized? then
      if r.weightGrams <= cfg.lowWeightThresholdGrams then
        (None, Done(Result(key, Empty, None, None)))
      else
        (Some(s.(lastSeen := r.measuredAt)), Done(Result(key, Finalized, None, None)))
    else
      PushedIsOrdered(cfg, key, s, r);
      var (s', reply) := Accept(cfg, key, s, r);
      (Some(s'), reply)
  }

  lemma AdmittedCanReceive(cfg: Config, ss: SessionMap, r: Reading, victim: Key)
    requires cfg.Valid() && Inv(cfg, ss) && ReadingKey(r).Some?
    ensures var key := ReadingKey(r).value;
            var admitted := Admit(cfg, ss, key, r.measuredAt, victim);
            key in admitted && CanReceive(cfg, key, admitted[key], r)
  {
    var key := ReadingKey(r).value;
    if key in Released(cfg, ss, key, r.measuredAt) {
      assert SessionInv(cfg, key, ss[key]);
    }
  }

  /** Manager.Add. */
  ghost function AddStep(cfg: Config, ss: SessionMap, r: Reading, victim: Key): (SessionMap, Reply)
    requires cfg.Valid() && Inv(cfg, ss)
  {
    match ReadingKey(r)
    case None => (ss, InvalidReading)
    case Some(key) =>
      AdmittedCanReceive(cfg, ss, r, victim);
      var admitted := Admit(cfg, ss, key, r.measuredAt, victim);
      var (s, reply) := Deliver(cfg, key, admitted[key], r);
      (if s.Some? then admitted[key := s.value] else admitted - {key}, reply)
  }

  ghost predicate Expires(cfg: Config, s: Session, now: Time) {
    Sub(now, s.lastSeen) > cfg.inactivityTimeout
  }

  /** Manager.Expire: the sessions kept, and the reported state of each one released. */
  ghost function ExpireStep(cfg: Config, ss: SessionMap, now: Time): (SessionMap, map<Key, State>) {
    (map k | k in ss && !Expires(cfg, ss[k], now) :: ss[k],
     map k | k in ss && Expires(cfg, ss[k], now) :: if ss[k].state.Finalized? then Empty else Abandoned)
  }

  lemma KeptIsPart(cfg: Config, ss: SessionMap, now: Time)
    ensures var (kept, released) := ExpireStep(cfg, ss, now); kept == Part(ss, ss.Keys - released.Keys)
  {
  }

  lemma DeliverAccepts(cfg: Config, k: Key, s: Session, r: Reading)
    requires cfg.Valid() && CanReceive(cfg, k, s, r) && s.state !in {Failed, Finalized}
    requires s == FRESH || r.measuredAt > s.lastSeen
    ensures Ordered(Pushed(cfg, s, r))
    ensures Deliver(cfg, k, s, r) == (Some(Accept(cfg, k, s, r).0), Accept(cfg, k, s, r).1)
  {
    PushedIsOrdered(cfg, k, s, r);
  }

  lemma AcceptKeepsInvariant(cfg: Config, key: Key, s: Session, r: Reading)
    requires cfg.Valid() && ReadingKey(r) == Some(key)
    requires var w := Pushed(cfg, s, r); WindowOk(cfg, key, w) && |w| > 0 && w[|w| - 1] == r
    ensures SessionInv(cfg, key, Accept(cfg, key, s, r).0)
  {
    NotZero(r);
  }

  lemma DeliverKeepsInvariant(cfg: Config, key: Key, s: Session, r: Reading)
    requires cfg.Valid() && CanReceive(cfg, key, s, r)
    ensures var s' := Deliver(cfg, key, s, r).0; s'.Some? ==> SessionInv(cfg, key, s'.value)
  {
    if Accepts(s, r) {
      PushedIsOrdered(cfg, key, s, r);
      AcceptKeepsInvariant(cfg, key, s, r);
      DeliverAccepts(cfg, key, s, r);
    }
  }

  lemma MakeRoomMakesRoom(cfg: Config, ss: SessionMap, victim: Key)
    requires cfg.Valid() && |ss| <= cfg.maxSessions
    ensures var room := MakeRoom(cfg, ss, victim);
            && |room.Keys| < cfg.maxSessions && room.Keys <= ss.Keys
            && forall k :: k in room ==> room[k] == ss[k]
  {
    if |ss| >= cfg.maxSessions {
      assert LastSeen(ss).Keys == ss.Keys;
      var evicted := Evicted(LastSeen(ss), victim);
      assert MakeRoom(cfg, ss, victim).Keys == ss.Keys - {evicted};
    }
  }

  lemma ReleasedIsPart(cfg: Config, ss: SessionMap, key: Key, at: Time)
    ensures var released := Released(cfg, ss, key, at);
            && released.Keys <= ss.Keys && |released| <= |ss|
            && (forall k :: k in released ==> released[k] == ss[k])
            && (forall k :: k in released && k.scaleID == key.scaleID && released[k].state.Finalized? ==> k == key)
  {
    var released := Released(cfg, ss, key, at);
    SubsetSize(released.Keys, ss.Keys);
    forall k | k in released && k.scaleID == key.scaleID && released[k].state.Finalized?
      ensures k == key
    {
      assert k in ReleasePlateChange(ss, key);
      assert k.plate == key.plate;
    }
  }

  lemma AdmitKeepsBounds(cfg: Config, ss: SessionMap, key: Key, at: Time, victim: Key)
    requires cfg.Valid() && |ss| <= cfg.maxSessions
    ensures var admitted := Admit(cfg, ss, key, at, victim);
            && key in admitted && |admitted| <= cfg.maxSessions
            && (forall k :: k in admitted && k != key ==> k in ss && admitted[k] == ss[k])
            && (admitted[key] == FRESH || (key in ss && admitted[key] == ss[key]))
            && (forall k :: k in admitted && k.scaleID == key.scaleID && admitted[k].state.Finalized? ==> k == key)
  {
    var released := Released(cfg, ss, key, at);
    ReleasedIsPart(cfg, ss, key, at);
    if key !in released {
      MakeRoomMakesRoom(cfg, released, victim);
      var room := MakeRoom(cfg, released, victim);
      assert room[key := FRESH].Keys == room.Keys + {key};
    }
  }

  lemma ChangedOne(cfg: Config, ss: SessionMap, admitted: SessionMap, ss': SessionMap, key: Key)
    requires Inv(cfg, ss) && |admitted| <= cfg.maxSessions
    requires forall k :: k in admitted && k != key ==> k in ss && admitted[k] == ss[k]
    requires forall k :: k in admitted && k.scaleID == key.scaleID && admitted[k].state.Finalized? ==> k == key
    requires ss'.Keys <= admitted.Keys && forall k :: k in ss' && k != key ==> ss'[k] == admitted[k]
    requires key in ss' ==> SessionInv(cfg, key, ss'[key])
    ensures Inv(cfg, ss')
  {
    SubsetSize(ss'.Keys, admitted.Keys);
    forall k | k in ss'
      ensures SessionInv(cfg, k, ss'[k])
    {
      if k != key {
        assert SessionInv(cfg, k, ss[k]);
      }
    }
  }

  lemma NotZero(r: Reading)
    requires ReadingKey(r).Some?
    ensures r.measuredAt != 0 && r.weightGrams > 0
  {
  }

  /** Every Add keeps the invariant. */
  lemma AddKeepsInvariant(cfg: Config, ss: SessionMap, r: Reading, victim: Key)
    requires cfg.Valid() && Inv(cfg, ss)
    ensures Inv(cfg, AddStep(cfg, ss, r, victim).0)
  {
    if ReadingKey(r).Some? {
      var key := ReadingKey(r).value;
      var admitted := Admit(cfg, ss, key, r.measuredAt, victim);
      AdmittedCanReceive(cfg, ss, r, victim);
      AdmitKeepsBounds(cfg, ss, key, r.measuredAt, victim);
      DeliverKeepsInvariant(cfg, key, admitted[key], r);
      ChangedOne(cfg, ss, admitted, AddStep(cfg, ss, r, victim).0, key);
    }
  }

  lemma ExpirePartitions(cfg: Config, ss: SessionMap, now: Time)
    ensures var (kept, released) := ExpireStep(cfg, ss, now);
            && kept.Keys !! released.Keys && kept.Keys + released.Keys == ss.Keys
            && forall k :: k in kept ==> kept[k] == ss[k]
  {
  }

  /** Every Expire keeps the invariant, and keeps or reports each session. */
  lemma ExpireKeepsInvariant(cfg: Config, ss: SessionMap, now: Time)
    requires cfg.Valid() && Inv(cfg, ss)
    ensures var (kept, released) := ExpireStep(cfg, ss, now);
            Inv(cfg, kept) && kept.Keys !! released.Keys && kept.Keys + released.Keys == ss.Keys
  {
    ExpirePartitions(cfg, ss, now);
    PartKeepsInvariant(cfg, ss, ExpireStep(cfg, ss, now).0);
  }

  lemma PartKeepsInvariant(cfg: Config, ss: SessionMap, ss': SessionMap)
    requires Inv(cfg, ss) && ss'.Keys <= ss.Keys && forall k :: k in ss' ==> ss'[k] == ss[k]
    ensures Inv(cfg, ss')
  {
    SubsetSize(ss'.Keys, ss.Keys);
    forall k | k in ss'
      ensures SessionInv(cfg, k, ss'[k])
    {
      assert SessionInv(cfg, k, ss[k]);
    }
  }
}
