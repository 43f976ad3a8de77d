/** Retry termination: while Redis is healthy and nothing new arrives, repeated Recover
    calls empty the pending entries list, although a batch stops at its first error. */
module Retries {
  import opened Window
  import opened Processing
  import opened Streams

  ghost predicate DistinctIds(ms: seq<Message>) {
    forall i, j :: 0 <= i < j < |ms| ==> ms[i].id != ms[j].id
  }

  /** The pending entries are distinct and the limit is one that Config.validate accepts.
      An entry may have any number of attempts: after errors between the count and the
      move to the dead letters it can be at or over the limit. */
  ghost predicate Recoverable(limit: nat, b: Broker) {
    DistinctIds(b.pending) && limit >= 1
  }

  /** The tries an entry has left; an entry at or over the limit leaves at its next one. */
  function TriesLeft(limit: nat, attempts: nat): (n: nat)
    ensures n >= 1
  {
    if attempts < limit then limit - attempts else 1
  }

  /** The tries left, summed over the pending entries. */
  ghost function Measure(limit: nat, pending: seq<Message>, attempts: map<nat, nat>): (n: nat)
    ensures n >= |pending|
    decreases |pending|
  {
    if pending == [] then 0
    else TriesLeft(limit, AttemptsOf(attempts, pending[0].id)) + Measure(limit, pending[1..], attempts)
  }

  lemma {:induction false} MeasureAtMost(limit: nat, pending: seq<Message>, attempts: map<nat, nat>)
    requires limit >= 1
    ensures Measure(limit, pending, attempts) <= |pending| * limit
    decreases |pending|
  {
    if pending != [] {
      MeasureAtMost(limit, pending[1..], attempts);
      OneMoreProduct(|pending| - 1, limit);
    }
  }

  lemma OneMoreProduct(n: int, limit: int)
    ensures (n + 1) * limit == n * limit + limit
  {
  }

  lemma WithoutIsSubset(pending: seq<Message>, id: nat)
    ensures forall m :: m in Without(pending, id) <==> m in pending && m.id != id
  {
    forall m
      ensures m in Without(pending, id) <==> m in pending && m.id != id
    {
      WithoutElement(pending, id, m);
    }
  }

  lemma {:induction false} WithoutKeepsDistinct(pending: seq<Message>, id: nat)
    requires DistinctIds(pending)
    ensures DistinctIds(Without(pending, id))
    decreases |pending|
  {
    if pending != [] {
      WithoutKeepsDistinct(pending[1..], id);
      WithoutIsSubset(pending[1..], id);
      var rest := Without(pending[1..], id);
      assert Without(pending, id) == (if pending[0].id == id then [] else [pending[0]]) + rest;
      forall j | 0 <= j < |rest|
        ensures rest[j].id != pending[0].id
      {
        assert rest[j] in rest;
      }
    }
  }

  /** More attempts are fewer tries, strictly so for an entry that stays below the limit. */
  lemma {:induction false} FewerTries(limit: nat, pending: seq<Message>, attempts: map<nat, nat>,
                                      attempts': map<nat, nat>, counted: nat)
    requires forall i :: 0 <= i < |pending| ==>
      AttemptsOf(attempts, pending[i].id) <= AttemptsOf(attempts', pending[i].id)
    requires AttemptsOf(attempts, counted) < AttemptsOf(attempts', counted) < limit
    ensures Measure(limit, pending, attempts') <= Measure(limit, pending, attempts)
    ensures (exists m :: m in pending && m.id == counted) ==>
              Measure(limit, pending, attempts') < Measure(limit, pending, attempts)
    decreases |pending|
  {
    if pending != [] {
      FewerTries(limit, pending[1..], attempts, attempts', counted);
      if pending[0].id != counted {
        assert (exists m :: m in pending && m.id == counted) ==> exists m :: m in pending[1..] && m.id == counted;
      }
    }
  }

  lemma {:induction false} FewerEntries(limit: nat, pending: seq<Message>, attempts: map<nat, nat>, id: nat)
    ensures Measure(limit, Without(pending, id), attempts) <= Measure(limit, pending, attempts)
    ensures (exists m :: m in pending && m.id == id) ==>
              Measure(limit, Without(pending, id), attempts) < Measure(limit, pending, attempts)
    decreases |pending|
  {
    if pending != [] {
      FewerEntries(limit, pending[1..], attempts, id);
      var rest := Without(pending[1..], id);
      if pending[0].id == id {
        assert Without(pending, id) == rest;
      } else {
        assert Without(pending, id) == [pending[0]] + rest;
        assert ([pending[0]] + rest)[1..] == rest;
        assert (exists m :: m in pending && m.id == id) ==> exists m :: m in pending[1..] && m.id == id;
      }
    }
  }

  /** Only the entry's own counter differs. */
  lemma {:induction false} OthersCounters(limit: nat, pending: seq<Message>, attempts: map<nat, nat>,
                                          attempts': map<nat, nat>, id: nat)
    requires forall i :: 0 <= i < |pending| ==> pending[i].id != id
    requires forall j :: j != id ==> AttemptsOf(attempts', j) == AttemptsOf(attempts, j)
    ensures Measure(limit, pending, attempts') == Measure(limit, pending, attempts)
    decreases |pending|
  {
    if pending != [] {
      OthersCounters(limit, pending[1..], attempts, attempts', id);
    }
  }

  /** b' is b after handling entry m: fewer tries are left, and on success m is gone and
      everything else pending is as before. */
  ghost predicate Progresses(limit: nat, b: Broker, b': Broker, m: Message, gone: bool) {
    && Recoverable(limit, b')
    && Measure(limit, b'.pending, b'.attempts) < Measure(limit, b.pending, b.attempts)
    && (if gone then b'.pending == Without(b.pending, m.id) else b'.pending == b.pending)
  }

  lemma RemovedProgresses(limit: nat, b: Broker, b': Broker, m: Message)
    requires Recoverable(limit, b) && m in b.pending
    requires b'.pending == Without(b.pending, m.id)
    requires forall j :: j != m.id ==> AttemptsOf(b'.attempts, j) == AttemptsOf(b.attempts, j)
    ensures Progresses(limit, b, b', m, true)
  {
    WithoutKeepsDistinct(b.pending, m.id);
    WithoutIsSubset(b.pending, m.id);
    FewerEntries(limit, b.pending, b.attempts, m.id);
    forall i | 0 <= i < |b'.pending|
      ensures b'.pending[i].id != m.id
    {
      assert b'.pending[i] in b'.pending;
    }
    OthersCounters(limit, b'.pending, b.attempts, b'.attempts, m.id);
  }

  lemma CountedProgresses(limit: nat, b: Broker, m: Message)
    requires Recoverable(limit, b) && m in b.pending && AttemptsOf(b.attempts, m.id) + 1 < limit
    ensures Progresses(limit, b, Incremented(b, m.id), m, false)
  {
    FewerTries(limit, b.pending, b.attempts, Incremented(b, m.id).attempts, m.id);
  }

  /** Whatever the processor answers, handling a pending message on a healthy Redis uses
      up a try or removes the message. */
  lemma MessageProgresses(limit: nat, parse: Parser, b: Broker, k: Counters, m: Message, w: Weather)
    requires Recoverable(limit, b) && m in b.pending && Healthy(w)
    ensures var h := Handle(limit, parse, b, k, m, w); Progresses(limit, b, h.broker, m, h.ok)
  {
    var h := Handle(limit, parse, b, k, m, w);
    var attempts := AttemptsOf(b.attempts, m.id) + 1;
    if h.ok {
      assert h.broker.pending == Without(b.pending, m.id);
      RemovedProgresses(limit, b, h.broker, m);
    } else {
      CountedProgresses(limit, b, m);
    }
  }

  ghost predicate AllHealthy(weather: nat -> Weather) {
    forall id :: Healthy(weather(id))
  }

  /** b' is b after a batch, empty or not: no more tries are left than before. */
  ghost predicate Lowers(limit: nat, b: Broker, b': Broker, empty: bool) {
    && Recoverable(limit, b')
    && Measure(limit, b'.pending, b'.attempts) <= Measure(limit, b.pending, b.attempts)
    && (!empty ==> Measure(limit, b'.pending, b'.attempts) < Measure(limit, b.pending, b.attempts))
    && (empty ==> b' == b)
  }

  lemma {:induction false} BatchProgresses(limit: nat, parse: Parser, b: Broker, k: Counters, ms: seq<Message>,
                                           weather: nat -> Weather)
    requires Recoverable(limit, b) && AllHealthy(weather)
    requires DistinctIds(ms) && forall i :: 0 <= i < |ms| ==> ms[i] in b.pending
    ensures Lowers(limit, b, HandleAll(limit, parse, b, k, ms, weather).broker, ms == [])
    decreases |ms|
  {
    if ms != [] {
      MessageProgresses(limit, parse, b, k, ms[0], weather(ms[0].id));
      var first := Handle(limit, parse, b, k, ms[0], weather(ms[0].id));
      if first.ok {
        WithoutIsSubset(b.pending, ms[0].id);
        BatchProgresses(limit, parse, first.broker, first.counters, ms[1..], weather);
      }
    }
  }

  lemma {:induction false} FromIsSuffix(pending: seq<Message>, start: nat)
    ensures |From(pending, start)| <= |pending|
    ensures From(pending, start) == pending[|pending| - |From(pending, start)|..]
    decreases |pending|
  {
    if pending != [] && pending[0].id < start {
      FromIsSuffix(pending[1..], start);
    }
  }

  lemma {:induction false} ScanIsPart(pending: seq<Message>, count: nat, budget: nat, idle: set<nat>)
    requires DistinctIds(pending)
    ensures var s := Scan(pending, count, budget, idle);
            && DistinctIds(s.batch) && |s.batch| <= count && (forall m :: m in s.batch ==> m in pending)
            && |s.rest| <= |pending| && s.rest == pending[|pending| - |s.rest|..]
    decreases budget
  {
    if pending != [] && count > 0 && budget > 0 {
      var taken := pending[0].id in idle;
      ScanIsPart(pending[1..], if taken then count - 1 else count, budget - 1, idle);
      var rest := Scan(pending[1..], if taken then count - 1 else count, budget - 1, idle);
      forall j | 0 <= j < |rest.batch|
        ensures rest.batch[j].id != pending[0].id
      {
        assert rest.batch[j] in pending[1..];
      }
    }
  }

  lemma ClaimIsPart(b: Broker, start: nat, count: nat, idle: set<nat>)
    requires DistinctIds(b.pending)
    ensures var batch := Claimed(b, start, count, idle).0;
            DistinctIds(batch) && |batch| <= count && forall i :: 0 <= i < |batch| ==> batch[i] in b.pending
  {
    FromIsSuffix(b.pending, start);
    var tail := From(b.pending, start);
    assert DistinctIds(tail);
    ScanIsPart(tail, count, 10 * count, idle);
    var batch := Claimed(b, start, count, idle).0;
    forall i | 0 <= i < |batch|
      ensures batch[i] in b.pending
    {
      assert batch[i] in batch && batch[i] in tail;
    }
  }

  lemma ClaimedProgresses(limit: nat, parse: Parser, b: Broker, k: Counters, batch: seq<Message>,
                          weather: nat -> Weather)
    requires Recoverable(limit, b) && AllHealthy(weather)
    requires DistinctIds(batch) && forall i :: 0 <= i < |batch| ==> batch[i] in b.pending
    ensures Lowers(limit, b, RecoverBatch(limit, parse, b, k, batch, weather).broker, batch == [])
  {
    BatchProgresses(limit, parse, b, k.(reclaimed := k.reclaimed + |batch|), batch, weather);
  }

  /** Every non-empty Recover on a healthy Redis strictly lowers the sum of the tries left. */
  lemma RecoverProgresses(limit: nat, parse: Parser, b: Broker, k: Counters, start: nat, count: nat, idle: set<nat>,
                          weather: nat -> Weather)
    requires Recoverable(limit, b) && AllHealthy(weather)
    ensures var batch := Claimed(b, start, count, idle).0;
            var b' := RecoverBatch(limit, parse, b, k, batch, weather).broker;
            && Recoverable(limit, b')
            && (batch != [] ==> Measure(limit, b'.pending, b'.attempts) < Measure(limit, b.pending, b.attempts))
            && (batch == [] ==> b' == b)
  {
    ClaimIsPart(b, start, count, idle);
    ClaimedProgresses(limit, parse, b, k, Claimed(b, start, count, idle).0, weather);
  }

  /** With every entry idle, a scan claims nothing only past the last entry, and then the
      next one starts over. */
  lemma EmptyOnlyAtTheEnd(b: Broker, start: nat, count: nat, idle: set<nat>)
    requires count >= 1 && forall m :: m in b.pending ==> m.id in idle
    ensures Claimed(b, start, count, idle).0 == [] ==> From(b.pending, start) == [] && Claimed(b, start, count, idle).1 == 0
  {
    FromIsSuffix(b.pending, start);
    var tail := From(b.pending, start);
    if tail != [] {
      assert tail[0] in b.pending;
      assert Scan(tail, count, 10 * count, idle).batch != [];
    }
  }

  /** What a worker's Recover calls see: which entries are idle, and how each message
      fares. */
  datatype Round = Round(idle: set<nat>, weather: nat -> Weather)

  datatype Recovering = Recovering(broker: Broker, claimFrom: nat, counters: Counters)

  ghost function RecoverOnce(limit: nat, parse: Parser, count: nat, s: Recovering, r: Round): Recovering {
    var (batch, next) := Claimed(s.broker, s.claimFrom, count, r.idle);
    var done := RecoverBatch(limit, parse, s.broker, s.counters, batch, r.weather);
    Recovering(done.broker, next, done.counters)
  }

  ghost function RecoverAll(limit: nat, parse: Parser, count: nat, s: Recovering, rounds: seq<Round>): Recovering
    decreases |rounds|
  {
    if rounds == [] then s else RecoverAll(limit, parse, count, RecoverOnce(limit, parse, count, s, rounds[0]), rounds[1..])
  }

  /** Rounds in which Redis is healthy and all pending entries are idle. */
  ghost predicate Calm(ids: set<nat>, rounds: seq<Round>) {
    forall i :: 0 <= i < |rounds| ==> AllHealthy(rounds[i].weather) && ids <= rounds[i].idle
  }

  ghost function Ids(pending: seq<Message>): set<nat> {
    set m | m in pending :: m.id
  }

  ghost function Rank(limit: nat, s: Recovering): nat {
    2 * Measure(limit, s.broker.pending, s.broker.attempts) + if s.claimFrom > 0 then 1 else 0
  }

  lemma RoundLowersRank(limit: nat, parse: Parser, count: nat, s: Recovering, r: Round)
    requires Recoverable(limit, s.broker) && count >= 1 && s.broker.pending != []
    requires AllHealthy(r.weather) && Ids(s.broker.pending) <= r.idle
    ensures Recoverable(limit, RecoverOnce(limit, parse, count, s, r).broker)
    ensures Rank(limit, RecoverOnce(limit, parse, count, s, r)) < Rank(limit, s)
  {
    RecoverProgresses(limit, parse, s.broker, s.counters, s.claimFrom, count, r.idle, r.weather);
    forall m | m in s.broker.pending
      ensures m.id in r.idle
    {
      assert m.id in Ids(s.broker.pending);
    }
    EmptyOnlyAtTheEnd(s.broker, s.claimFrom, count, r.idle);
  }

  lemma HandleOnlyRemoves(limit: nat, parse: Parser, b: Broker, k: Counters, m: Message, w: Weather, x: Message)
    requires x in Handle(limit, parse, b, k, m, w).broker.pending
    ensures x in b.pending
  {
    WithoutElement(b.pending, m.id, x);
    var after := Handle(limit, parse, b, k, m, w).broker.pending;
    assert after == b.pending || after == Without(b.pending, m.id);
  }

  lemma {:induction false} HandleAllOnlyRemoves(limit: nat, parse: Parser, b: Broker, k: Counters, ms: seq<Message>,
                                                weather: nat -> Weather, x: Message)
    requires x in HandleAll(limit, parse, b, k, ms, weather).broker.pending
    ensures x in b.pending
    decreases |ms|
  {
    if ms != [] {
      var first := Handle(limit, parse, b, k, ms[0], weather(ms[0].id));
      if first.ok {
        HandleAllOnlyRemoves(limit, parse, first.broker, first.counters, ms[1..], weather, x);
      }
      HandleOnlyRemoves(limit, parse, b, k, ms[0], weather(ms[0].id), x);
    }
  }

  lemma RecoverOnlyRemoves(limit: nat, parse: Parser, count: nat, s: Recovering, r: Round)
    ensures forall x :: x in RecoverOnce(limit, parse, count, s, r).broker.pending ==> x in s.broker.pending
  {
    var batch := Claimed(s.broker, s.claimFrom, count, r.idle).0;
    forall x | x in RecoverOnce(limit, parse, count, s, r).broker.pending
      ensures x in s.broker.pending
    {
      HandleAllOnlyRemoves(limit, parse, s.broker, s.counters.(reclaimed := s.counters.reclaimed + |batch|), batch,
                           r.weather, x);
    }
  }

  /** The pending entries list empties: if Redis stays healthy and idle times pass, then
      after any 2 * |pending| * limit + 1 calls of Recover nothing is pending, whatever the
      cursor was and whatever the processor answers. */
  lemma {:induction false} Drains(limit: nat, parse: Parser, count: nat, s: Recovering, rounds: seq<Round>)
    requires Recoverable(limit, s.broker) && count >= 1
    requires Calm(Ids(s.broker.pending), rounds)
    requires |rounds| >= Rank(limit, s)
    ensures RecoverAll(limit, parse, count, s, rounds).broker.pending == []
    decreases |rounds|
  {
    if rounds != [] {
      var next := RecoverOnce(limit, parse, count, s, rounds[0]);
      RecoverOnlyRemoves(limit, parse, count, s, rounds[0]);
      assert Calm(Ids(next.broker.pending), rounds[1..]);
      RecoverProgresses(limit, parse, s.broker, s.counters, s.claimFrom, count, rounds[0].idle, rounds[0].weather);
      if s.broker.pending == [] {
        StaysEmpty(limit, parse, count, next, rounds[1..]);
      } else {
        RoundLowersRank(limit, parse, count, s, rounds[0]);
        Drains(limit, parse, count, next, rounds[1..]);
      }
    }
  }

  lemma {:induction false} StaysEmpty(limit: nat, parse: Parser, count: nat, s: Recovering, rounds: seq<Round>)
    requires s.broker.pending == []
    ensures RecoverAll(limit, parse, count, s, rounds).broker.pending == []
    decreases |rounds|
  {
    if rounds != [] {
      var next := RecoverOnce(limit, parse, count, s, rounds[0]);
      RecoverOnlyRemoves(limit, parse, count, s, rounds[0]);
      assert forall x :: x !in next.broker.pending;
      StaysEmpty(limit, parse, count, next, rounds[1..]);
    }
  }

  lemma DrainsWithin(limit: nat, parse: Parser, count: nat, s: Recovering, rounds: seq<Round>)
    requires Recoverable(limit, s.broker) && count >= 1
    requires Calm(Ids(s.broker.pending), rounds)
    requires |rounds| >= 2 * (|s.broker.pending| * limit) + 1
    ensures RecoverAll(limit, parse, count, s, rounds).broker.pending == []
  {
    MeasureAtMost(limit, s.broker.pending, s.broker.attempts);
    Drains(limit, parse, count, s, rounds);
  }

  /** Every pending entry is below the retry limit. */
  ghost predicate BelowLimit(limit: nat, b: Broker) {
    forall m :: m in b.pending ==> AttemptsOf(b.attempts, m.id) < limit
  }

  lemma MessageKeepsBelowLimit(limit: nat, parse: Parser, b: Broker, k: Counters, m: Message, w: Weather)
    requires BelowLimit(limit, b) && Healthy(w)
    ensures BelowLimit(limit, Handle(limit, parse, b, k, m, w).broker)
  {
    var after := Handle(limit, parse, b, k, m, w).broker;
    forall x | x in after.pending
      ensures AttemptsOf(after.attempts, x.id) < limit
    {
      HandleOnlyRemoves(limit, parse, b, k, m, w, x);
      WithoutElement(b.pending, m.id, x);
    }
  }

  /** While Redis is healthy no pending entry reaches the limit: the try that would reach
      it moves the entry to the dead letters. */
  lemma {:induction false} BatchKeepsBelowLimit(limit: nat, parse: Parser, b: Broker, k: Counters, ms: seq<Message>,
                                                weather: nat -> Weather)
    requires BelowLimit(limit, b) && AllHealthy(weather)
    ensures BelowLimit(limit, HandleAll(limit, parse, b, k, ms, weather).broker)
    decreases |ms|
  {
    if ms != [] {
      MessageKeepsBelowLimit(limit, parse, b, k, ms[0], weather(ms[0].id));
      var first := Handle(limit, parse, b, k, ms[0], weather(ms[0].id));
      if first.ok {
        BatchKeepsBelowLimit(limit, parse, first.broker, first.counters, ms[1..], weather);
      }
    }
  }
}
