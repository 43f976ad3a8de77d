/** Several worker processes on one consumer group, command by command, with crashes
    between any two commands and commands whose effect or reply is lost. */
module Delivery {
  import opened Window
  import opened Keys
  import S = Sessions
  import opened Finalizing
  import opened Conservation
  import opened Processing
  import opened Streams
  import T = Transactions
  import E = Effects

  /** The command a consumer runs next for the head of its batch. */
  datatype Pc = Idle | AtExpire(attempts: nat) | AtProcess(attempts: nat) | AtAck | AtDel
              | AtBury(attempts: nat, reason: string)

  /** A worker process: its session state, its pending work and its batch. */
  datatype Consumer = Consumer(sessions: S.SessionMap, pending: map<string, PendingWork>, queue: seq<Message>, pc: Pc)
  {
    /** An error ends the batch. */
    function Stop(): Consumer {
      this.(queue := [], pc := Idle)
    }

    function Next(): Consumer {
      this.(queue := if queue == [] then [] else queue[1..], pc := Idle)
    }
  }

  const RESTARTED := Consumer(map[], map[], [], Idle)

  /** delivered is history: every message ever read by the group. */
  datatype System = System(broker: Broker, delivered: set<Message>, durable: Durable, consumers: map<nat, Consumer>)

  datatype Action =
    | Arrive(m: Message)
    | Start(c: nat)
    | Crash(c: nat)
    | ReadNew(c: nat, count: nat, luck: Luck)
    | Claim(c: nat, batch: seq<Message>)
    | Incr(c: nat, luck: Luck)
    | Expire(c: nat, luck: Luck)
    | Process(c: nat, victim: Key, id: Id, fate: Fate, reason: string)
    | Ack(c: nat, luck: Luck)
    | Del(c: nat, luck: Luck)
    | Bury(c: nat, luck: Luck)
    | CounterExpires(messageID: nat)
    | Others(op: T.Op)

  ghost predicate Fresh(s: System, m: Message) {
    (forall x :: x in s.broker.undelivered ==> x.id != m.id) && (forall x :: x in s.delivered ==> x.id != m.id)
  }

  /** The consumer after the processor answered for an event. */
  function AfterProcess(x: Consumer, attempts: nat, limit: nat, sessions: S.SessionMap, pending: map<string,
                        PendingWork>,
                        result: ProcessResult, reason: string): Consumer
  {
    var y := x.(sessions := sessions, pending := pending);
    match result
    case Processed => y.(pc := AtAck)
    case Permanent => y.(pc := AtBury(attempts, reason))
    case Transient =>
      if attempts >= limit then y.(pc := AtBury(attempts, "retry limit exhausted: " + reason)) else y.Stop()
  }

  ghost function WithConsumer(s: System, c: nat, x: Consumer): System {
    s.(consumers := s.consumers[c := x])
  }

  /** The effect of a Redis command that may not have reached Redis. */
  function Effect(b: Broker, b': Broker, luck: Luck): Broker {
    if luck.Broken? then b else b'
  }

  /** The event a consumer is about to process. */
  function EventAt(parse: Parser, s: System, c: nat): Option<Event> {
    if c in s.consumers && s.consumers[c].pc.AtProcess? && s.consumers[c].queue != [] then
      var p := parse(s.consumers[c].queue[0]);
      if p.WellFormed? then Some(p.event) else None
    else None
  }

  /** One command, given what Add answers if the processor calls it. */
  ghost function DoWith(cat: Catalog, limit: nat, parse: Parser, s: System, a: Action, sessions: S.SessionMap,
                        reply: S.Reply)
    : System
    requires cat.Valid()
  {
    match a
    case Arrive(m) =>
      if Fresh(s, m) then s.(broker := s.broker.(undelivered := s.broker.undelivered + [m])) else s
    case Start(c) => if c in s.consumers then s else WithConsumer(s, c, RESTARTED)
    case Crash(c) => if c in s.consumers then WithConsumer(s, c, RESTARTED) else s
    case ReadNew(c, count, luck) =>
      if c !in s.consumers || !s.consumers[c].pc.Idle? || s.consumers[c].queue != [] || luck.Broken? then s
      else
        var batch := Batch(s.broker, count);
        System(Read(s.broker, count), s.delivered + (set m | m in batch), s.durable,
               s.consumers[c := s.consumers[c].(queue := if luck.Fine? then batch else [])])
    case Claim(c, batch) =>
      if c in s.consumers && s.consumers[c].pc.Idle? && s.consumers[c].queue == []
         && (forall m :: m in batch ==> m in s.broker.pending)
      then WithConsumer(s, c, s.consumers[c].(queue := batch))
      else s
    case Incr(c, luck) =>
      if c !in s.consumers || !s.consumers[c].pc.Idle? || s.consumers[c].queue == [] then s
      else
        var x := s.consumers[c];
        var b := Incremented(s.broker, x.queue[0].id);
        WithConsumer(s.(broker := Effect(s.broker, b, luck)), c,
                     if luck.Fine? then x.(pc := AtExpire(b.attempts[x.queue[0].id])) else x.Stop())
    case Expire(c, luck) =>
      if c !in s.consumers || !s.consumers[c].pc.AtExpire? then s
      else
        var x := s.consumers[c];
        WithConsumer(s, c, if luck.Fine? then x.(pc := AtProcess(x.pc.attempts)) else x.Stop())
    case Process(c, victim, id, fate, reason) =>
      if c !in s.consumers || !s.consumers[c].pc.AtProcess? || s.consumers[c].queue == [] then s
      else
        var x := s.consumers[c];
        var p := parse(x.queue[0]);
        if p.Malformed? then WithConsumer(s, c, x.(pc := AtBury(x.pc.attempts, p.reason)))
        else
          var (w, trace) := ProcessAfter(cat, World(x.sessions, x.pending, s.durable), Call(p.event, victim, id, fate),
                                         sessions, reply);
          WithConsumer(s.(durable := w.durable), c,
                       AfterProcess(x, x.pc.attempts, limit, w.sessions, w.pending, trace.result, reason))
    case Ack(c, luck) =>
      if c !in s.consumers || !s.consumers[c].pc.AtAck? || s.consumers[c].queue == [] then s
      else
        var x := s.consumers[c];
        WithConsumer(s.(broker := Effect(s.broker, Acked(s.broker, x.queue[0].id), luck)), c,
                     if luck.Fine? then x.(pc := AtDel) else x.Stop())
    case Del(c, luck) =>
      if c !in s.consumers || !s.consumers[c].pc.AtDel? || s.consumers[c].queue == [] then s
      else
        var x := s.consumers[c];
        WithConsumer(s.(broker := Effect(s.broker, Deleted(s.broker, x.queue[0].id), luck)), c,
                     if luck.Fine? then x.Next() else x.Stop())
    case Bury(c, luck) =>
      if c !in s.consumers || !s.consumers[c].pc.AtBury? || s.consumers[c].queue == [] then s
      else
        var x := s.consumers[c];
        WithConsumer(s.(broker := Effect(s.broker, Buried(s.broker, x.queue[0], x.pc.attempts, x.pc.reason), luck)), c,
                     if luck.Fine? then x.Next() else x.Stop())
    case CounterExpires(messageID) => s.(broker := Deleted(s.broker, messageID))
    case Others(op) => s.(durable := s.durable.(ledger := T.Apply(cat, s.durable.ledger, op)))
  }

  ghost predicate AllRunnable(cfg: Config, cat: Catalog, s: System) {
    cfg.Valid() && cat.Valid() && forall c :: c in s.consumers ==> S.Inv(cfg, s.consumers[c].sessions)
  }

  /** What Add answers to the reading a consumer is about to process. */
  ghost function AddAt(cfg: Config, cat: Catalog, parse: Parser, s: System, a: Action): (S.SessionMap, S.Reply)
    requires AllRunnable(cfg, cat, s)
  {
    if a.Process? && EventAt(parse, s, a.c).Some? then
      S.AddStep(cfg, s.consumers[a.c].sessions, ReadingOf(EventAt(parse, s, a.c).value), a.victim)
    else (map[], S.InvalidReading)
  }

  /** One command of the system; a command that is not enabled changes nothing. */
  ghost function Do(cfg: Config, cat: Catalog, limit: nat, parse: Parser, s: System, a: Action): System
    requires AllRunnable(cfg, cat, s)
  {
    var (sessions, reply) := AddAt(cfg, cat, parse, s, a);
    DoWith(cat, limit, parse, s, a, sessions, reply)
  }

  /** The message is in the dead-letter stream with its original fields. */
  ghost predicate InDlq(dlq: seq<DeadLetter>, m: Message) {
    exists i :: 0 <= i < |dlq| && dlq[i].messageID == m.id && dlq[i].fields == m.fields
  }

  /** A delivered message with this event id has a key with this session id. */
  ghost predicate IsSessionOf(parse: Parser, delivered: set<Message>, eventID: string, sessionID: string) {
    exists m :: m in delivered && KeyedAs(parse(m), eventID, sessionID)
  }

  predicate KeyedAs(p: Parsed, eventID: string, sessionID: string) {
    && p.WellFormed? && p.event.eventID == eventID
    && var k := ReadingKey(ReadingOf(p.event)); k.Some? && SessionID(k.value) == sessionID
  }

  /** The event's ledger row, a weighing of the event, or a final weighing of its session. */
  ghost predicate Recorded(parse: Parser, delivered: set<Message>, d: Durable, eventID: string) {
    || eventID in d.processed
    || exists i :: 0 <= i < |d.ledger.weighings| && WeighsEvent(parse, delivered, d.ledger.weighings[i], eventID)
  }

  ghost predicate WeighsEvent(parse: Parser, delivered: set<Message>, w: Weighing, eventID: string) {
    w.eventID == eventID || (w.stage == FINAL_STAGE && IsSessionOf(parse, delivered, eventID, w.sessionID))
  }

  ghost predicate Evidence(parse: Parser, delivered: set<Message>, d: Durable, m: Message) {
    parse(m).WellFormed? && Recorded(parse, delivered, d, parse(m).event.eventID)
  }

  /** Still pending, dead-lettered, or durably recorded. */
  ghost predicate Accounted(parse: Parser, s: System, m: Message) {
    m in s.broker.pending || InDlq(s.broker.dlq, m) || Evidence(parse, s.delivered, s.durable, m)
  }

  /** Pending work is about the event it is filed under. */
  ghost predicate WorkFits(parse: Parser, delivered: set<Message>, e: string, work: PendingWork) {
    && work.event.eventID == e
    && (work.input.Some? ==>
          && work.input.value.eventID == e && work.input.value.stage == FINAL_STAGE
          && IsSessionOf(parse, delivered, e, work.input.value.sessionID))
  }

  ghost predicate ConsumerSafe(parse: Parser, delivered: set<Message>, d: Durable, x: Consumer) {
    && (forall m :: m in x.queue ==> m in delivered)
    && (forall e :: e in x.pending ==> WorkFits(parse, delivered, e, x.pending[e]))
    && (x.pc in {AtAck, AtDel} && x.queue != [] ==> Evidence(parse, delivered, d, x.queue[0]))
  }

  ghost predicate ConsumersSafe(parse: Parser, s: System) {
    forall c :: c in s.consumers ==> ConsumerSafe(parse, s.delivered, s.durable, s.consumers[c])
  }

  /** Stream ids identify messages. */
  ghost predicate IdsUnique(s: System) {
    && (forall m, n | m in s.delivered && n in s.delivered && m.id == n.id :: m == n)
    && (forall m, i | m in s.delivered && 0 <= i < |s.broker.undelivered| :: m.id != s.broker.undelivered[i].id)
    && (forall i, j | 0 <= i < j < |s.broker.undelivered| :: s.broker.undelivered[i].id != s.broker.undelivered[j].id)
  }

  ghost predicate Safe(parse: Parser, s: System) {
    && IdsUnique(s)
    && (forall m :: m in s.broker.pending ==> m in s.delivered)
    && (forall m :: m in s.delivered ==> Accounted(parse, s, m))
    && ConsumersSafe(parse, s)
  }

  /** d' has every record of d. */
  ghost predicate Keeps(d: Durable, d': Durable) {
    d.processed.Keys <= d'.processed.Keys && d.ledger.weighings <= d'.ledger.weighings
  }

  lemma SessionsGrow(parse: Parser, delivered: set<Message>, delivered': set<Message>, e: string, sessionID: string)
    requires IsSessionOf(parse, delivered, e, sessionID) && delivered <= delivered'
    ensures IsSessionOf(parse, delivered', e, sessionID)
  {
    var m :| m in delivered && KeyedAs(parse(m), e, sessionID);
    assert m in delivered';
  }

  lemma EvidenceGrows(parse: Parser, delivered: set<Message>, delivered': set<Message>, d: Durable, d': Durable,
                      m: Message)
    requires Evidence(parse, delivered, d, m) && Keeps(d, d') && delivered <= delivered'
    ensures Evidence(parse, delivered', d', m)
  {
    var e := parse(m).event.eventID;
    if e !in d.processed {
      var i :| 0 <= i < |d.ledger.weighings| && WeighsEvent(parse, delivered, d.ledger.weighings[i], e);
      var w := d.ledger.weighings[i];
      assert d'.ledger.weighings[i] == w;
      if w.eventID != e {
        SessionsGrow(parse, delivered, delivered', e, w.sessionID);
      }
      assert WeighsEvent(parse, delivered', d'.ledger.weighings[i], e);
    }
  }

  lemma ConsumerStaysSafe(parse: Parser, delivered: set<Message>, delivered': set<Message>, d: Durable, d': Durable,
                          x: Consumer)
    requires ConsumerSafe(parse, delivered, d, x) && Keeps(d, d') && delivered <= delivered'
    ensures ConsumerSafe(parse, delivered', d', x)
  {
    forall e | e in x.pending
      ensures WorkFits(parse, delivered', e, x.pending[e])
    {
      assert WorkFits(parse, delivered, e, x.pending[e]);
      if x.pending[e].input.Some? {
        SessionsGrow(parse, delivered, delivered', e, x.pending[e].input.value.sessionID);
      }
    }
    if x.pc in {AtAck, AtDel} && x.queue != [] {
      EvidenceGrows(parse, delivered, delivered', d, d', x.queue[0]);
    }
  }

  /** Finalize's success is a committed weighing of the event or of its session. */
  lemma SuccessIsRecorded(cat: Catalog, db: Database, input: Input, id: Id)
    requires cat.Valid() && Finalize(cat, db, input, id).1.Success?
    ensures var (db', out) := Finalize(cat, db, input, id); out.weighing in db'.weighings && IsFor(out.weighing, input)
  {
    var (db', out) := Finalize(cat, db, input, id);
    SuccessFoundOrRecorded(cat, db, input, id);
    if !(db' == db && FindExisting(db, input) == Some(out.weighing)) {
      assert db'.weighings[|db.weighings|] == out.weighing;
    }
  }

  /** Work that was settled as processed has left its record. */
  lemma ProcessedIsRecorded(cat: Catalog, parse: Parser, delivered: set<Message>, d: Durable, e: string,
                            work: PendingWork,
                            id: Id, fate: Fate)
    requires cat.Valid() && WorkFits(parse, delivered, e, work)
    requires Settle(cat, d, work, id, fate).1 == Processed
    ensures Recorded(parse, delivered, Settle(cat, d, work, id, fate).0, e)
  {
    var d' := Settle(cat, d, work, id, fate).0;
    if work.input.Some? {
      SuccessIsRecorded(cat, d.ledger, work.input.value, id);
      var w := Finalize(cat, d.ledger, work.input.value, id).1.weighing;
      var i :| 0 <= i < |d'.ledger.weighings| && d'.ledger.weighings[i] == w;
      assert WeighsEvent(parse, delivered, d'.ledger.weighings[i], e);
    }
  }

  ghost predicate Answers(e: Event, reply: S.Reply) {
    reply.Done? ==> ReadingKey(ReadingOf(e)) == Some(reply.result.key)
  }

  lemma SettleKeeps(cat: Catalog, d: Durable, work: PendingWork, id: Id, fate: Fate)
    requires cat.Valid()
    ensures Keeps(d, Settle(cat, d, work, id, fate).0)
  {
    E.SettleAppends(cat, d, work, id, fate);
  }

  lemma NewWorkFits(parse: Parser, delivered: set<Message>, m: Message, reply: S.Reply)
    requires m in delivered && parse(m).WellFormed? && Answers(parse(m).event, reply)
    ensures var work := WorkOf(parse(m).event, reply);
            work.Some? ==> WorkFits(parse, delivered, parse(m).event.eventID, work.value)
  {
    var work := WorkOf(parse(m).event, reply);
    if work.Some? && work.value.input.Some? {
      assert KeyedAs(parse(m), parse(m).event.eventID, work.value.input.value.sessionID);
    }
  }

  /** One call of the processor keeps the pending work about its events, keeps every
      record, and leaves a record of the event if it reports success. */
  lemma ProcessIsSafe(cat: Catalog, parse: Parser, delivered: set<Message>, w: World, m: Message, c: Call,
                      sessions: S.SessionMap, reply: S.Reply)
    requires cat.Valid() && m in delivered && parse(m) == WellFormed(c.event) && Answers(c.event, reply)
    requires forall e :: e in w.pending ==> WorkFits(parse, delivered, e, w.pending[e])
    ensures var (w', trace) := ProcessAfter(cat, w, c, sessions, reply);
            && (forall e :: e in w'.pending ==> WorkFits(parse, delivered, e, w'.pending[e]))
            && Keeps(w.durable, w'.durable)
            && (trace.result == Processed ==> Evidence(parse, delivered, w'.durable, m))
  {
    var (w', trace) := ProcessAfter(cat, w, c, sessions, reply);
    var work := E.Settled(w, c, reply);
    NewWorkFits(parse, delivered, m, reply);
    E.DurableAfter(cat, w, c, sessions, reply);
    PendingIsOldOrSettled(cat, w, c, sessions, reply);
    if work.Some? {
      SettleKeeps(cat, w.durable, work.value, c.id, c.fate);
      if trace.result == Processed {
        ProcessedIsRecorded(cat, parse, delivered, w.durable, c.event.eventID, work.value, c.id, c.fate);
      }
    }
  }

  lemma PendingIsOldOrSettled(cat: Catalog, w: World, c: Call, sessions: S.SessionMap, reply: S.Reply)
    requires cat.Valid()
    ensures var w' := ProcessAfter(cat, w, c, sessions, reply).0;
            forall e :: e in w'.pending ==>
              || (e in w.pending && w'.pending[e] == w.pending[e])
              || (e == c.event.eventID && E.Settled(w, c, reply) == Some(w'.pending[e]))
  {
  }

  /** A step that keeps pending entries, dead letters and records accounts for all. */
  lemma StaysAccounted(parse: Parser, s: System, s': System, m: Message)
    requires Accounted(parse, s, m) && Keeps(s.durable, s'.durable) && s.delivered <= s'.delivered
    requires s.broker.dlq <= s'.broker.dlq
    requires m in s.broker.pending ==> Accounted(parse, s', m)
    ensures Accounted(parse, s', m)
  {
    if m in s.broker.pending {
    } else if InDlq(s.broker.dlq, m) {
      var i :| 0 <= i < |s.broker.dlq| && s.broker.dlq[i].messageID == m.id && s.broker.dlq[i].fields == m.fields;
      assert s'.broker.dlq[i] == s.broker.dlq[i];
    } else {
      EvidenceGrows(parse, s.delivered, s'.delivered, s.durable, s'.durable, m);
    }
  }

  /** Only the consumers, the records and the retry counters change. */
  lemma ConsumerStepIsSafe(parse: Parser, s: System, s': System, c: nat)
    requires Safe(parse, s) && Keeps(s.durable, s'.durable) && s'.delivered == s.delivered
    requires s'.broker.undelivered == s.broker.undelivered && s'.broker.pending == s.broker.pending
    requires s'.broker.dlq == s.broker.dlq
    requires s'.consumers.Keys <= s.consumers.Keys + {c}
    requires forall o :: o in s'.consumers && o != c ==> s'.consumers[o] == s.consumers[o]
    requires c in s'.consumers ==> ConsumerSafe(parse, s'.delivered, s'.durable, s'.consumers[c])
    ensures Safe(parse, s')
  {
    forall m | m in s'.delivered
      ensures Accounted(parse, s', m)
    {
      StaysAccounted(parse, s, s', m);
    }
    forall o | o in s'.consumers
      ensures ConsumerSafe(parse, s'.delivered, s'.durable, s'.consumers[o])
    {
      if o != c {
        ConsumerStaysSafe(parse, s.delivered, s'.delivered, s.durable, s'.durable, s.consumers[o]);
      }
    }
  }

  /** The head of a consumer's batch leaves the pending list, accounted for. */
  lemma RemovalIsSafe(parse: Parser, s: System, s': System, c: nat, x: Message)
    requires Safe(parse, s) && s'.durable == s.durable && s'.delivered == s.delivered && x in s.delivered
    requires s'.broker.undelivered == s.broker.undelivered && s'.broker.pending == Without(s.broker.pending, x.id)
    requires s.broker.dlq <= s'.broker.dlq && (InDlq(s'.broker.dlq, x) || Evidence(parse, s.delivered, s.durable, x))
    requires s'.consumers.Keys <= s.consumers.Keys + {c}
    requires forall o :: o in s'.consumers && o != c ==> s'.consumers[o] == s.consumers[o]
    requires c in s'.consumers ==> ConsumerSafe(parse, s'.delivered, s'.durable, s'.consumers[c])
    ensures Safe(parse, s')
  {
    forall m | m in s'.broker.pending
      ensures m in s'.delivered
    {
      WithoutElement(s.broker.pending, x.id, m);
    }
    forall m | m in s'.delivered
      ensures Accounted(parse, s', m)
    {
      WithoutElement(s.broker.pending, x.id, m);
      if m.id == x.id {
        assert m == x;
      }
      StaysAccounted(parse, s, s', m);
    }
  }

  lemma ArriveIsSafe(parse: Parser, s: System, m: Message)
    requires Safe(parse, s) && Fresh(s, m)
    ensures Safe(parse, s.(broker := s.broker.(undelivered := s.broker.undelivered + [m])))
  {
    var s' := s.(broker := s.broker.(undelivered := s.broker.undelivered + [m]));
    var queue := s.broker.undelivered;
    assert forall i :: 0 <= i < |queue| ==> queue[i] in queue && s'.broker.undelivered[i] == queue[i];
    forall x | x in s'.delivered
      ensures Accounted(parse, s', x)
    {
      StaysAccounted(parse, s, s', x);
    }
  }

  /** Reading moves entries from undelivered to pending and delivered. */
  lemma ReadIsSafe(parse: Parser, s: System, c: nat, count: nat, queue: seq<Message>)
    requires Safe(parse, s) && c in s.consumers && s.consumers[c].pc.Idle?
    requires queue == Batch(s.broker, count) || queue == []
    ensures Safe(parse, System(Read(s.broker, count), s.delivered + (set m | m in Batch(s.broker, count)), s.durable,
                               s.consumers[c := s.consumers[c].(queue := queue)]))
  {
    var batch := Batch(s.broker, count);
    var rest := Read(s.broker, count).undelivered;
    var all := s.broker.undelivered;
    var s' := System(Read(s.broker, count), s.delivered + (set m | m in batch), s.durable,
                     s.consumers[c := s.consumers[c].(queue := queue)]);
    assert all == batch + rest;
    ReadKeepsIds(s, s', batch, rest);
    forall m | m in s'.delivered
      ensures Accounted(parse, s', m)
    {
      if m in s.delivered {
        StaysAccounted(parse, s, s', m);
      }
    }
    forall o | o in s'.consumers
      ensures ConsumerSafe(parse, s'.delivered, s'.durable, s'.consumers[o])
    {
      ConsumerStaysSafe(parse, s.delivered, s'.delivered, s.durable, s'.durable, s.consumers[o]);
    }
  }

  lemma ReadKeepsIds(s: System, s': System, batch: seq<Message>, rest: seq<Message>)
    requires IdsUnique(s) && s.broker.undelivered == batch + rest
    requires s'.broker.undelivered == rest && s'.delivered == s.delivered + (set m | m in batch)
    ensures IdsUnique(s')
  {
    var all := s.broker.undelivered;
    assert forall i :: 0 <= i < |batch| ==> all[i] == batch[i];
    assert forall i :: 0 <= i < |rest| ==> all[|batch| + i] == rest[i];
    forall m | m in batch
      ensures exists i :: 0 <= i < |batch| && all[i] == m
    {
      var i :| 0 <= i < |batch| && batch[i] == m;
      assert all[i] == m;
    }
    forall m, n | m in s'.delivered && n in s'.delivered && m.id == n.id
      ensures m == n
    {
      if m in batch && n in batch {
        var i :| 0 <= i < |batch| && all[i] == m;
        var j :| 0 <= j < |batch| && all[j] == n;
        assert i == j;
      }
    }
    forall m, i | m in s'.delivered && 0 <= i < |rest|
      ensures m.id != rest[i].id
    {
      if m in batch {
        var j :| 0 <= j < |batch| && all[j] == m;
        assert all[j].id != all[|batch| + i].id;
      } else {
        assert m in s.delivered && all[|batch| + i] == rest[i];
      }
    }
    forall i, j | 0 <= i < j < |rest|
      ensures rest[i].id != rest[j].id
    {
      assert all[|batch| + i].id != all[|batch| + j].id;
    }
  }

  lemma HeadIsDelivered(parse: Parser, s: System, c: nat)
    requires Safe(parse, s) && c in s.consumers && s.consumers[c].queue != []
    ensures s.consumers[c].queue[0] in s.delivered
  {
    assert ConsumerSafe(parse, s.delivered, s.durable, s.consumers[c]);
    assert s.consumers[c].queue[0] in s.consumers[c].queue;
  }

  /** Shortening the batch, or moving on without an acknowledgement, is safe. */
  lemma ShorterIsSafe(parse: Parser, delivered: set<Message>, d: Durable, x: Consumer, y: Consumer)
    requires ConsumerSafe(parse, delivered, d, x) && y.pending == x.pending
    requires forall m :: m in y.queue ==> m in delivered
    requires y.pc in {AtAck, AtDel} && y.queue != [] ==> Evidence(parse, delivered, d, y.queue[0])
    ensures ConsumerSafe(parse, delivered, d, y)
  {
  }

  lemma ConsumerOnlyIsSafe(parse: Parser, s: System, b: Broker, c: nat, y: Consumer)
    requires Safe(parse, s) && c in s.consumers && y.pending == s.consumers[c].pending
    requires b.undelivered == s.broker.undelivered && b.pending == s.broker.pending && b.dlq == s.broker.dlq
    requires forall m :: m in y.queue ==> m in s.delivered
    requires y.pc in {AtAck, AtDel} && y.queue != [] ==> Evidence(parse, s.delivered, s.durable, y.queue[0])
    ensures Safe(parse, WithConsumer(s.(broker := b), c, y))
  {
    ShorterIsSafe(parse, s.delivered, s.durable, s.consumers[c], y);
    ConsumerStepIsSafe(parse, s, WithConsumer(s.(broker := b), c, y), c);
  }

  lemma AfterProcessIsSafe(parse: Parser, delivered: set<Message>, d: Durable, x: Consumer, limit: nat, w: World,
                           result: ProcessResult, reason: string)
    requires x.pc.AtProcess? && x.queue != [] && forall m :: m in x.queue ==> m in delivered
    requires forall e :: e in w.pending ==> WorkFits(parse, delivered, e, w.pending[e])
    requires result == Processed ==> Evidence(parse, delivered, d, x.queue[0])
    ensures ConsumerSafe(parse, delivered, d, AfterProcess(x, x.pc.attempts, limit, w.sessions, w.pending, result, reason))
  {
  }

  lemma ProcessStepIsSafe(cat: Catalog, limit: nat, parse: Parser, s: System, a: Action, sessions: S.SessionMap,
                          reply: S.Reply)
    requires cat.Valid() && Safe(parse, s) && a.Process?
    requires EventAt(parse, s, a.c).Some? ==> Answers(EventAt(parse, s, a.c).value, reply)
    ensures Safe(parse, DoWith(cat, limit, parse, s, a, sessions, reply))
  {
    var c := a.c;
    if c in s.consumers && s.consumers[c].pc.AtProcess? && s.consumers[c].queue != [] {
      var x := s.consumers[c];
      HeadIsDelivered(parse, s, c);
      assert ConsumerSafe(parse, s.delivered, s.durable, x);
      var p := parse(x.queue[0]);
      if p.Malformed? {
        ConsumerOnlyIsSafe(parse, s, s.broker, c, x.(pc := AtBury(x.pc.attempts, p.reason)));
      } else {
        var call := Call(p.event, a.victim, a.id, a.fate);
        var w := World(x.sessions, x.pending, s.durable);
        ProcessIsSafe(cat, parse, s.delivered, w, x.queue[0], call, sessions, reply);
        var (w', trace) := ProcessAfter(cat, w, call, sessions, reply);
        var y := AfterProcess(x, x.pc.attempts, limit, w'.sessions, w'.pending, trace.result, a.reason);
        AfterProcessIsSafe(parse, s.delivered, w'.durable, x, limit, w', trace.result, a.reason);
        ConsumerStepIsSafe(parse, s, WithConsumer(s.(durable := w'.durable), c, y), c);
      }
    }
  }

  lemma AckIsSafe(cat: Catalog, limit: nat, parse: Parser, s: System, a: Action, sessions: S.SessionMap, reply: S.Reply)
    requires cat.Valid() && Safe(parse, s) && a.Ack?
    ensures Safe(parse, DoWith(cat, limit, parse, s, a, sessions, reply))
  {
    var c := a.c;
    if c in s.consumers && s.consumers[c].pc.AtAck? && s.consumers[c].queue != [] {
      var x := s.consumers[c];
      var y := if a.luck.Fine? then x.(pc := AtDel) else x.Stop();
      HeadIsDelivered(parse, s, c);
      assert ConsumerSafe(parse, s.delivered, s.durable, x);
      ShorterIsSafe(parse, s.delivered, s.durable, x, y);
      if a.luck.Broken? {
        ConsumerOnlyIsSafe(parse, s, s.broker, c, y);
      } else {
        RemovalIsSafe(parse, s, WithConsumer(s.(broker := Acked(s.broker, x.queue[0].id)), c, y), c, x.queue[0]);
      }
    }
  }

  lemma BuryIsSafe(cat: Catalog, limit: nat, parse: Parser, s: System, a: Action, sessions: S.SessionMap,
                   reply: S.Reply)
    requires cat.Valid() && Safe(parse, s) && a.Bury?
    ensures Safe(parse, DoWith(cat, limit, parse, s, a, sessions, reply))
  {
    var c := a.c;
    if c in s.consumers && s.consumers[c].pc.AtBury? && s.consumers[c].queue != [] {
      var x := s.consumers[c];
      var y := if a.luck.Fine? then x.Next() else x.Stop();
      HeadIsDelivered(parse, s, c);
      assert ConsumerSafe(parse, s.delivered, s.durable, x);
      ShorterIsSafe(parse, s.delivered, s.durable, x, y);
      BuryDoes(cat, limit, parse, s, c, a.luck, sessions, reply);
      if a.luck.Broken? {
        ConsumerOnlyIsSafe(parse, s, s.broker, c, y);
      } else {
        var b := Buried(s.broker, x.queue[0], x.pc.attempts, x.pc.reason);
        assert b.dlq[|s.broker.dlq|].fields == x.queue[0].fields;
        RemovalIsSafe(parse, s, WithConsumer(s.(broker := b), c, y), c, x.queue[0]);
      }
    }
  }

  lemma BuryDoes(cat: Catalog, limit: nat, parse: Parser, s: System, c: nat, luck: Luck, sessions: S.SessionMap,
                 reply: S.Reply)
    requires cat.Valid() && c in s.consumers && s.consumers[c].pc.AtBury? && s.consumers[c].queue != []
    ensures var x := s.consumers[c];
            DoWith(cat, limit, parse, s, Bury(c, luck), sessions, reply)
            == WithConsumer(s.(broker := Effect(s.broker, Buried(s.broker, x.queue[0], x.pc.attempts, x.pc.reason), luck)), c,
                            if luck.Fine? then x.Next() else x.Stop())
  {
  }

  /** Steps that touch only the retry counters and the consumer's place in its batch. */
  lemma CounterStepIsSafe(cat: Catalog, limit: nat, parse: Parser, s: System, a: Action, sessions: S.SessionMap,
                          reply: S.Reply)
    requires cat.Valid() && Safe(parse, s) && (a.Incr? || a.Expire? || a.Del? || a.Claim?)
    ensures Safe(parse, DoWith(cat, limit, parse, s, a, sessions, reply))
  {
    var c := a.c;
    if c in s.consumers {
      var x := s.consumers[c];
      assert ConsumerSafe(parse, s.delivered, s.durable, x);
      var s' := DoWith(cat, limit, parse, s, a, sessions, reply);
      if s' != s {
        ConsumerOnlyIsSafe(parse, s, s'.broker, c, s'.consumers[c]);
      }
    }
  }

  lemma OthersIsSafe(cat: Catalog, parse: Parser, s: System, op: T.Op)
    requires cat.Valid() && Safe(parse, s)
    ensures Safe(parse, s.(durable := s.durable.(ledger := T.Apply(cat, s.durable.ledger, op))))
  {
    var s' := s.(durable := s.durable.(ledger := T.Apply(cat, s.durable.ledger, op)));
    if op.DidFinalize? {
      E.FinalizeAppends(cat, s.durable.ledger, op.input, op.id);
    }
    assert Keeps(s.durable, s'.durable);
    forall m | m in s'.delivered
      ensures Accounted(parse, s', m)
    {
      StaysAccounted(parse, s, s', m);
    }
    forall o | o in s'.consumers
      ensures ConsumerSafe(parse, s'.delivered, s'.durable, s'.consumers[o])
    {
      ConsumerStaysSafe(parse, s.delivered, s'.delivered, s.durable, s'.durable, s.consumers[o]);
    }
  }

  lemma StepIsSafe(cat: Catalog, limit: nat, parse: Parser, s: System, a: Action, sessions: S.SessionMap,
                   reply: S.Reply)
    requires cat.Valid() && Safe(parse, s)
    requires a.Process? && EventAt(parse, s, a.c).Some? ==> Answers(EventAt(parse, s, a.c).value, reply)
    ensures Safe(parse, DoWith(cat, limit, parse, s, a, sessions, reply))
  {
    match a
    case Arrive(m) =>
      if Fresh(s, m) {
        ArriveIsSafe(parse, s, m);
      }
    case Start(c) => ConsumerStepIsSafe(parse, s, DoWith(cat, limit, parse, s, a, sessions, reply), c);
    case Crash(c) => ConsumerStepIsSafe(parse, s, DoWith(cat, limit, parse, s, a, sessions, reply), c);
    case ReadNew(c, count, luck) =>
      if c in s.consumers && s.consumers[c].pc.Idle? && s.consumers[c].queue == [] && !luck.Broken? {
        ReadIsSafe(parse, s, c, count, if luck.Fine? then Batch(s.broker, count) else []);
      }
    case Process(_, _, _, _, _) => ProcessStepIsSafe(cat, limit, parse, s, a, sessions, reply);
    case Ack(_, _) => AckIsSafe(cat, limit, parse, s, a, sessions, reply);
    case Bury(_, _) => BuryIsSafe(cat, limit, parse, s, a, sessions, reply);
    case CounterExpires(messageID) => CounterExpiryIsSafe(parse, s, messageID);
    case Others(op) => OthersIsSafe(cat, parse, s, op);
    case _ => CounterStepIsSafe(cat, limit, parse, s, a, sessions, reply);
  }

  lemma CounterExpiryIsSafe(parse: Parser, s: System, messageID: nat)
    requires Safe(parse, s)
    ensures Safe(parse, s.(broker := Deleted(s.broker, messageID)))
  {
    var s' := s.(broker := Deleted(s.broker, messageID));
    forall m | m in s'.delivered
      ensures Accounted(parse, s', m)
    {
      StaysAccounted(parse, s, s', m);
    }
  }

  /** Only Process calls Add, on its consumer's own sessions. */
  lemma StepIsRunnable(cfg: Config, cat: Catalog, limit: nat, parse: Parser, s: System, a: Action)
    requires AllRunnable(cfg, cat, s)
    ensures AllRunnable(cfg, cat, Do(cfg, cat, limit, parse, s, a))
  {
    var (sessions, reply) := AddAt(cfg, cat, parse, s, a);
    if a.Process? && EventAt(parse, s, a.c).Some? {
      var e := EventAt(parse, s, a.c).value;
      S.AddKeepsInvariant(cfg, s.consumers[a.c].sessions, ReadingOf(e), a.victim);
    }
    SessionsChange(cat, limit, parse, s, a, sessions, reply);
    assert S.Inv(cfg, map[]);
    var s' := DoWith(cat, limit, parse, s, a, sessions, reply);
    forall c | c in s'.consumers
      ensures S.Inv(cfg, s'.consumers[c].sessions)
    {
      assert SessionsFrom(parse, s, s', a, sessions, c);
    }
  }

  /** Where the sessions of consumer c come from after a step. */
  ghost predicate SessionsFrom(parse: Parser, s: System, s': System, a: Action, sessions: S.SessionMap, c: nat)
    requires c in s'.consumers
  {
    || s'.consumers[c].sessions == map[]
    || (c in s.consumers && s'.consumers[c].sessions == s.consumers[c].sessions)
    || (a.Process? && a.c == c && EventAt(parse, s, c).Some? && s'.consumers[c].sessions == sessions)
  }

  lemma ProcessChangesSessions(cat: Catalog, limit: nat, parse: Parser, s: System, a: Action, sessions: S.SessionMap,
                               reply: S.Reply, c: nat)
    requires cat.Valid() && a.Process? && c in DoWith(cat, limit, parse, s, a, sessions, reply).consumers
    ensures SessionsFrom(parse, s, DoWith(cat, limit, parse, s, a, sessions, reply), a, sessions, c)
  {
    var s' := DoWith(cat, limit, parse, s, a, sessions, reply);
    if c == a.c && EventAt(parse, s, c).Some? {
      var x := s.consumers[c];
      var call := Call(EventAt(parse, s, c).value, a.victim, a.id, a.fate);
      var w := World(x.sessions, x.pending, s.durable);
      SessionsAfter(cat, w, call, sessions, reply);
      var (w', trace) := ProcessAfter(cat, w, call, sessions, reply);
      assert s'.consumers[c]
          == AfterProcess(x, x.pc.attempts, limit, w'.sessions, w'.pending, trace.result, a.reason);
    }
  }

  lemma OthersKeepSessions(cat: Catalog, limit: nat, parse: Parser, s: System, a: Action, sessions: S.SessionMap,
                           reply: S.Reply, c: nat)
    requires cat.Valid() && !a.Process? && c in DoWith(cat, limit, parse, s, a, sessions, reply).consumers
    ensures SessionsFrom(parse, s, DoWith(cat, limit, parse, s, a, sessions, reply), a, sessions, c)
  {
  }

  lemma SessionsChange(cat: Catalog, limit: nat, parse: Parser, s: System, a: Action, sessions: S.SessionMap,
                       reply: S.Reply)
    requires cat.Valid()
    ensures var s' := DoWith(cat, limit, parse, s, a, sessions, reply);
            forall c :: c in s'.consumers ==> SessionsFrom(parse, s, s', a, sessions, c)
  {
    var s' := DoWith(cat, limit, parse, s, a, sessions, reply);
    forall c | c in s'.consumers
      ensures SessionsFrom(parse, s, s', a, sessions, c)
    {
      if a.Process? {
        ProcessChangesSessions(cat, limit, parse, s, a, sessions, reply, c);
      } else {
        OthersKeepSessions(cat, limit, parse, s, a, sessions, reply, c);
      }
    }
  }

  ghost function Run(cfg: Config, cat: Catalog, limit: nat, parse: Parser, s: System,
                     actions: seq<Action>): (s': System)
    requires AllRunnable(cfg, cat, s)
    ensures AllRunnable(cfg, cat, s')
    decreases |actions|
  {
    if actions == [] then s
    else
      var before := Run(cfg, cat, limit, parse, s, actions[..|actions| - 1]);
      StepIsRunnable(cfg, cat, limit, parse, before, actions[|actions| - 1]);
      Do(cfg, cat, limit, parse, before, actions[|actions| - 1])
  }

  /** A group nothing was read from yet, with no worker. */
  ghost predicate IsInitial(s: System) {
    s.delivered == {} && s.broker.pending == [] && s.consumers == map[] && IdsUnique(s)
  }

  lemma {:induction false} RunIsSafe(cfg: Config, cat: Catalog, limit: nat, parse: Parser, s: System,
                                     actions: seq<Action>)
    requires AllRunnable(cfg, cat, s) && Safe(parse, s)
    ensures Safe(parse, Run(cfg, cat, limit, parse, s, actions))
    decreases |actions|
  {
    if actions != [] {
      RunIsSafe(cfg, cat, limit, parse, s, actions[..|actions| - 1]);
      var before := Run(cfg, cat, limit, parse, s, actions[..|actions| - 1]);
      var a := actions[|actions| - 1];
      var (sessions, reply) := AddAt(cfg, cat, parse, before, a);
      if a.Process? && EventAt(parse, before, a.c).Some? {
        E.AddReports(cfg, before.consumers[a.c].sessions, ReadingOf(EventAt(parse, before, a.c).value), a.victim);
      }
      StepIsSafe(cat, limit, parse, before, a, sessions, reply);
    }
  }

  /** No message loss: whatever crashes, failures, lost replies and other transactions
      happen, every message ever delivered to the group is still pending, or in the
      dead-letter stream with its original fields, or durably recorded. */
  lemma NoMessageLoss(cfg: Config, cat: Catalog, limit: nat, s: System, actions: seq<Action>, m: Message)
    requires AllRunnable(cfg, cat, s) && IsInitial(s)
    requires m in Run(cfg, cat, limit, ParseEvent, s, actions).delivered
    ensures var s' := Run(cfg, cat, limit, ParseEvent, s, actions);
            || m in s'.broker.pending
            || InDlq(s'.broker.dlq, m)
            || (ParseEvent(m).WellFormed? && Recorded(ParseEvent, s'.delivered, s'.durable, ParseEvent(m).event.eventID))
  {
    RunIsSafe(cfg, cat, limit, ParseEvent, s, actions);
  }
}
