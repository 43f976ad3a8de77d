/** A consumer that runs the commands for one message without a crash does exactly what
    processMessage does, for every way the commands may go. */
module Commands {
  import opened Window
  import opened Keys
  import S = Sessions
  import opened Finalizing
  import opened Processing
  import opened Streams
  import opened Delivery

  /** The commands for the head of a batch, in order; one whose turn does not come changes
      nothing. */
  ghost function HandleHead(cat: Catalog, limit: nat, parse: Parser, s: System, c: nat, w: Weather, victim: Key, id: Id,
                            fate: Fate, sessions: S.SessionMap, reply: S.Reply): System
    requires cat.Valid()
  {
    var counted := Step(cat, limit, parse, s, Incr(c, w.incr), sessions, reply);
    var expiring := Step(cat, limit, parse, counted, Expire(c, w.expire), sessions, reply);
    var processed := Step(cat, limit, parse, expiring, Action.Process(c, victim, id, fate, w.reason), sessions, reply);
    var acked := Step(cat, limit, parse, processed, Ack(c, w.ack), sessions, reply);
    var deleted := Step(cat, limit, parse, acked, Del(c, w.del), sessions, reply);
    Step(cat, limit, parse, deleted, Action.Bury(c, w.bury), sessions, reply)
  }

  ghost function Step(cat: Catalog, limit: nat, parse: Parser, s: System, a: Action, sessions: S.SessionMap, reply: S.Reply)
    : System
    requires cat.Valid()
  {
    DoWith(cat, limit, parse, s, a, sessions, reply)
  }

  /** What the processor answers for the head message, if it is well formed. */
  ghost predicate Answered(cat: Catalog, parse: Parser, s: System, c: nat, w: Weather, victim: Key, id: Id, fate: Fate,
                           sessions: S.SessionMap, reply: S.Reply)
    requires cat.Valid() && c in s.consumers && s.consumers[c].queue != []
  {
    var x := s.consumers[c];
    var p := parse(x.queue[0]);
    p.WellFormed? ==>
      w.verdict == ProcessAfter(cat, World(x.sessions, x.pending, s.durable), Call(p.event, victim, id, fate),
                                sessions, reply).1.result
  }

  /** The consumer is between messages, with this group and batch. */
  ghost predicate Rests(s: System, c: nat, b: Broker, queue: seq<Message>) {
    c in s.consumers && s.consumers[c].pc.Idle? && s.consumers[c].queue == queue && s.broker == b
  }

  lemma RestingSkips(cat: Catalog, limit: nat, parse: Parser, s: System, c: nat, w: Weather, victim: Key, id: Id,
                     fate: Fate, sessions: S.SessionMap, reply: S.Reply)
    requires cat.Valid() && c in s.consumers && s.consumers[c].pc.Idle?
    ensures Step(cat, limit, parse, s, Expire(c, w.expire), sessions, reply) == s
    ensures Step(cat, limit, parse, s, Action.Process(c, victim, id, fate, w.reason), sessions, reply) == s
    ensures Step(cat, limit, parse, s, Ack(c, w.ack), sessions, reply) == s
    ensures Step(cat, limit, parse, s, Del(c, w.del), sessions, reply) == s
    ensures Step(cat, limit, parse, s, Action.Bury(c, w.bury), sessions, reply) == s
  {
  }

  lemma AcknowledgeHead(cat: Catalog, limit: nat, parse: Parser, s: System, c: nat, k: Counters, w: Weather,
                        sessions: S.SessionMap, reply: S.Reply)
    requires cat.Valid() && c in s.consumers && s.consumers[c].queue != [] && s.consumers[c].pc.AtAck?
    ensures var acked := Step(cat, limit, parse, s, Ack(c, w.ack), sessions, reply);
            var deleted := Step(cat, limit, parse, acked, Del(c, w.del), sessions, reply);
            var done := Step(cat, limit, parse, deleted, Action.Bury(c, w.bury), sessions, reply);
            var queue := s.consumers[c].queue;
            var h := Acknowledge(s.broker, k, queue[0].id, w);
            Rests(done, c, h.broker, if h.ok then queue[1..] else [])
  {
  }

  lemma BuryHead(cat: Catalog, limit: nat, parse: Parser, s: System, c: nat, k: Counters, w: Weather,
                 sessions: S.SessionMap, reply: S.Reply)
    requires cat.Valid() && c in s.consumers && s.consumers[c].queue != [] && s.consumers[c].pc.AtBury?
    ensures var acked := Step(cat, limit, parse, s, Ack(c, w.ack), sessions, reply);
            var deleted := Step(cat, limit, parse, acked, Del(c, w.del), sessions, reply);
            var done := Step(cat, limit, parse, deleted, Action.Bury(c, w.bury), sessions, reply);
            var x := s.consumers[c];
            var h := Streams.Bury(s.broker, k, x.queue[0], x.pc.attempts, x.pc.reason, w.bury);
            Rests(done, c, h.broker, if h.ok then x.queue[1..] else [])
  {
    BuryDoes(cat, limit, parse, s, c, w.bury, sessions, reply);
  }

  /** Incr and Expire. */
  lemma CountHead(cat: Catalog, limit: nat, parse: Parser, s: System, c: nat, w: Weather, sessions: S.SessionMap,
                  reply: S.Reply)
    requires cat.Valid() && c in s.consumers && s.consumers[c].queue != [] && s.consumers[c].pc.Idle?
    ensures var counted := Step(cat, limit, parse, s, Incr(c, w.incr), sessions, reply);
            var expiring := Step(cat, limit, parse, counted, Expire(c, w.expire), sessions, reply);
            var x := s.consumers[c];
            var b := Incremented(s.broker, x.queue[0].id);
            if w.incr.Fine? && w.expire.Fine? then
              expiring == WithConsumer(s.(broker := b), c, x.(pc := AtProcess(b.attempts[x.queue[0].id])))
            else Rests(expiring, c, if w.incr.Broken? then s.broker else b, [])
  {
  }

  /** The processor's answer decides the next command. */
  lemma ProcessHead(cat: Catalog, limit: nat, parse: Parser, s: System, c: nat, w: Weather, victim: Key, id: Id, fate: Fate,
                    sessions: S.SessionMap, reply: S.Reply)
    requires cat.Valid() && c in s.consumers && s.consumers[c].queue != [] && s.consumers[c].pc.AtProcess?
    requires Answered(cat, parse, s, c, w, victim, id, fate, sessions, reply)
    ensures var s' := Step(cat, limit, parse, s, Action.Process(c, victim, id, fate, w.reason), sessions, reply);
            var x := s.consumers[c];
            var n := x.pc.attempts;
            var p := parse(x.queue[0]);
            && s'.broker == s.broker && c in s'.consumers
            && (s'.consumers[c].queue == if p.WellFormed? && w.verdict.Transient? && n < limit then [] else x.queue)
            && s'.consumers[c].pc
               == if p.Malformed? then AtBury(n, p.reason)
                  else match w.verdict
                       case Processed => AtAck
                       case Permanent => AtBury(n, w.reason)
                       case Transient => if n >= limit then AtBury(n, "retry limit exhausted: " + w.reason) else Idle
  {
  }

  /** processMessage, command by command. */
  lemma CommandsAreHandle(cat: Catalog, limit: nat, parse: Parser, s: System, c: nat, k: Counters, w: Weather, victim: Key,
                          id: Id, fate: Fate, sessions: S.SessionMap, reply: S.Reply)
    requires cat.Valid() && c in s.consumers && s.consumers[c].queue != [] && s.consumers[c].pc.Idle?
    requires Answered(cat, parse, s, c, w, victim, id, fate, sessions, reply)
    ensures var queue := s.consumers[c].queue;
            var h := Handle(limit, parse, s.broker, k, queue[0], w);
            Rests(HandleHead(cat, limit, parse, s, c, w, victim, id, fate, sessions, reply), c, h.broker,
                  if h.ok then queue[1..] else [])
  {
    CountHead(cat, limit, parse, s, c, w, sessions, reply);
    var counted := Step(cat, limit, parse, s, Incr(c, w.incr), sessions, reply);
    var expiring := Step(cat, limit, parse, counted, Expire(c, w.expire), sessions, reply);
    if w.incr.Fine? && w.expire.Fine? {
      ProcessHead(cat, limit, parse, expiring, c, w, victim, id, fate, sessions, reply);
      var processed := Step(cat, limit, parse, expiring, Action.Process(c, victim, id, fate, w.reason), sessions, reply);
      if processed.consumers[c].pc.AtAck? {
        AcknowledgeHead(cat, limit, parse, processed, c, k, w, sessions, reply);
      } else if processed.consumers[c].pc.AtBury? {
        BuryHead(cat, limit, parse, processed, c, k.Failed(), w, sessions, reply);
      } else {
        RestingSkips(cat, limit, parse, processed, c, w, victim, id, fate, sessions, reply);
      }
    } else {
      RestingSkips(cat, limit, parse, expiring, c, w, victim, id, fate, sessions, reply);
    }
  }
}
