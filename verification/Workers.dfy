/** The worker: batches of stream messages handled command by command against Redis. */
module Workers {
  import opened Window
  import opened Processing
  import opened Streams

  class Redis {
    var broker: Broker

    constructor (b: Broker)
      ensures broker == b
    {
      broker := b;
    }

    method Incr(id: nat, luck: Luck) returns (attempts: nat, ok: bool)
      modifies this
      ensures ok == luck.Fine?
      ensures broker == if luck.Broken? then old(broker) else Incremented(old(broker), id)
      ensures ok ==> attempts == broker.attempts[id]
    {
      if luck.Broken? {
        return 0, false;
      }
      broker := Incremented(broker, id);
      return broker.attempts[id], luck.Fine?;
    }

    method XAck(id: nat, luck: Luck) returns (ok: bool)
      modifies this
      ensures ok == luck.Fine? && broker == if luck.Broken? then old(broker) else Acked(old(broker), id)
    {
      if !luck.Broken? {
        broker := Acked(broker, id);
      }
      ok := luck.Fine?;
    }

    method Del(id: nat, luck: Luck) returns (ok: bool)
      modifies this
      ensures ok == luck.Fine? && broker == if luck.Broken? then old(broker) else Deleted(old(broker), id)
    {
      if !luck.Broken? {
        broker := Deleted(broker, id);
      }
      ok := luck.Fine?;
    }

    method Eval(m: Message, attempts: nat, reason: string, luck: Luck) returns (ok: bool)
      modifies this
      ensures ok == luck.Fine?
      ensures broker == if luck.Broken? then old(broker) else Buried(old(broker), m, attempts, reason)
    {
      if !luck.Broken? {
        broker := Buried(broker, m, attempts, reason);
      }
      ok := luck.Fine?;
    }

    /** A failed XAUTOCLAIM changes at most the owner of the entries, which nothing here
        depends on. */
    method XAutoClaim(start: nat, count: nat, idle: set<nat>) returns (messages: seq<Message>, next: nat)
      ensures (messages, next) == Claimed(broker, start, count, idle)
    {
      var claimed := Claimed(broker, start, count, idle);
      return claimed.0, claimed.1;
    }

    method XReadGroup(count: nat, luck: Luck) returns (messages: seq<Message>, ok: bool)
      modifies this
      ensures ok == luck.Fine? && broker == if luck.Broken? then old(broker) else Read(old(broker), count)
      ensures ok ==> messages == Batch(old(broker), count)
    {
      messages := Batch(broker, count);
      if !luck.Broken? {
        broker := Read(broker, count);
      }
      ok := luck.Fine?;
    }
  }

  class Worker {
    const redis: Redis
    const batchSize: nat
    const retryLimit: nat
    var claimFrom: nat
    var counters: Counters

    /** New; Config.validate has the batch size and the retry limit at least 1. */
    constructor (r: Redis, batch: nat, limit: nat)
      requires batch >= 1 && limit >= 1
      ensures redis == r && batchSize == batch && retryLimit == limit
      ensures claimFrom == 0 && counters == Counters(0, 0, 0, 0)
    {
      redis, batchSize, retryLimit, claimFrom, counters := r, batch, limit, 0, Counters(0, 0, 0, 0);
    }

    method RecordFailure()
      modifies this`counters
      ensures counters == old(counters).Failed()
    {
      counters := counters.(failures := counters.failures + 1);
    }

    method IncrementAttempt(id: nat, w: Weather) returns (attempts: nat, ok: bool)
      modifies redis
      ensures ok == (w.incr.Fine? && w.expire.Fine?)
      ensures redis.broker == if w.incr.Broken? then old(redis.broker) else Incremented(old(redis.broker), id)
      ensures ok ==> attempts == redis.broker.attempts[id]
    {
      attempts, ok := redis.Incr(id, w.incr);
      if ok {
        ok := w.expire.Fine?;
      }
    }

    method Bury(m: Message, attempts: nat, reason: string, luck: Luck) returns (ok: bool)
      modifies this`counters, redis
      ensures Handled(redis.broker, ok, counters)
           == Streams.Bury(old(redis.broker), old(counters), m, attempts, reason, luck)
    {
      ok := redis.Eval(m, attempts, reason, luck);
      if ok {
        counters := counters.(dlq := counters.dlq + 1);
      }
    }

    /** processMessage; ok is false when it returns an error. */
    method ProcessMessage(m: Message, w: Weather) returns (ok: bool)
      modifies this`counters, redis
      ensures Handled(redis.broker, ok, counters) == Handle(retryLimit, ParseEvent, old(redis.broker), old(counters), m, w)
    {
      var attempts;
      attempts, ok := IncrementAttempt(m.id, w);
      if !ok {
        RecordFailure();
        return;
      }
      var parsed := ParseEvent(m);
      if parsed.Malformed? {
        RecordFailure();
        ok := Bury(m, attempts, parsed.reason, w.bury);
        return;
      }
      if !w.verdict.Processed? {
        RecordFailure();
        if w.verdict.Permanent? {
          ok := Bury(m, attempts, w.reason, w.bury);
          return;
        }
        if attempts >= retryLimit {
          ok := Bury(m, attempts, "retry limit exhausted: " + w.reason, w.bury);
          return;
        }
        return false;
      }
      ok := redis.XAck(m.id, w.ack);
      if !ok {
        RecordFailure();
        return;
      }
      ok := redis.Del(m.id, w.del);
      if !ok {
        RecordFailure();
        return;
      }
      counters := counters.(processed := counters.processed + 1);
    }

    /** processMessages. */
    method ProcessMessages(ms: seq<Message>, weather: nat -> Weather) returns (processed: nat, ok: bool)
      modifies this`counters, redis
      ensures BatchResult(redis.broker, processed, ok, counters)
           == HandleAll(retryLimit, ParseEvent, old(redis.broker), old(counters), ms, weather)
    {
      processed, ok := 0, true;
      var i := 0;
      while i < |ms|
        invariant 0 <= i == processed <= |ms|
        invariant var rest := HandleAll(retryLimit, ParseEvent, redis.broker, counters, ms[i..], weather);
                  HandleAll(retryLimit, ParseEvent, old(redis.broker), old(counters), ms, weather)
                  == rest.(count := rest.count + processed)
      {
        ok := ProcessMessage(ms[i], weather(ms[i].id));
        assert ms[i..][0] == ms[i] && ms[i..][1..] == ms[i + 1..];
        if !ok {
          return;
        }
        processed := processed + 1;
        i := i + 1;
      }
    }

    /** The rest of Recover. */
    method HandleClaimed(messages: seq<Message>, weather: nat -> Weather) returns (processed: nat, ok: bool)
      modifies this`counters, redis
      ensures BatchResult(redis.broker, processed, ok, counters)
           == RecoverBatch(retryLimit, ParseEvent, old(redis.broker), old(counters), messages, weather)
    {
      ghost var b, k := redis.broker, counters;
      if |messages| == 0 {
        EmptyBatchChangesNothing(retryLimit, ParseEvent, b, k, messages, weather);
        return 0, true;
      }
      counters := counters.(reclaimed := counters.reclaimed + |messages|);
      processed, ok := ProcessMessages(messages, weather);
      RecoverBatchHandlesAll(retryLimit, ParseEvent, b, k, messages, weather);
    }

    /** Recover; claimed is false when XAUTOCLAIM fails. */
    method Recover(claimed: bool, idle: set<nat>, weather: nat -> Weather) returns (processed: nat, ok: bool)
      modifies this, redis
      ensures !claimed ==> processed == 0 && !ok && redis.broker == old(redis.broker) && claimFrom == old(claimFrom)
      ensures claimed ==>
        var (batch, next) := Claimed(old(redis.broker), old(claimFrom), batchSize, idle);
        && claimFrom == next
        && BatchResult(redis.broker, processed, ok, counters)
           == RecoverBatch(retryLimit, ParseEvent, old(redis.broker), old(counters), batch, weather)
    {
      if !claimed {
        return 0, false;
      }
      var messages, next := redis.XAutoClaim(claimFrom, batchSize, idle);
      claimFrom := next;
      processed, ok := HandleClaimed(messages, weather);
    }

    /** ProcessNew: undelivered entries are pending from the moment they are read. */
    method ProcessNew(read: Luck, weather: nat -> Weather) returns (processed: nat, ok: bool)
      modifies this`counters, redis
      ensures !read.Fine? ==>
        processed == 0 && !ok && redis.broker == if read.Broken? then old(redis.broker) else Read(old(redis.broker), batchSize)
      ensures read.Fine? ==>
        BatchResult(redis.broker, processed, ok, counters)
        == HandleAll(retryLimit, ParseEvent, Read(old(redis.broker), batchSize), old(counters),
                     Batch(old(redis.broker), batchSize), weather)
    {
      var messages;
      messages, ok := redis.XReadGroup(batchSize, read);
      if !ok {
        return 0, false;
      }
      processed, ok := ProcessMessages(messages, weather);
    }
  }
}
