/** The Redis side of the worker on values: the consumer group, retry counters and the
    dead-letter stream, and what handling a message or a batch does to them. */
module Streams {
  import opened Arithmetic
  import opened Window
  import opened Keys
  import opened Finalizing
  import opened Processing

  /** The fields of a stream entry as fmt.Sprint shows them, so that a missing one reads
      "<nil>"; each time is what RFC3339Nano parsing makes of its text, None if it does
      not parse. */
  datatype Fields = Fields(
    eventID: string,
    scaleID: string,
    plate: string,
    weightGrams: string,
    measuredAt: Option<Time>,
    receivedAt: Option<Time>)

  /** Stream ids are positive and ordered; 0 stands for "0-0". */
  datatype Message = Message(id: nat, fields: Fields)

  datatype DeadLetter = DeadLetter(messageID: nat, fields: Fields, reason: string, attempts: nat)

  /** The consumer group: entries never delivered, the pending entries list in id order,
      the retry counters, and the dead-letter stream. */
  datatype Broker = Broker(
    undelivered: seq<Message>,
    pending: seq<Message>,
    attempts: map<nat, nat>,
    dlq: seq<DeadLetter>)

  datatype Parsed = WellFormed(event: Event) | Malformed(reason: string)

  predicate AllDigits(s: string) {
    s != "" && forall i :: 0 <= i < |s| ==> '0' <= s[i] <= '9'
  }

  function DigitsValue(s: string): nat
    requires forall i :: 0 <= i < |s| ==> '0' <= s[i] <= '9'
  {
    if s == "" then 0 else 10 * DigitsValue(s[..|s| - 1]) + (s[|s| - 1] - '0') as nat
  }

  /** strconv.ParseInt(s, 10, 64). */
  function ParseInt64(s: string): Option<int64> {
    var signed := s != "" && s[0] in "+-";
    var digits := if signed then s[1..] else s;
    if !AllDigits(digits) then None
    else
      var value: int := if signed && s[0] == '-' then 0 - DigitsValue(digits) else DigitsValue(digits);
      if MIN_INT64 <= value <= MAX_INT64 then Some(value) else None
  }

  /** parseEvent, after the fields are normalized. */
  function EventOf(m: Message, eventID: string, scaleID: string, plate: string, weight: Option<int64>): Parsed {
    if eventID == "" then Malformed("event_id is required")
    else if !IsUuid(eventID) then Malformed("event_id must be a UUID")
    else if scaleID == "" then Malformed("scale_id is required")
    else if |plate| != 7 then Malformed("plate must contain seven letters or digits")
    else if weight.None? || weight.value <= 0 then Malformed("weight_grams must be a positive integer")
    else if m.fields.measuredAt.None? then Malformed("measured_at must be RFC3339Nano")
    else if m.fields.receivedAt.None? then Malformed("received_at must be RFC3339Nano")
    else WellFormed(Event(m.id, eventID, scaleID, plate, weight.value, m.fields.measuredAt.value, m.fields.receivedAt.value))
  }

  /** parseEvent. */
  function ParseEvent(m: Message): Parsed {
    EventOf(m, TrimSpace(m.fields.eventID), NormalizeCode(TrimSpace(m.fields.scaleID)),
            NormalizePlate(TrimSpace(m.fields.plate)), ParseInt64(TrimSpace(m.fields.weightGrams)))
  }

  /** What decides whether a message is well formed: ParseEvent in the worker. */
  type Parser = Message -> Parsed

  function AttemptsOf(attempts: map<nat, nat>, id: nat): nat {
    if id in attempts then attempts[id] else 0
  }

  /** INCR of the retry key. */
  function Incremented(b: Broker, id: nat): Broker {
    b.(attempts := b.attempts[id := AttemptsOf(b.attempts, id) + 1])
  }

  function Without(pending: seq<Message>, id: nat): seq<Message> {
    if pending == [] then []
    else (if pending[0].id == id then [] else [pending[0]]) + Without(pending[1..], id)
  }

  lemma {:induction false} WithoutElement(pending: seq<Message>, id: nat, m: Message)
    ensures m in Without(pending, id) <==> m in pending && m.id != id
    decreases |pending|
  {
    if pending != [] {
      WithoutElement(pending[1..], id, m);
      assert pending == [pending[0]] + pending[1..];
    }
  }

  /** XACK. */
  function Acked(b: Broker, id: nat): Broker {
    b.(pending := Without(b.pending, id))
  }

  /** DEL of the retry key. */
  function Deleted(b: Broker, id: nat): Broker {
    b.(attempts := b.attempts - {id})
  }

  /** The Lua script: XADD to the dead-letter stream, XACK and DEL, all or nothing. */
  function Buried(b: Broker, m: Message, attempts: nat, reason: string): Broker {
    Broker(b.undelivered, Without(b.pending, m.id), b.attempts - {m.id},
           b.dlq + [DeadLetter(m.id, m.fields, reason, attempts)])
  }

  datatype Scanned = Scanned(batch: seq<Message>, rest: seq<Message>)

  /** XAUTOCLAIM's scan: at most budget entries looked at, at most count idle ones claimed. */
  function Scan(pending: seq<Message>, count: nat, budget: nat, idle: set<nat>): Scanned
    decreases budget
  {
    if pending == [] || count == 0 || budget == 0 then Scanned([], pending)
    else
      var taken := pending[0].id in idle;
      var s := Scan(pending[1..], if taken then count - 1 else count, budget - 1, idle);
      Scanned((if taken then [pending[0]] else []) + s.batch, s.rest)
  }

  /** The entries from a cursor on. */
  function From(pending: seq<Message>, start: nat): seq<Message> {
    if pending == [] || pending[0].id >= start then pending else From(pending[1..], start)
  }

  /** XAUTOCLAIM: the claimed batch and the next cursor, 0 at the end of the list. */
  function Claimed(b: Broker, start: nat, count: nat, idle: set<nat>): (seq<Message>, nat) {
    var s := Scan(From(b.pending, start), count, 10 * count, idle);
    (s.batch, if s.rest == [] then 0 else s.rest[0].id)
  }

  /** XREADGROUP >: the next undelivered entries become pending. */
  function Read(b: Broker, count: nat): Broker {
    var n := if count <= |b.undelivered| then count else |b.undelivered|;
    b.(undelivered := b.undelivered[n..], pending := b.pending + b.undelivered[..n])
  }

  function Batch(b: Broker, count: nat): seq<Message> {
    b.undelivered[..if count <= |b.undelivered| then count else |b.undelivered|]
  }

  /** How each command for a message goes, and what the processor answers. */
  datatype Weather = Weather(
    incr: Luck,
    expire: Luck,
    verdict: ProcessResult,
    reason: string,
    ack: Luck,
    del: Luck,
    bury: Luck)

  predicate Healthy(w: Weather) {
    w.incr.Fine? && w.expire.Fine? && w.ack.Fine? && w.del.Fine? && w.bury.Fine?
  }

  datatype Counters = Counters(processed: nat, reclaimed: nat, dlq: nat, failures: nat)
  {
    function Failed(): Counters {
      this.(failures := failures + 1)
    }
  }

  /** The group, whether an error was returned, and the counters. */
  datatype Handled = Handled(broker: Broker, ok: bool, counters: Counters)

  /** deadLetter. */
  function Bury(b: Broker, k: Counters, m: Message, attempts: nat, reason: string, luck: Luck): Handled {
    Handled(if luck.Broken? then b else Buried(b, m, attempts, reason), luck.Fine?,
            if luck.Fine? then k.(dlq := k.dlq + 1) else k)
  }

  /** The acknowledgement of a processed message. */
  function Acknowledge(b: Broker, k: Counters, id: nat, w: Weather): Handled {
    if !w.ack.Fine? then Handled(if w.ack.Lost? then Acked(b, id) else b, false, k.Failed())
    else if !w.del.Fine? then
      Handled(if w.del.Lost? then Deleted(Acked(b, id), id) else Acked(b, id), false, k.Failed())
    else Handled(Deleted(Acked(b, id), id), true, k.(processed := k.processed + 1))
  }

  /** processMessage. */
  function Handle(limit: nat, parse: Parser, b: Broker, k: Counters, m: Message, w: Weather): Handled {
    if !w.incr.Fine? then Handled(if w.incr.Lost? then Incremented(b, m.id) else b, false, k.Failed())
    else
      var b1 := Incremented(b, m.id);
      var attempts := b1.attempts[m.id];
      if !w.expire.Fine? then Handled(b1, false, k.Failed())
      else if parse(m).Malformed? then Bury(b1, k.Failed(), m, attempts, parse(m).reason, w.bury)
      else
        match w.verdict
        case Permanent => Bury(b1, k.Failed(), m, attempts, w.reason, w.bury)
        case Transient =>
          if attempts >= limit then Bury(b1, k.Failed(), m, attempts, "retry limit exhausted: " + w.reason, w.bury)
          else Handled(b1, false, k.Failed())
        case Processed => Acknowledge(b1, k, m.id, w)
  }

  /** The group after a batch, how many messages were handled, and whether all were. */
  datatype BatchResult = BatchResult(broker: Broker, count: nat, ok: bool, counters: Counters)

  /** processMessages: in order, up to the first error. weather is indexed by message id. */
  function HandleAll(limit: nat, parse: Parser, b: Broker, k: Counters, ms: seq<Message>,
                     weather: nat -> Weather): BatchResult
    decreases |ms|
  {
    if ms == [] then BatchResult(b, 0, true, k)
    else
      var first := Handle(limit, parse, b, k, ms[0], weather(ms[0].id));
      if !first.ok then BatchResult(first.broker, 0, false, first.counters)
      else
        var rest := HandleAll(limit, parse, first.broker, first.counters, ms[1..], weather);
        rest.(count := rest.count + 1)
  }

  /** What a Recover that reaches Redis does, given the claimed batch. */
  function RecoverBatch(limit: nat, parse: Parser, b: Broker, k: Counters, batch: seq<Message>, weather: nat -> Weather)
    : BatchResult
  {
    HandleAll(limit, parse, b, k.(reclaimed := k.reclaimed + |batch|), batch, weather)
  }

  /** The stabilizer accepts every parsed event as a reading of exactly the event's scale
      and plate, save one measured at the zero time. */
  lemma ParsedReadingIsValid(m: Message)
    requires ParseEvent(m).WellFormed?
    ensures var e := ParseEvent(m).event;
            ReadingKey(ReadingOf(e)) == if e.measuredAt == 0 then None else Some(Key(e.scaleID, e.plate))
  {
    NormalizeCodeIdempotent(TrimSpace(m.fields.scaleID));
    NormalizePlateIdempotent(TrimSpace(m.fields.plate));
  }

  lemma EmptyBatchChangesNothing(limit: nat, parse: Parser, b: Broker, k: Counters, batch: seq<Message>,
                                 weather: nat -> Weather)
    requires |batch| == 0
    ensures RecoverBatch(limit, parse, b, k, batch, weather) == BatchResult(b, 0, true, k)
  {
  }

  lemma RecoverBatchHandlesAll(limit: nat, parse: Parser, b: Broker, k: Counters, batch: seq<Message>,
                               weather: nat -> Weather)
    ensures RecoverBatch(limit, parse, b, k, batch, weather)
         == HandleAll(limit, parse, b, k.(reclaimed := k.reclaimed + |batch|), batch, weather)
  {
  }

  /** A batch stops at its first error: whatever messages come after it have no influence,
      so they are neither counted, buried nor acknowledged. */
  lemma {:induction false} BatchStopsAtFirstError(limit: nat, parse: Parser, b: Broker, k: Counters, ms: seq<Message>,
                                                  weather: nat -> Weather, rest: seq<Message>)
    ensures var r := HandleAll(limit, parse, b, k, ms, weather);
            && r.count <= |ms| && (r.ok <==> r.count == |ms|)
            && (!r.ok ==> HandleAll(limit, parse, b, k, ms[..r.count + 1] + rest, weather) == r)
    decreases |ms|
  {
    if ms != [] {
      var first := Handle(limit, parse, b, k, ms[0], weather(ms[0].id));
      var r := HandleAll(limit, parse, b, k, ms, weather);
      if first.ok {
        BatchStopsAtFirstError(limit, parse, first.broker, first.counters, ms[1..], weather, rest);
        if !r.ok {
          assert (ms[..r.count + 1] + rest)[1..] == ms[1..][..r.count] + rest;
        }
      }
    }
  }
}
