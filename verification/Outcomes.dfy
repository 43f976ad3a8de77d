/** What the stream operations do, said entry by entry: how handling a message ends, when
    a message that keeps failing is given up, and which entries a claim or a read returns. */
module Outcomes {
  import opened Window
  import opened Processing
  import opened Streams
  import opened Retries

  /** Everything about the group but message id and the dead letters is as before. */
  ghost predicate OnlyTouches(b: Broker, b': Broker, id: nat) {
    && b'.undelivered == b.undelivered
    && (forall x: Message :: x.id != id ==> (x in b'.pending <==> x in b.pending))
    && (forall j :: j != id ==> AttemptsOf(b'.attempts, j) == AttemptsOf(b.attempts, j))
  }

  /** The message has left the pending entries and its counter is gone. */
  ghost predicate IsGone(b': Broker, id: nat) {
    id !in b'.attempts && forall x :: x in b'.pending ==> x.id != id
  }

  /** The message was given up after n attempts, for this reason. */
  ghost predicate IsGivenUp(b: Broker, b': Broker, m: Message, n: nat, reason: string) {
    && IsGone(b', m.id) && |b'.dlq| == |b.dlq| + 1 && b'.dlq[..|b.dlq|] == b.dlq
    && b'.dlq[|b.dlq|].messageID == m.id && b'.dlq[|b.dlq|].fields == m.fields
    && b'.dlq[|b.dlq|].reason == reason && b'.dlq[|b.dlq|].attempts == n
  }

  /** How a message whose n-th attempt this is ends on a healthy Redis: a malformed one or
      a permanent error is given up at once, a transient error at the limit, and otherwise
      it stays pending with n attempts; a processed one leaves without a dead letter. */
  ghost predicate IsHandled(limit: nat, parsed: Parsed, b: Broker, k: Counters, m: Message, w: Weather, h: Handled) {
    var n := AttemptsOf(b.attempts, m.id) + 1;
    && OnlyTouches(b, h.broker, m.id)
    && (if parsed.Malformed? then IsGivenUp(b, h.broker, m, n, parsed.reason) && HasFailed(k, h, 1)
        else if w.verdict.Permanent? then IsGivenUp(b, h.broker, m, n, w.reason) && HasFailed(k, h, 1)
        else if w.verdict.Transient? && n >= limit then
          IsGivenUp(b, h.broker, m, n, "retry limit exhausted: " + w.reason) && HasFailed(k, h, 1)
        else if w.verdict.Transient? then
          && h.broker.pending == b.pending && h.broker.dlq == b.dlq
          && m.id in h.broker.attempts && h.broker.attempts[m.id] == n && HasFailed(k, h, 0)
        else
          && IsGone(h.broker, m.id) && h.broker.dlq == b.dlq && h.ok
          && h.counters == Counters(k.processed + 1, k.reclaimed, k.dlq, k.failures))
  }

  /** One more failure, and as many dead letters; an error only if there is none. */
  predicate HasFailed(k: Counters, h: Handled, letters: nat) {
    h.counters == Counters(k.processed, k.reclaimed, k.dlq + letters, k.failures + 1) && (h.ok <==> letters == 1)
  }

  lemma HandledIs(limit: nat, parse: Parser, b: Broker, k: Counters, m: Message, w: Weather)
    requires Healthy(w)
    ensures IsHandled(limit, parse(m), b, k, m, w, Handle(limit, parse, b, k, m, w))
  {
    WithoutIsSubset(b.pending, m.id);
  }

  /** When a command fails the message keeps its entry or is in the dead letters, and only
      an acknowledgement whose reply is lost takes it out after it was processed. */
  lemma UnhealthyKeeps(limit: nat, parse: Parser, b: Broker, k: Counters, m: Message, w: Weather)
    requires m in b.pending
    ensures var h := Handle(limit, parse, b, k, m, w);
            && OnlyTouches(b, h.broker, m.id) && b.dlq <= h.broker.dlq
            && (m in h.broker.pending
                || (|h.broker.dlq| == |b.dlq| + 1 && h.broker.dlq[|b.dlq|].messageID == m.id
                    && h.broker.dlq[|b.dlq|].fields == m.fields)
                || (w.verdict.Processed? && parse(m).WellFormed? && !w.ack.Broken?))
            && (h.ok ==> w.incr.Fine? && w.expire.Fine?)
  {
    WithoutIsSubset(b.pending, m.id);
  }

  /** One message handled among others. */
  datatype Try = Try(m: Message, w: Weather)

  function Tries(limit: nat, parse: Parser, b: Broker, k: Counters, ts: seq<Try>): Handled
    decreases |ts|
  {
    if ts == [] then Handled(b, true, k)
    else
      var before := Tries(limit, parse, b, k, ts[..|ts| - 1]);
      Handle(limit, parse, before.broker, before.counters, ts[|ts| - 1].m, ts[|ts| - 1].w)
  }

  function TriesOf(ts: seq<Try>, id: nat): nat
    decreases |ts|
  {
    if ts == [] then 0 else TriesOf(ts[..|ts| - 1], id) + if ts[|ts| - 1].m.id == id then 1 else 0
  }

  /** Redis is healthy, and m is well formed but its every try fails transiently. */
  ghost predicate AlwaysFails(parse: Parser, ts: seq<Try>, m: Message) {
    forall i :: 0 <= i < |ts| ==>
      Healthy(ts[i].w) && (ts[i].m.id == m.id ==> ts[i].m == m && parse(m).WellFormed? && ts[i].w.verdict.Transient?)
  }

  ghost predicate HasLetter(dlq: seq<DeadLetter>, id: nat) {
    exists i :: 0 <= i < |dlq| && dlq[i].messageID == id
  }

  /** m is pending with n attempts and not in the dead letters. */
  ghost predicate IsWaiting(b: Broker, m: Message, n: nat) {
    m in b.pending && AttemptsOf(b.attempts, m.id) == n && !HasLetter(b.dlq, m.id)
  }

  lemma OtherKeepsWaiting(limit: nat, parsed: Parsed, b: Broker, k: Counters, m: Message, n: nat, t: Try, h: Handled)
    requires IsWaiting(b, m, n) && t.m.id != m.id && IsHandled(limit, parsed, b, k, t.m, t.w, h)
    ensures IsWaiting(h.broker, m, n)
  {
  }

  lemma TryKeepsWaiting(limit: nat, parsed: Parsed, b: Broker, k: Counters, m: Message, n: nat, w: Weather, h: Handled)
    requires IsWaiting(b, m, n) && n + 1 < limit && parsed.WellFormed? && w.verdict.Transient?
    requires IsHandled(limit, parsed, b, k, m, w, h)
    ensures IsWaiting(h.broker, m, n + 1)
  {
  }

  /** Among whatever other messages, a message whose tries keep failing stays pending, with
      as many attempts as it had tries, as long as these are fewer than the limit. */
  lemma {:induction false} WaitsBelowLimit(limit: nat, parse: Parser, b: Broker, k: Counters, ts: seq<Try>, m: Message)
    requires IsWaiting(b, m, 0) && AlwaysFails(parse, ts, m) && TriesOf(ts, m.id) < limit
    ensures IsWaiting(Tries(limit, parse, b, k, ts).broker, m, TriesOf(ts, m.id))
    decreases |ts|
  {
    if ts != [] {
      var front, t := ts[..|ts| - 1], ts[|ts| - 1];
      assert t == ts[|ts| - 1];
      WaitsBelowLimit(limit, parse, b, k, front, m);
      var before := Tries(limit, parse, b, k, front);
      HandledIs(limit, parse, before.broker, before.counters, t.m, t.w);
      var h := Handle(limit, parse, before.broker, before.counters, t.m, t.w);
      if t.m.id == m.id {
        TryKeepsWaiting(limit, parse(m), before.broker, before.counters, m, TriesOf(front, m.id), t.w, h);
      } else {
        OtherKeepsWaiting(limit, parse(t.m), before.broker, before.counters, m, TriesOf(front, m.id), t, h);
      }
    }
  }

  /** The try that reaches the limit gives the message up, with that many attempts. */
  lemma GivenUpAtLimit(limit: nat, parse: Parser, b: Broker, k: Counters, ts: seq<Try>, m: Message)
    requires IsWaiting(b, m, 0) && AlwaysFails(parse, ts, m) && TriesOf(ts, m.id) == limit >= 1
    requires ts != [] && ts[|ts| - 1].m.id == m.id
    ensures var before, after := Tries(limit, parse, b, k, ts[..|ts| - 1]), Tries(limit, parse, b, k, ts);
            && IsWaiting(before.broker, m, limit - 1)
            && IsGivenUp(before.broker, after.broker, m, limit, "retry limit exhausted: " + ts[|ts| - 1].w.reason)
  {
    var front, t := ts[..|ts| - 1], ts[|ts| - 1];
    WaitsBelowLimit(limit, parse, b, k, front, m);
    var before := Tries(limit, parse, b, k, front);
    HandledIs(limit, parse, before.broker, before.counters, t.m, t.w);
  }

  /** The pending entries list is in id order. */
  ghost predicate InIdOrder(pending: seq<Message>) {
    forall i, j :: 0 <= i < j < |pending| ==> pending[i].id < pending[j].id
  }

  /** A claim from start: it looks at the entries from lo up to hi, lo being the first at or
      after start, and claims the idle ones of them, in order. It ends at the end of the
      list, with a full batch or after 10 * count entries; next is where it would go on,
      0 at the end. */
  ghost predicate IsClaim(pending: seq<Message>, start: nat, count: nat, idle: set<nat>, batch: seq<Message>, next: nat,
                          lo: nat, hi: nat)
  {
    && lo <= hi <= |pending| && hi - lo <= 10 * count
    && (forall i :: 0 <= i < lo ==> pending[i].id < start) && (lo < |pending| ==> pending[lo].id >= start)
    && batch == IdleOnes(pending[lo..hi], idle) && |batch| <= count
    && (if hi == |pending| then next == 0
        else next == pending[hi].id && (|batch| == count || hi - lo == 10 * count))
  }

  function IdleOnes(ms: seq<Message>, idle: set<nat>): seq<Message>
    decreases |ms|
  {
    if ms == [] then []
    else IdleOnes(ms[..|ms| - 1], idle) + if ms[|ms| - 1].id in idle then [ms[|ms| - 1]] else []
  }

  lemma {:induction false} IdleOnesAre(ms: seq<Message>, idle: set<nat>, x: Message)
    ensures x in IdleOnes(ms, idle) <==> x in ms && x.id in idle
    decreases |ms|
  {
    if ms != [] {
      IdleOnesAre(ms[..|ms| - 1], idle, x);
      assert ms == ms[..|ms| - 1] + [ms[|ms| - 1]];
    }
  }

  lemma {:induction false} IdleOnesInOrder(ms: seq<Message>, idle: set<nat>)
    requires InIdOrder(ms)
    ensures InIdOrder(IdleOnes(ms, idle))
    decreases |ms|
  {
    if ms != [] {
      var front := ms[..|ms| - 1];
      IdleOnesInOrder(front, idle);
      var rest := IdleOnes(front, idle);
      forall i | 0 <= i < |rest|
        ensures rest[i].id < ms[|ms| - 1].id
      {
        assert rest[i] in rest;
        IdleOnesAre(front, idle, rest[i]);
      }
    }
  }

  lemma {:induction false} FromIs(pending: seq<Message>, start: nat)
    ensures var lo := |pending| - |From(pending, start)|;
            && 0 <= lo <= |pending| && From(pending, start) == pending[lo..]
            && (forall i :: 0 <= i < lo ==> pending[i].id < start) && (lo < |pending| ==> pending[lo].id >= start)
    decreases |pending|
  {
    if pending != [] && pending[0].id < start {
      FromIs(pending[1..], start);
      var lo := |pending| - |From(pending, start)|;
      forall i | 0 <= i < lo
        ensures pending[i].id < start
      {
        assert i > 0 ==> pending[1..][i - 1] == pending[i];
      }
    }
  }

  lemma {:induction false} IdleOnesFromFront(ms: seq<Message>, idle: set<nat>)
    requires ms != []
    ensures IdleOnes(ms, idle) == (if ms[0].id in idle then [ms[0]] else []) + IdleOnes(ms[1..], idle)
    decreases |ms|
  {
    if |ms| > 1 {
      IdleOnesFromFront(ms[..|ms| - 1], idle);
      assert ms[..|ms| - 1][1..] == ms[1..][..|ms| - 2];
    }
  }

  /** What a scan looked at: its first n entries. */
  ghost predicate IsScan(pending: seq<Message>, count: nat, budget: nat, idle: set<nat>, s: Scanned, n: nat) {
    && n <= |pending| && n <= budget && s.rest == pending[n..]
    && s.batch == IdleOnes(pending[..n], idle) && |s.batch| <= count
    && (n == |pending| || n == budget || |s.batch| == count)
  }

  lemma {:induction false} ScanIs(pending: seq<Message>, count: nat, budget: nat, idle: set<nat>) returns (n: nat)
    ensures IsScan(pending, count, budget, idle, Scan(pending, count, budget, idle), n)
    decreases budget
  {
    n := 0;
    if pending != [] && count > 0 && budget > 0 {
      var left := if pending[0].id in idle then count - 1 else count;
      n := ScanIs(pending[1..], left, budget - 1, idle);
      ScanStep(pending, count, budget, idle, Scan(pending[1..], left, budget - 1, idle), n);
      n := n + 1;
    }
  }

  lemma ScanStep(pending: seq<Message>, count: nat, budget: nat, idle: set<nat>, rest: Scanned, n: nat)
    requires pending != [] && count > 0 && budget > 0
    requires IsScan(pending[1..], if pending[0].id in idle then count - 1 else count, budget - 1, idle, rest, n)
    ensures IsScan(pending, count, budget, idle,
                   Scanned((if pending[0].id in idle then [pending[0]] else []) + rest.batch, rest.rest), n + 1)
  {
    IdleOnesFromFront(pending[..n + 1], idle);
    assert pending[..n + 1][1..] == pending[1..][..n];
    assert pending[n + 1..] == pending[1..][n..];
  }

  /** XAUTOCLAIM is such a claim. */
  lemma ClaimedIs(b: Broker, start: nat, count: nat, idle: set<nat>) returns (lo: nat, hi: nat)
    ensures IsClaim(b.pending, start, count, idle, Claimed(b, start, count, idle).0, Claimed(b, start, count, idle).1, lo, hi)
  {
    FromIs(b.pending, start);
    var tail := From(b.pending, start);
    lo := |b.pending| - |tail|;
    var n := ScanIs(tail, count, 10 * count, idle);
    hi := lo + n;
    assert b.pending[lo..hi] == tail[..n];
    assert b.pending[hi..] == tail[n..];
  }

  lemma SliceInOrder(pending: seq<Message>, lo: nat, hi: nat)
    requires InIdOrder(pending) && lo <= hi <= |pending|
    ensures InIdOrder(pending[lo..hi])
  {
    forall i, j | 0 <= i < j < hi - lo
      ensures pending[lo..hi][i].id < pending[lo..hi][j].id
    {
      assert pending[lo..hi][i] == pending[lo + i] && pending[lo..hi][j] == pending[lo + j];
    }
  }

  /** Of a list in id order, a claim takes exactly the idle entries from start up to next. */
  lemma ClaimedIff(b: Broker, start: nat, count: nat, idle: set<nat>, x: Message)
    requires InIdOrder(b.pending) && forall y :: y in b.pending ==> y.id > 0
    ensures var (batch, next) := Claimed(b, start, count, idle);
            && InIdOrder(batch)
            && (x in batch <==> x in b.pending && x.id in idle && x.id >= start && (next == 0 || x.id < next))
  {
    var lo, hi := ClaimedIs(b, start, count, idle);
    var (batch, next) := Claimed(b, start, count, idle);
    IdleOnesAre(b.pending[lo..hi], idle, x);
    SliceInOrder(b.pending, lo, hi);
    IdleOnesInOrder(b.pending[lo..hi], idle);
    BetweenIff(b.pending, start, next, lo, hi, x);
  }

  lemma BetweenIff(pending: seq<Message>, start: nat, next: nat, lo: nat, hi: nat, x: Message)
    requires InIdOrder(pending) && lo <= hi <= |pending| && forall y :: y in pending ==> y.id > 0
    requires (forall i :: 0 <= i < lo ==> pending[i].id < start) && (lo < |pending| ==> pending[lo].id >= start)
    requires if hi == |pending| then next == 0 else next == pending[hi].id
    ensures x in pending[lo..hi] <==> x in pending && x.id >= start && (next == 0 || x.id < next)
  {
    if x in pending {
      var i :| 0 <= i < |pending| && pending[i] == x;
      assert lo <= i < hi ==> pending[lo..hi][i - lo] == x;
      assert hi < |pending| ==> pending[hi] in pending;
    }
    if x in pending[lo..hi] {
      var j :| 0 <= j < hi - lo && pending[lo..hi][j] == x;
      assert pending[lo + j] == x;
    }
  }

  /** XREADGROUP hands out the next count undelivered entries, or all there are, and they
      are pending after those that were. */
  lemma ReadIs(b: Broker, count: nat)
    ensures var batch, b' := Batch(b, count), Read(b, count);
            && b.undelivered == batch + b'.undelivered && b'.pending == b.pending + batch
            && |batch| <= count && (b'.undelivered == [] || |batch| == count)
            && b'.attempts == b.attempts && b'.dlq == b.dlq
  {
  }
}
