/**
 Results that span the ingresses, the idempotency cache and the retry queue.
 */
module EndToEnd {
  import opened Basics
  import opened Clock
  import opened Mail
  import opened Tables
  import opened Transport
  import opened Headers
  import opened Storage
  import opened Delivery
  import opened Suppressions
  import opened RetryProtocol
  import opened RetryTheorems
  import opened Idempotency
  import opened IdempotencySafety

  /** Passthrough headers that were valid when the message was accepted are valid at every
      background retry, after any crashes in between. */
  lemma RetriedHeadersStayValid(w: World, es: seq<RetryProtocol.Event>, via: Ingress, msg: Message, now: int, outcome: Outcome)
    requires Init(w) && RetryProtocol.IsRun(w, es) && RetryProtocol.Enabled(RetryProtocol.Exec(w, es), Send(outcome)) && QueueEligible(via)
    requires Record(via, RetryProtocol.Exec(w, es).worker.due[0].submission.id, msg, now, true) in es && HeadersOk(msg.headers)
    ensures HeadersOk(Rebuild(RetryProtocol.Exec(w, es).worker.due[0].submission).headers)
  {
    hide HeadersOk, RetryProtocol.IsRun, RetryProtocol.Exec;
    ReplayIsFaithful(w, es, via, msg, now, outcome);
  }

  // ---- an API request with an idempotency key -------------------------------

  /** The log entry of a request whose recipients are all suppressed. */
  function SuppressedRow(path: string, transport: string, logFailed: bool, clientIP: string, id: Id, msg: Message, now: int): Submission {
    if logFailed then
      Submission(id, path, transport, msg.from, [], "", msg.subject, msg.bodyText, msg.bodyHTML, msg.fields, [], [], clientIP,
                 Suppressed, "", "", Unix(now), None)
    else
      Submission(id, path, transport, "", [], "", "", "", "", map[], [], [], "", Suppressed, "", "", Unix(now), None)
  }

  /** The gate after the suppression check, and after the delivery or log entry behind it. */
  predicate HealthyAfter(db: Db, working: bool, via: Ingress, id: Id, to: seq<string>, answer: SendResult, disk: Disk) {
    working && (if to == [] then Persists(db, id, disk) else StaysHealthy(db, via, id, answer, disk))
  }

  function StatusFor(db: Db, working: bool, via: Ingress, id: Id, to: seq<string>, answer: SendResult, disk: Disk): int {
    if to == [] then 200 else HttpStatus(VerdictOf(db, working, via, id, answer, disk), true)
  }

  /** The tables after it. */
  function DbAfter(db: Db, working: bool, via: Ingress, id: Id, msg: Message, answer: SendResult,
                   recordAt: int, outcomeAt: int, disk: Disk): Db
    requires via.Http?
  {
    if !working then db
    else if msg.to != [] then Settled(db, via, id, msg, answer, recordAt, outcomeAt, disk)
    else if Persists(db, id, disk) then
      InsertSubmission(db, SuppressedRow(via.path, via.transport, via.logFailed, via.clientIP, id, msg, recordAt))
    else db
  }

  /** Drop suppressed recipients, deliver to the rest if any is left, and answer. */
  method Answer(gate: Gate, via: Ingress, id: Id, msg: Message, lookupOk: nat -> bool,
                answer: SendResult, recordAt: int, outcomeAt: int, disk: Disk)
    returns (status: int)
    requires via.Http?
    modifies gate, gate.store
    ensures var db := old(DbOf(gate));
            var to := Remaining(msg.to, KeepFor(old(ActiveDb(gate)), msg.to, lookupOk));
            var working := old(Works(gate, msg.to, lookupOk));
            && status == StatusFor(db, working, via, id, to, answer, disk)
            && gate.healthy == HealthyAfter(db, working, via, id, to, answer, disk)
            && DbOf(gate) == DbAfter(db, working, via, id, msg.(to := to), answer, recordAt, outcomeAt, disk)
  {
    hide IsSuppressed, KeepFor, Remaining, Settled, VerdictOf, StaysHealthy;
    var to, suppressed := FilterSuppressed(gate, msg.to, lookupOk);
    if to == [] {
      if gate.healthy {
        var row := SuppressedRow(via.path, via.transport, via.logFailed, via.clientIP, id, msg, recordAt);
        var logged := gate.store.RecordSubmission(row, disk.recordOk);
        if !logged { gate.ReportError(); }
      }
      return 200;
    }
    var verdict := Deliver(gate, via, id, msg.(to := to), answer, recordAt, outcomeAt, disk);
    return HttpStatus(verdict, true);
  }

  /** A request that has claimed its key: answer it, and finish with the cache, on the one
      gate that both share. `body` is the response text for each status. */
  method ServeClaimed(gate: Gate, cache: Idempotency.Durable, key: Key, via: Ingress, id: Id, msg: Message, lookupOk: nat -> bool,
                      answer: SendResult, recordAt: int, outcomeAt: int, disk: Disk, body: int -> seq<bv8>, contentType: string,
                      now: int, storeOk: bool)
    returns (status: int)
    requires cache.gate == gate && via.Http?
    modifies gate, gate.store, cache, cache.store
    ensures var db := old(DbOf(gate));
            var to := Remaining(msg.to, KeepFor(old(ActiveDb(gate)), msg.to, lookupOk));
            var working := old(Works(gate, msg.to, lookupOk));
            var healthy := HealthyAfter(db, working, via, id, to, answer, disk);
            var finish := Finalize(key, Response(status, body(status), contentType));
            && status == StatusFor(db, working, via, id, to, answer, disk)
            && DbOf(gate) == DbAfter(db, working, via, id, msg.(to := to), answer, recordAt, outcomeAt, disk)
            && cache.State() == DurableStep(cache.endpoint, cache.ttl, old(cache.State()), finish, now, healthy && storeOk).0
            && (gate.healthy <==> healthy && (storeOk || (status != 200 && status != 422)))
  {
    hide ActiveDb, KeepFor, Works, Remaining, StatusFor, HealthyAfter, DbAfter;
    status := Answer(gate, via, id, msg, lookupOk, answer, recordAt, outcomeAt, disk);
    assert cache.State() == old(cache.State());
    if IsKept(status) {
      cache.Store(key, Response(status, body(status), contentType), now, storeOk);
    } else {
      cache.Abandon(key);
    }
  }

  /** The API's answer: 200 if there was nobody left to send to or the provider accepted, 202
      if the message is in the retry queue, and 502 otherwise; a request whose recipients
      are all suppressed leaves a row that says so, with its content if the endpoint logs
      it. */
  lemma AnswerIs(db: Db, working: bool, via: Ingress, id: Id, msg: Message, answer: SendResult, recordAt: int, outcomeAt: int, disk: Disk)
    requires via.Http? && id !in db.submissions && id !in db.queue
    ensures var status := StatusFor(db, working, via, id, msg.to, answer, disk);
            var after := DbAfter(db, working, via, id, msg, answer, recordAt, outcomeAt, disk);
            && (status == 200 <==> msg.to == [] || answer.Took?)
            && (status == 202 <==> id in after.queue)
            && (status == 200 || status == 202 || status == 502)
            && (msg.to == [] && working && disk.recordOk ==>
                  && id in after.submissions
                  && var row := after.submissions[id];
                     && row.status == Suppressed && row.endpoint == via.path && row.transport == via.transport
                     && row.toAddrs == [] && row.createdAt == Unix(recordAt) && row.sentAt == None && row.messageID == row.lastError == ""
                     && (via.logFailed ==> row.from == msg.from && row.subject == msg.subject && row.bodyText == msg.bodyText
                                           && row.bodyHTML == msg.bodyHTML && row.fields == msg.fields && row.clientIP == via.clientIP)
                     && (!via.logFailed ==> row.from == row.subject == row.bodyText == row.bodyHTML == row.clientIP == "" && row.fields == map[]))
            && (!working ==> after == db)
  {
    hide Unix;
    if msg.to != [] {
      QueuedIffRowCommitted(db, working, via, id, msg.(submissionID := id), answer, recordAt, outcomeAt, disk);
      SettledIgnoresId(db, via, id, msg, answer, recordAt, outcomeAt, disk);
    }
    hide Settled, VerdictOf;
  }

  /** The row's id is the delivery's, whatever id the message names. */
  lemma SettledIgnoresId(db: Db, via: Ingress, id: Id, msg: Message, answer: SendResult, recordAt: int, outcomeAt: int, disk: Disk)
    ensures Settled(db, via, id, msg.(submissionID := id), answer, recordAt, outcomeAt, disk)
            == Settled(db, via, id, msg, answer, recordAt, outcomeAt, disk)
  {
  }

  /** With storage attached, an API client that repeats a request with the same key is
      answered from the file exactly when its message was sent at once, or had no
      recipient left to send to, and every write on the way went through (one failed
      write turns the gate off, and with it the cache), and the response is still
      readable and alive. Otherwise the repetition is a new claim and a new send: after
      202 "queued" always, although the queued message is still going to be sent, and
      after 200 when the disk failed. `to` is what the suppression check left. */
  lemma RepeatedRequestIsReplayedIff(endpoint: string, ttl: int, d: DurableState, key: Key, body: seq<bv8>, contentType: string,
                                     claimed: int, now: int, later: int, claimWorks: bool, storeOk: bool, works: bool,
                                     db: Db, working: bool, via: Ingress, id: Id, to: seq<string>, answer: SendResult, disk: Disk)
    requires key !in d.inflight && GetLive(d.table, key, endpoint, claimed).None? && claimed <= later
    ensures var resp := Response(StatusFor(db, working, via, id, to, answer, disk), body, contentType);
            var healthy := HealthyAfter(db, working, via, id, to, answer, disk);
            var held := DurableStep(endpoint, ttl, d, ClaimInFlight(key), claimed, claimWorks).0;
            var done := DurableStep(endpoint, ttl, held, Finalize(key, resp), now, healthy && storeOk).0;
            var replayed := (to == [] || answer.Took?) && healthy && storeOk && works && Unix(later) < Unix(now + ttl);
            && (DurableStep(endpoint, ttl, done, Lookup(key), later, works).1 == Replay(resp) <==> replayed)
            && (DurableStep(endpoint, ttl, done, ClaimInFlight(key), later, works).1 == Claimed <==> !replayed)
  {
    hide DurableStep, HealthyAfter;
    var healthy := HealthyAfter(db, working, via, id, to, answer, disk);
    var resp := Response(StatusFor(db, working, via, id, to, answer, disk), body, contentType);
    OnlyOkAndInvalidAreReplayed(endpoint, ttl, d, key, resp, claimed, now, later, claimWorks, healthy && storeOk, works);
  }

  /** Without storage no message is ever queued, and the in-memory cache replays exactly
      the requests whose message was sent. */
  lemma RepeatedRequestWithoutStorage(l: Idempotency.Limits, c: CacheState, key: Key, body: seq<bv8>, contentType: string,
                                      claimed: int, now: int, later: int, via: Ingress, id: Id, answer: SendResult, disk: Disk)
    requires CacheValid(l, c) && key !in c.inflight && Live(c, key, claimed).None? && claimed <= later
    ensures var verdict := VerdictOf(Db(map[], map[], map[]), false, via, id, answer, disk);
            var resp := Response(HttpStatus(verdict, true), body, contentType);
            var done := CacheStep(l, CacheStep(l, c, ClaimInFlight(key), claimed).0, Finalize(key, resp), now).0;
            var replayed := answer.Took? && later < now + l.ttl;
            && !verdict.QueuedForRetry?
            && (CacheStep(l, done, Lookup(key), later).1 == Replay(resp) <==> replayed)
            && (CacheStep(l, done, ClaimInFlight(key), later).1 == Claimed <==> !replayed)
  {
    hide CacheStep;
    var verdict := VerdictOf(Db(map[], map[], map[]), false, via, id, answer, disk);
    OnlyOkAndInvalidAreReplayedInMemory(l, c, key, Response(HttpStatus(verdict, true), body, contentType), claimed, now, later);
  }

  /** Seen from the queue, on a healthy disk throughout: told 202, the client repeats its request,
      is granted the key again and told 202 again, and now two copies of one message are
      pending in the retry queue under two ids. */
  lemma QueuedRequestIsQueuedTwice(endpoint: string, ttl: int, d: DurableState, key: Key, body: seq<bv8>, contentType: string,
                                   claimed: int, now: int, later: int, db: Db, via: Ingress, msg: Message,
                                   first: Id, second: Id, answer: SendResult, again: SendResult, at: int, at': int)
    requires key !in d.inflight && GetLive(d.table, key, endpoint, claimed).None? && claimed <= later
    requires via.Http? && via.logFailed && msg.headers == []
    requires first != second && first !in db.submissions && second !in db.submissions && first !in db.queue && second !in db.queue
    requires Classify(answer).Retryable? && Classify(again).Retryable?
    ensures var fine := Disk(true, true, true);
            var resp := Response(HttpStatus(VerdictOf(db, true, via, first, answer, fine), true), body, contentType);
            var held := DurableStep(endpoint, ttl, d, ClaimInFlight(key), claimed, true).0;
            var done := DurableStep(endpoint, ttl, held, Finalize(key, resp), now, true).0;
            var once := Settled(db, via, first, msg.(submissionID := first), answer, at, at, fine);
            var twice := Settled(once, via, second, msg.(submissionID := second), again, at', at', fine);
            && resp.status == 202
            && DurableStep(endpoint, ttl, done, Lookup(key), later, true).1 == Miss
            && DurableStep(endpoint, ttl, done, ClaimInFlight(key), later, true).1 == Claimed
            && HttpStatus(VerdictOf(once, true, via, second, again, fine), true) == 202
            && PendingInQueue(twice, first) && Rebuild(twice.submissions[first]) == msg.(submissionID := first)
            && PendingInQueue(twice, second) && Rebuild(twice.submissions[second]) == msg.(submissionID := second)
  {
    var fine := Disk(true, true, true);
    OnlyOkAndInvalidAreReplayed(endpoint, ttl, d, key, Response(202, body, contentType), claimed, now, later, true, true, true);
    hide DurableStep;
    var once := Settled(db, via, first, msg.(submissionID := first), answer, at, at, fine);
    QueuedOnce(db, via, first, msg.(submissionID := first), answer, at);
    QueuedOnce(once, via, second, msg.(submissionID := second), again, at');
  }

  /** A retryable answer on a healthy disk leaves the message in the queue and every other
      submission as it was. */
  lemma QueuedOnce(db: Db, via: Ingress, id: Id, msg: Message, answer: SendResult, at: int)
    requires id !in db.submissions && id !in db.queue && QueueEligible(via) && IngressShape(via, id, msg) && Classify(answer).Retryable?
    ensures var fine := Disk(true, true, true);
            var after := Settled(db, via, id, msg, answer, at, at, fine);
            && VerdictOf(db, true, via, id, answer, fine) == QueuedForRetry
            && PendingInQueue(after, id) && Rebuild(after.submissions[id]) == msg
            && (forall x :: x != id ==> (x in after.submissions <==> x in db.submissions) && (x in after.queue <==> x in db.queue))
            && (forall x :: x != id && x in db.submissions ==> after.submissions[x] == db.submissions[x])
            && (forall x :: x != id && x in db.queue ==> after.queue[x] == db.queue[x])
  {
    RebuildInvertsStore(via, id, msg, at);
    hide PreSendRow, Unix;
  }
}
