/** packages/bonds-eventing/src/emit-events.ts: the retry loop of one post and the pool that posts all events. */
module EmitEvents {
  import opened Wrappers

  /** What one POST meets: an accepted response, another status, or an exception. */
  datatype Response = Ok | HttpError(status: int) | NetworkError

  datatype EmitStatus = Sent | Failed

  /** Client errors are final, except 429. */
  predicate Retryable(r: Response) {
    match r
    case Ok => false
    case HttpError(status) => !(400 <= status < 500) || status == 429
    case NetworkError => true
  }

  /** No answer, or a status that may be another one next time: 429, or none of 400 to 499. */
  predicate IsTransient(r: Response) {
    r.NetworkError? || (r.HttpError? && (r.status < 400 || r.status == 429 || r.status >= 500))
  }

  predicate IsClientError(r: Response) {
    r.HttpError? && 400 <= r.status <= 499 && r.status != 429
  }

  /** Whether one of the attempts `0..max` is accepted before any is refused for good. */
  ghost predicate Accepted(respond: nat -> Response, max: nat) {
    exists k: nat :: k <= max && respond(k) == Ok && forall j: nat :: j < k ==> Retryable(respond(j))
  }

  /** `postEvent`: the result, and how many attempts were made for it. */
  method PostEvent(respond: nat -> Response, retryMaxAttempts: nat) returns (status: EmitStatus, attempts: nat)
    ensures status == Sent <==> Accepted(respond, retryMaxAttempts)
    ensures 1 <= attempts <= retryMaxAttempts + 1
    ensures forall j: nat :: j < attempts - 1 ==> Retryable(respond(j))
    ensures Retryable(respond(attempts - 1)) ==> attempts == retryMaxAttempts + 1
    ensures status == Sent <==> respond(attempts - 1) == Ok
    ensures forall j: nat :: j < attempts - 1 ==> IsTransient(respond(j))
    ensures status == Failed && attempts <= retryMaxAttempts ==> IsClientError(respond(attempts - 1))
  {
    attempts := 0;
    while attempts <= retryMaxAttempts
      invariant attempts <= retryMaxAttempts + 1
      invariant forall j: nat :: j < attempts ==> Retryable(respond(j))
    {
      var response := respond(attempts);
      attempts := attempts + 1;
      if response == Ok {
        return Sent, attempts;
      }
      if !Retryable(response) {
        return Failed, attempts;
      }
    }
    return Failed, attempts;
  }

  /** The indices `from..to`. */
  function Range(from: nat, to: nat): seq<nat>
    requires from <= to
  {
    seq(to - from, i requires 0 <= i < to - from => from + i)
  }

  lemma RangeStep(k: nat, total: nat)
    requires k < total
    ensures Range(k, total)[0] == k && Range(k, total)[1..] == Range(k + 1, total)
    ensures Range(0, k) + [k] == Range(0, k + 1)
  {
  }

  /** The pool over the events `0..total`. `pending` is the set of posts whose promise is still open; the event loop
      settles them in an order of its own. */
  class Pool {
    const total: nat
    const concurrency: nat
    var queue: seq<nat>
    var inFlight: int
    var results: map<nat, EmitStatus>
    var resolved: bool
    var pending: set<nat>
    var posted: seq<nat>

    /** Every event is in exactly one of queue, flight and results; it was posted once if it left the queue. */
    ghost predicate Valid()
      reads this
    {
      && |posted| <= total && concurrency >= 1
      && posted == Range(0, |posted|) && queue == Range(|posted|, total)
      && pending !! results.Keys
      && (forall i: nat :: i in pending || i in results <==> i < |posted|)
      && inFlight == |pending| && inFlight <= concurrency
      && (resolved ==> |posted| == total && pending == {})
    }

    /** Between two callbacks the pool is as full as it can be, and resolved exactly when all is done. */
    ghost predicate Settled()
      reads this
    {
      && Valid()
      && (queue == [] || inFlight == concurrency)
      && (resolved <==> queue == [] && pending == {})
    }

    constructor (total: nat, concurrency: nat)
      requires concurrency >= 1
      ensures Valid() && this.total == total && this.concurrency == concurrency
      ensures posted == [] && results == map[] && !resolved && |queue| == total && pending == {}
    {
      this.total, this.concurrency := total, concurrency;
      queue, inFlight, results, resolved := Range(0, total), 0, map[], false;
      pending, posted := {}, [];
    }

    /** Takes one event off the queue and posts it. */
    method PostNext()
      requires Valid() && inFlight < concurrency && |queue| > 0
      modifies this
      ensures Valid() && results == old(results) && resolved == old(resolved)
      ensures posted == old(posted) + [old(queue[0])] && pending == old(pending) + {old(queue[0])}
      ensures queue == old(queue[1..])
    {
      var event := queue[0];
      RangeStep(|posted|, total);
      queue := queue[1..];
      inFlight := inFlight + 1;
      pending := pending + {event};
      posted := posted + [event];
    }

    /** `next`: fills the flight from the queue. */
    method Next()
      requires Valid()
      modifies this
      ensures Settled() && results == old(results)
      ensures old(posted) <= posted && old(pending) <= pending
      ensures |queue| + |pending| == old(|queue| + |pending|)
    {
      while inFlight < concurrency && |queue| > 0
        invariant Valid() && results == old(results) && resolved == old(resolved)
        invariant old(posted) <= posted && old(pending) <= pending
        invariant |queue| + |pending| == old(|queue| + |pending|)
        decreases |queue|
      {
        PostNext();
      }
      if |queue| == 0 && inFlight == 0 {
        resolved := true;
      }
    }

    /** The callback of one post. */
    method OnPosted(event: nat, status: EmitStatus)
      requires Settled() && event in pending
      modifies this
      ensures Settled() && results == old(results)[event := status]
      ensures old(posted) <= posted
      ensures |queue| + |pending| == old(|queue| + |pending|) - 1
    {
      results := results[event := status];
      pending := pending - {event};
      inFlight := inFlight - 1;
      if |queue| == 0 && inFlight == 0 {
        resolved := true;
      } else {
        Next();
      }
    }
  }

  /** The naturals below `k`. */
  ghost function Below(k: nat): set<nat> {
    if k == 0 then {} else Below(k - 1) + {k - 1}
  }

  lemma {:induction false} BelowCount(k: nat)
    ensures |Below(k)| == k
    ensures forall i: nat :: i in Below(k) <==> i < k
  {
    if k > 0 {
      BelowCount(k - 1);
    }
  }

  /** Queued, in flight and finished always add up to the events given. */
  lemma NothingLost(pool: Pool)
    requires pool.Valid()
    ensures |pool.queue| + pool.inFlight + |pool.results| == pool.total
  {
    BelowCount(|pool.posted|);
    assert pool.pending + pool.results.Keys == Below(|pool.posted|);
    assert |pool.pending + pool.results.Keys| == |pool.pending| + |pool.results.Keys|;
  }

  /** Progress: between callbacks an unresolved pool has a post in flight, and a resolved one has every result. */
  lemma PoolProgresses(pool: Pool)
    requires pool.Settled()
    ensures !pool.resolved ==> pool.pending != {} && 0 < pool.inFlight <= pool.concurrency
    ensures pool.resolved <==> |pool.results| == pool.total
    ensures pool.resolved ==> pool.posted == Range(0, pool.total)
  {
    NothingLost(pool);
    if pool.inFlight == 0 {
      assert pool.pending == {};
    }
  }

  datatype EmitConfig = EmitConfig(dryRun: bool, hasApiUrl: bool, retryMaxAttempts: nat, emitConcurrency: nat)

  /** The result of event `i` as the configuration and the API's responses determine it. */
  ghost predicate Delivered(config: EmitConfig, respond: nat -> (nat -> Response), i: nat) {
    config.dryRun || (config.hasApiUrl && Accepted(respond(i), config.retryMaxAttempts))
  }

  /** The events that are posted, once each and in order: none in a dry run or without an API, else all. */
  function Posts(config: EmitConfig, n: nat): seq<nat> {
    if config.dryRun || !config.hasApiUrl then [] else Range(0, n)
  }

  /** `emitEvents` over `n` events: whichever order the posts complete in, every event gets its result and no other, and
      none is posted twice. `posted` lists the posts in the order in which they were started. */
  method Emit(n: nat, config: EmitConfig, respond: nat -> (nat -> Response))
    returns (results: map<nat, EmitStatus>, ghost posted: seq<nat>)
    requires config.emitConcurrency >= 1
    ensures forall i: nat :: i in results <==> i < n
    ensures forall i: nat :: i in results ==> (results[i] == Sent <==> Delivered(config, respond, i))
    ensures posted == Posts(config, n)
    ensures config.dryRun ==> posted == [] && forall i: nat :: i < n ==> results[i] == Sent
    ensures !config.dryRun && !config.hasApiUrl ==> posted == [] && forall i: nat :: i < n ==> results[i] == Failed
    ensures !config.dryRun && config.hasApiUrl ==> |posted| == n && forall i: nat :: i < n ==> posted[i] == i
  {
    results, posted := map[], [];
    if n == 0 {
      return;
    }
    if config.dryRun || !config.hasApiUrl {
      for i := 0 to n
        invariant forall j: nat :: j in results <==> j < i
        invariant forall j: nat :: j in results ==> results[j] == if config.dryRun then Sent else Failed
      {
        results := results[i := if config.dryRun then Sent else Failed];
      }
      return;
    }
    results, posted := RunPool(n, config, respond);
  }

  method RunPool(n: nat, config: EmitConfig, respond: nat -> (nat -> Response))
    returns (results: map<nat, EmitStatus>, ghost posted: seq<nat>)
    requires config.emitConcurrency >= 1
    ensures forall i: nat :: i in results <==> i < n
    ensures forall i: nat :: i in results ==> (results[i] == Sent <==> Accepted(respond(i), config.retryMaxAttempts))
    ensures posted == Range(0, n)
  {
    var pool := new Pool(n, config.emitConcurrency);
    pool.Next();
    ghost var open := n;
    while !pool.resolved
      invariant fresh(pool) && pool.Settled() && pool.total == n
      invariant forall i: nat :: i in pool.results ==>
                  (pool.results[i] == Sent <==> Accepted(respond(i), config.retryMaxAttempts))
      invariant open == |pool.queue| + |pool.pending|
      decreases open
    {
      var event: nat :| event in pool.pending;
      var status, _ := PostEvent(respond(event), config.retryMaxAttempts);
      pool.OnPosted(event, status);
      open := |pool.queue| + |pool.pending|;
    }
    results, posted := pool.results, pool.posted;
  }
}
