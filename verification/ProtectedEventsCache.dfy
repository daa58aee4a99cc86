/** api/src/repositories/protected_events.rs: the cache of protected events, its hourly incremental updater and its
    daily purger, which share it behind a lock taken for one read or one write at a time. */
module ProtectedEventsCaches {
  import opened Wrappers
  import opened Bytes
  import opened Sums

  datatype ProtectedEventRecord = ProtectedEventRecord(
    epoch: u64,
    amount: u64,
    voteAccount: Pubkey,
    meta: string,
    reason: string,
    bondType: string,
    product: string)

  /** The loaded records, none before the first load. */
  function Loaded(records: Option<seq<ProtectedEventRecord>>): seq<ProtectedEventRecord> {
    records.GetOr([])
  }

  function MaxEpoch(records: seq<ProtectedEventRecord>): nat {
    if records == [] then 0 else Max(MaxEpoch(records[..|records| - 1]), records[|records| - 1].epoch)
  }

  function Below(max: nat): ProtectedEventRecord -> bool {
    (r: ProtectedEventRecord) => r.epoch < max
  }

  /** The loaded records below `max`, followed by what was fetched from `max` on. */
  function Merge(records: seq<ProtectedEventRecord>, max: nat,
                 fetched: seq<ProtectedEventRecord>): seq<ProtectedEventRecord> {
    Filter(Below(max), records) + fetched
  }

  class ProtectedEventsCache {
    var records: Option<seq<ProtectedEventRecord>>

    constructor ()
      ensures records == None
    {
      records := None;
    }

    /** The updater's first read. */
    method MaxLoadedEpoch() returns (max: nat)
      ensures max == MaxEpoch(Loaded(records))
      ensures forall r :: r in Loaded(records) ==> r.epoch <= max
      ensures max > 0 ==> exists r :: r in Loaded(records) && r.epoch == max
    {
      var loaded := Loaded(records);
      max := 0;
      for k := 0 to |loaded|
        invariant max == MaxEpoch(loaded[..k])
      {
        assert loaded[..k + 1][..k] == loaded[..k];
        max := Max(max, loaded[k].epoch);
      }
      assert loaded[..|loaded|] == loaded;
      MaxEpochIsMaximum(loaded);
    }

    /** The updater's second read. */
    method ReadAndMerge(max: nat, fetched: seq<ProtectedEventRecord>) returns (merged: seq<ProtectedEventRecord>)
      ensures merged == Merge(Loaded(records), max, fetched)
      ensures |fetched| <= |merged| && merged[|merged| - |fetched|..] == fetched
      ensures forall r :: r in merged[..|merged| - |fetched|] <==> r in Loaded(records) && r.epoch < max
    {
      var loaded := Loaded(records);
      var below := Below(max);
      merged := [];
      for k := 0 to |loaded|
        invariant merged == Filter(below, loaded[..k])
      {
        assert loaded[..k + 1] == loaded[..k] + [loaded[k]];
        FilterSnoc(below, loaded[..k], loaded[k]);
        if loaded[k].epoch < max {
          merged := merged + [loaded[k]];
        }
      }
      assert loaded[..|loaded|] == loaded;
      ghost var kept := merged;
      merged := merged + fetched;
      assert merged[..|merged| - |fetched|] == kept && merged[|merged| - |fetched|..] == fetched;
      forall r
        ensures r in kept <==> r in loaded && r.epoch < max
      {
        FilterMembers(below, loaded, r);
      }
    }

    /** The purger's and the updater's write. */
    method Replace(rows: seq<ProtectedEventRecord>)
      modifies this
      ensures records == Some(rows)
    {
      records := Some(rows);
    }

    /** One round of the updater's loop with nothing in between; `fetch` answers a query or fails. A failure leaves the
        cache; an answer from `table` makes it that table exactly when it was the table below its largest epoch. */
    method Update(fetch: nat -> Option<seq<ProtectedEventRecord>>, ghost table: multiset<ProtectedEventRecord>)
      modifies this
      ensures var loaded, answer := Loaded(old(records)), fetch(MaxEpoch(Loaded(old(records))));
              && (answer.None? ==> records == old(records))
              && (answer.Some? && Answers(answer.value, table, MaxEpoch(loaded)) ==>
                    && records.Some?
                    && (multiset(records.value) == table <==>
                          forall r: ProtectedEventRecord :: r.epoch < MaxEpoch(loaded) ==>
                            multiset(loaded)[r] == table[r]))
      ensures var answer := fetch(MaxEpoch(Loaded(old(records))));
              answer.Some? ==> records == Some(Merge(Loaded(old(records)), MaxEpoch(Loaded(old(records))),
                                                     answer.value))
    {
      var max := MaxLoadedEpoch();
      var fetched := fetch(max);
      if fetched.Some? {
        var merged := ReadAndMerge(max, fetched.value);
        if Answers(fetched.value, table, max) {
          MergeIsRefetch(Loaded(records), max, fetched.value, table);
        }
        Replace(merged);
      }
    }

    /** One round of the purger's loop: an answer from `table` makes the cache that table, whatever it was. */
    method Purge(fetch: nat -> Option<seq<ProtectedEventRecord>>, ghost table: multiset<ProtectedEventRecord>)
      modifies this
      ensures fetch(0).None? ==> records == old(records)
      ensures fetch(0).Some? && Answers(fetch(0).value, table, 0) ==> records.Some? && multiset(records.value) == table
      ensures fetch(0).Some? ==> records == fetch(0)
    {
      var fetched := fetch(0);
      if fetched.Some? {
        if Answers(fetched.value, table, 0) {
          FullAnswer(fetched.value, table);
        }
        Replace(fetched.value);
      }
    }
  }

  lemma {:induction false} MaxEpochIsMaximum(records: seq<ProtectedEventRecord>)
    ensures forall r :: r in records ==> r.epoch <= MaxEpoch(records)
    ensures MaxEpoch(records) > 0 ==> exists r :: r in records && r.epoch == MaxEpoch(records)
  {
    if records != [] {
      var front, last := records[..|records| - 1], records[|records| - 1];
      MaxEpochIsMaximum(front);
      assert records == front + [last];
      assert last in records;
      if last.epoch < MaxEpoch(front) {
        var r :| r in front && r.epoch == MaxEpoch(front);
        assert r in records;
      }
    }
  }

  // ------------------------------------------------------- the two loops, interleaved

  /** The upstream table over time. */
  type Upstream = nat -> multiset<ProtectedEventRecord>

  /** Rows below an epoch that has been seen never change. */
  ghost predicate Stable(upstream: Upstream) {
    forall i: nat, j: nat, r: ProtectedEventRecord, seen: ProtectedEventRecord ::
      i <= j && seen in upstream(i) && r.epoch < seen.epoch ==> upstream(i)[r] == upstream(j)[r]
  }

  datatype Updater =
    | Reading
    | Fetching(max: nat)
    | Merging(max: nat, fetched: seq<ProtectedEventRecord>)
    | Writing(merged: seq<ProtectedEventRecord>)

  datatype Purger = Waiting | Purging(rows: seq<ProtectedEventRecord>)

  /** `now` is the version of the upstream table; the last four are the versions that the cache, the updater's read,
      its fetch and the purger's fetch go back to, and no step depends on them. */
  datatype State = State(
    cache: Option<seq<ProtectedEventRecord>>,
    updater: Updater,
    purger: Purger,
    now: nat,
    cacheAt: nat,
    readAt: nat,
    fetchedAt: nat,
    purgedAt: nat)

  datatype Step =
    | UpstreamChanges
    | UpdaterReads
    | UpdaterFetches(rows: seq<ProtectedEventRecord>)
    | UpdaterFails
    | UpdaterMerges
    | UpdaterWrites
    | PurgerFetches(rows: seq<ProtectedEventRecord>)
    | PurgerFails
    | PurgerWrites

  const START := State(None, Reading, Waiting, 0, 0, 0, 0, 0)

  /** `rows` is a query's answer, in some order: the rows of `table` from `epoch` on. */
  ghost predicate Answers(rows: seq<ProtectedEventRecord>, table: multiset<ProtectedEventRecord>, epoch: nat) {
    forall r :: multiset(rows)[r] == if r.epoch < epoch then 0 else table[r]
  }

  ghost predicate Enabled(upstream: Upstream, s: State, step: Step) {
    match step
    case UpstreamChanges => true
    case UpdaterReads => s.updater.Reading?
    case UpdaterFetches(rows) => s.updater.Fetching? && Answers(rows, upstream(s.now), s.updater.max)
    case UpdaterFails => s.updater.Fetching?
    case UpdaterMerges => s.updater.Merging?
    case UpdaterWrites => s.updater.Writing?
    case PurgerFetches(rows) => s.purger.Waiting? && Answers(rows, upstream(s.now), 0)
    case PurgerFails => s.purger.Waiting?
    case PurgerWrites => s.purger.Purging?
  }

  ghost function Apply(upstream: Upstream, s: State, step: Step): State
    requires Enabled(upstream, s, step)
  {
    match step
    case UpstreamChanges => s.(now := s.now + 1)
    case UpdaterReads => s.(updater := Fetching(MaxEpoch(Loaded(s.cache))), readAt := s.cacheAt)
    case UpdaterFetches(rows) => s.(updater := Merging(s.updater.max, rows), fetchedAt := s.now)
    case UpdaterFails => s.(updater := Reading)
    case UpdaterMerges => s.(updater := Writing(Merge(Loaded(s.cache), s.updater.max, s.updater.fetched)))
    case UpdaterWrites => s.(updater := Reading, cache := Some(s.updater.merged), cacheAt := s.fetchedAt)
    case PurgerFetches(rows) => s.(purger := Purging(rows), purgedAt := s.now)
    case PurgerFails => s
    case PurgerWrites => s.(purger := Waiting, cache := Some(s.purger.rows), cacheAt := s.purgedAt)
  }

  ghost predicate Moves(upstream: Upstream, s: State, step: Step, s': State) {
    Enabled(upstream, s, step) && s' == Apply(upstream, s, step)
  }

  /** A purge writes a snapshot older than the one the updater has read and is about to merge into. */
  predicate Stale(s: State, step: Step) {
    step.PurgerWrites? && (s.updater.Fetching? || s.updater.Merging?) && s.purgedAt < s.readAt
  }

  /** `trace` is a run of the two loops from the start. */
  ghost predicate IsRun(upstream: Upstream, trace: seq<State>, steps: seq<Step>) {
    && |trace| == |steps| + 1 && trace[0] == START
    && forall k :: 0 <= k < |steps| ==> Moves(upstream, trace[k], steps[k], trace[k + 1])
  }

  /** No purge from step `from` on is stale. */
  ghost predicate NoStalePurge(trace: seq<State>, steps: seq<Step>, from: nat)
    requires |trace| == |steps| + 1
  {
    forall k :: from <= k < |steps| ==> !Stale(trace[k], steps[k])
  }

  /** The merge that `s` is about to make gives the whole upstream table of its fetch. */
  ghost predicate MakesRefetch(upstream: Upstream, s: State)
    requires s.updater.Merging?
  {
    multiset(Merge(Loaded(s.cache), s.updater.max, s.updater.fetched)) == upstream(s.fetchedAt)
  }

  /** Below the epoch it fetched from, the snapshot that the cache now holds is the one that the updater read. */
  ghost predicate Agrees(upstream: Upstream, s: State)
    requires s.updater.Merging?
  {
    forall r: ProtectedEventRecord :: r.epoch < s.updater.max ==> upstream(s.cacheAt)[r] == upstream(s.readAt)[r]
  }

  /** What is in the cache and in flight are snapshots of the upstream table. */
  ghost predicate Inv(upstream: Upstream, s: State) {
    && s.cacheAt <= s.now
    && (s.cache.Some? ==> multiset(s.cache.value) == upstream(s.cacheAt))
    && (s.cache.None? ==> s.cacheAt == 0)
    && (s.purger.Purging? ==> s.purgedAt <= s.now && multiset(s.purger.rows) == upstream(s.purgedAt))
    && (s.updater.Fetching? || s.updater.Merging? ==>
          && s.readAt <= s.now
          && (s.updater.max > 0 ==>
                s.cache.Some? && exists seen :: seen in upstream(s.readAt) && seen.epoch == s.updater.max))
    && (s.updater.Merging? ==>
          s.readAt <= s.fetchedAt <= s.now && Answers(s.updater.fetched, upstream(s.fetchedAt), s.updater.max))
    && (s.updater.Writing? ==> s.fetchedAt <= s.now && multiset(s.updater.merged) == upstream(s.fetchedAt))
  }

  lemma FullAnswer(rows: seq<ProtectedEventRecord>, table: multiset<ProtectedEventRecord>)
    requires Answers(rows, table, 0)
    ensures multiset(rows) == table
  {
    assert forall r :: multiset(rows)[r] == table[r];
  }

  lemma MergeCounts(cached: seq<ProtectedEventRecord>, max: nat, fetched: seq<ProtectedEventRecord>,
                    r: ProtectedEventRecord)
    ensures multiset(Merge(cached, max, fetched))[r]
         == (if r.epoch < max then multiset(cached)[r] else 0) + multiset(fetched)[r]
  {
    FilterMultiset(Below(max), cached, r);
  }

  /** When a merge is a full refetch: exactly when, below the epoch fetched from, what is cached is the table. */
  lemma MergeIsRefetch(cached: seq<ProtectedEventRecord>, max: nat, fetched: seq<ProtectedEventRecord>,
                       table: multiset<ProtectedEventRecord>)
    requires Answers(fetched, table, max)
    ensures multiset(Merge(cached, max, fetched)) == table
       <==> forall r: ProtectedEventRecord :: r.epoch < max ==> multiset(cached)[r] == table[r]
  {
    var merged := multiset(Merge(cached, max, fetched));
    forall r
      ensures merged[r] == if r.epoch < max then multiset(cached)[r] else table[r]
    {
      MergeCounts(cached, max, fetched, r);
    }
    if forall r: ProtectedEventRecord :: r.epoch < max ==> multiset(cached)[r] == table[r] {
      assert forall r :: merged[r] == table[r];
    }
  }

  /** The exact condition for one merge, in any state of snapshots. */
  lemma RefetchIffAgrees(upstream: Upstream, s: State)
    requires Stable(upstream) && Inv(upstream, s) && s.updater.Merging?
    ensures MakesRefetch(upstream, s) <==> Agrees(upstream, s)
  {
    var max := s.updater.max;
    if max > 0 {
      var seen :| seen in upstream(s.readAt) && seen.epoch == max;
      forall r: ProtectedEventRecord | r.epoch < max
        ensures upstream(s.readAt)[r] == upstream(s.fetchedAt)[r]
      {
      }
    }
    MergeIsRefetch(Loaded(s.cache), max, s.updater.fetched, upstream(s.fetchedAt));
  }

  /** Every other step, however the two loops interleave, keeps snapshots snapshots. */
  lemma StepKeepsInv(upstream: Upstream, s: State, step: Step)
    requires Inv(upstream, s) && Enabled(upstream, s, step)
    requires step.UpdaterMerges? ==> MakesRefetch(upstream, s)
    ensures Inv(upstream, Apply(upstream, s, step))
  {
    match step
    case PurgerFetches(rows) => FullAnswer(rows, upstream(s.now));
    case UpdaterReads =>
      MaxEpochIsMaximum(Loaded(s.cache));
      if MaxEpoch(Loaded(s.cache)) > 0 {
        var seen :| seen in Loaded(s.cache) && seen.epoch == MaxEpoch(Loaded(s.cache));
        assert seen in multiset(s.cache.value);
      }
    case _ =>
  }

  lemma StartHoldsSnapshots(upstream: Upstream)
    ensures Inv(upstream, START) && NotReadLater(START)
  {
  }

  /** At every merge of the steps from `from` to `k` the state it starts from has the property. */
  ghost predicate AtMerges(property: State -> bool, trace: seq<State>, steps: seq<Step>, from: nat, k: nat)
    requires k <= |steps| <= |trace|
  {
    forall j :: from <= j < k && steps[j].UpdaterMerges? ==> property(trace[j])
  }

  ghost function Refetching(upstream: Upstream): State -> bool {
    (s: State) => s.updater.Merging? && MakesRefetch(upstream, s)
  }

  ghost function Agreeing(upstream: Upstream): State -> bool {
    (s: State) => s.updater.Merging? && Agrees(upstream, s)
  }

  ghost function Snapshots(upstream: Upstream): State -> bool {
    (s: State) => Inv(upstream, s)
  }

  /** Every merge of these steps gives the whole upstream table of its fetch. */
  ghost predicate MergesRefetch(upstream: Upstream, trace: seq<State>, steps: seq<Step>, from: nat, k: nat)
    requires k <= |steps| <= |trace|
  {
    AtMerges(Refetching(upstream), trace, steps, from, k)
  }

  /** At every merge of these steps the cache agrees with what the updater read. */
  ghost predicate MergesAgree(upstream: Upstream, trace: seq<State>, steps: seq<Step>, from: nat, k: nat)
    requires k <= |steps| <= |trace|
  {
    AtMerges(Agreeing(upstream), trace, steps, from, k)
  }

  /** From a state with `inv` a merge refetches exactly if it agrees, and then it keeps `inv` as any other step does. */
  ghost predicate Keeps(inv: State -> bool, refetch: State -> bool, agree: State -> bool, s: State, step: Step,
                        s': State) {
    inv(s) ==>
      && (step.UpdaterMerges? ==> (refetch(s) <==> agree(s)))
      && ((step.UpdaterMerges? ==> agree(s)) ==> inv(s'))
  }

  lemma MoveKeeps(upstream: Upstream, s: State, step: Step, s': State)
    requires Stable(upstream) && Moves(upstream, s, step, s')
    ensures Keeps(Snapshots(upstream), Refetching(upstream), Agreeing(upstream), s, step, s')
  {
    if Inv(upstream, s) {
      if step.UpdaterMerges? {
        RefetchIffAgrees(upstream, s);
      }
      if step.UpdaterMerges? ==> Agrees(upstream, s) {
        StepKeepsInv(upstream, s, step);
      }
    }
  }

  lemma {:induction false} RefetchAlong(inv: State -> bool, refetch: State -> bool, agree: State -> bool,
                                        trace: seq<State>, steps: seq<Step>, from: nat, k: nat)
    requires |trace| == |steps| + 1 && from <= k <= |steps| && inv(trace[from])
    requires forall j :: 0 <= j < |steps| ==> Keeps(inv, refetch, agree, trace[j], steps[j], trace[j + 1])
    ensures AtMerges(refetch, trace, steps, from, k) <==> AtMerges(agree, trace, steps, from, k)
    ensures AtMerges(agree, trace, steps, from, k) ==> inv(trace[k])
  {
    if k > from {
      RefetchAlong(inv, refetch, agree, trace, steps, from, k - 1);
      assert Keeps(inv, refetch, agree, trace[k - 1], steps[k - 1], trace[k - 1 + 1]);
    }
  }

  /** When the incremental cache is as good as a full refetch, over whole runs, from the start or from any later state
      that holds snapshots: all merges are refetches if and only if all merges agree, and then everything held is a
      snapshot. */
  lemma MergesRefetchIffAgree(upstream: Upstream, trace: seq<State>, steps: seq<Step>, from: nat, k: nat)
    requires Stable(upstream) && IsRun(upstream, trace, steps) && from <= k <= |steps|
    requires Inv(upstream, trace[from])
    ensures MergesRefetch(upstream, trace, steps, from, k) <==> MergesAgree(upstream, trace, steps, from, k)
    ensures MergesAgree(upstream, trace, steps, from, k) ==> Inv(upstream, trace[k])
  {
    var inv, refetch, agree := Snapshots(upstream), Refetching(upstream), Agreeing(upstream);
    forall j | 0 <= j < |steps|
      ensures Keeps(inv, refetch, agree, trace[j], steps[j], trace[j + 1])
    {
      assert Moves(upstream, trace[j], steps[j], trace[j + 1]);
      MoveKeeps(upstream, trace[j], steps[j], trace[j + 1]);
    }
    RefetchAlong(inv, refetch, agree, trace, steps, from, k);
  }

  /** The updater holds nothing that it read later than the cache's snapshot. */
  predicate NotReadLater(s: State) {
    s.updater.Fetching? || s.updater.Merging? ==> s.readAt <= s.cacheAt
  }

  /** Without stale purges it stays so. */
  lemma {:induction false} CacheNotOlderThanRead(upstream: Upstream, trace: seq<State>, steps: seq<Step>, from: nat,
                                                 k: nat)
    requires IsRun(upstream, trace, steps) && from <= k <= |steps| && NoStalePurge(trace, steps, from)
    requires NotReadLater(trace[from])
    ensures NotReadLater(trace[k])
  {
    if k > from {
      CacheNotOlderThanRead(upstream, trace, steps, from, k - 1);
      assert Moves(upstream, trace[k - 1], steps[k - 1], trace[k - 1 + 1]);
      assert !Stale(trace[k - 1], steps[k - 1]);
    }
  }

  lemma NewerSnapshotAgrees(upstream: Upstream, s: State)
    requires Stable(upstream) && Inv(upstream, s) && s.updater.Merging? && s.readAt <= s.cacheAt
    ensures Agrees(upstream, s)
  {
    if s.updater.max > 0 {
      var seen :| seen in upstream(s.readAt) && seen.epoch == s.updater.max;
      forall r: ProtectedEventRecord | r.epoch < s.updater.max
        ensures upstream(s.cacheAt)[r] == upstream(s.readAt)[r]
      {
      }
    }
  }

  /** From a state with `inv` the step keeps it, and if it is a merge it agrees. */
  ghost predicate Safe(inv: State -> bool, agree: State -> bool, s: State, step: Step, s': State) {
    inv(s) ==> (step.UpdaterMerges? ==> agree(s)) && inv(s')
  }

  lemma MoveIsSafe(upstream: Upstream, s: State, step: Step, s': State)
    requires Stable(upstream) && Moves(upstream, s, step, s') && NotReadLater(s)
    ensures Safe(Snapshots(upstream), Agreeing(upstream), s, step, s')
  {
    MoveKeeps(upstream, s, step, s');
    if Inv(upstream, s) && step.UpdaterMerges? {
      NewerSnapshotAgrees(upstream, s);
    }
  }

  lemma {:induction false} SafeAlong(inv: State -> bool, agree: State -> bool, trace: seq<State>, steps: seq<Step>,
                                     from: nat, k: nat)
    requires |trace| == |steps| + 1 && from <= k <= |steps| && inv(trace[from])
    requires forall j :: from <= j < |steps| ==> Safe(inv, agree, trace[j], steps[j], trace[j + 1])
    ensures AtMerges(agree, trace, steps, from, k) && inv(trace[k])
  {
    if k > from {
      SafeAlong(inv, agree, trace, steps, from, k - 1);
      assert Safe(inv, agree, trace[k - 1], steps[k - 1], trace[k - 1 + 1]);
    }
  }

  /** A purge that is not stale does no harm: every merge agrees. */
  lemma FreshPurgesAgree(upstream: Upstream, trace: seq<State>, steps: seq<Step>, from: nat, k: nat)
    requires Stable(upstream) && IsRun(upstream, trace, steps) && from <= k <= |steps|
             && NoStalePurge(trace, steps, from)
    requires Inv(upstream, trace[from]) && NotReadLater(trace[from])
    ensures MergesAgree(upstream, trace, steps, from, k)
  {
    forall j | from <= j < |steps|
      ensures Safe(Snapshots(upstream), Agreeing(upstream), trace[j], steps[j], trace[j + 1])
    {
      assert Moves(upstream, trace[j], steps[j], trace[j + 1]);
      CacheNotOlderThanRead(upstream, trace, steps, from, j);
      MoveIsSafe(upstream, trace[j], steps[j], trace[j + 1]);
    }
    SafeAlong(Snapshots(upstream), Agreeing(upstream), trace, steps, from, k);
  }

  /** The step leaves in the cache what it should: after a write the cache is, as a multiset, the whole upstream table
      at the time of the fetch behind that write, and any other step leaves it as it is. */
  ghost predicate WritesRefetch(upstream: Upstream, before: State, step: Step, after: State) {
    && (step.UpdaterWrites? ==>
          after.cache.Some? && multiset(after.cache.value) == upstream(before.fetchedAt)
          && before.fetchedAt <= before.now)
    && (step.PurgerWrites? ==>
          after.cache.Some? && multiset(after.cache.value) == upstream(before.purgedAt)
          && before.purgedAt <= before.now)
    && (!step.UpdaterWrites? && !step.PurgerWrites? ==> after.cache == before.cache)
  }

  /** So as long as merges agree every write is a full refetch, whatever fetches fail. */
  lemma WritesAreRefetches(upstream: Upstream, trace: seq<State>, steps: seq<Step>, k: nat)
    requires Stable(upstream) && IsRun(upstream, trace, steps) && k < |steps|
             && MergesAgree(upstream, trace, steps, 0, k)
    ensures WritesRefetch(upstream, trace[k], steps[k], trace[k + 1])
  {
    StartHoldsSnapshots(upstream);
    MergesRefetchIffAgree(upstream, trace, steps, 0, k);
    assert Moves(upstream, trace[k], steps[k], trace[k + 1]);
  }

  /** In particular in every run without a stale purge. */
  lemma CacheIsRefetch(upstream: Upstream, trace: seq<State>, steps: seq<Step>, k: nat)
    requires Stable(upstream) && IsRun(upstream, trace, steps) && k < |steps| && NoStalePurge(trace, steps, 0)
    ensures WritesRefetch(upstream, trace[k], steps[k], trace[k + 1])
  {
    StartHoldsSnapshots(upstream);
    FreshPurgesAgree(upstream, trace, steps, 0, k);
    WritesAreRefetches(upstream, trace, steps, k);
  }

  /** What the purger holds is a snapshot in every run, whatever merges did. */
  lemma {:induction false} PurgerHoldsSnapshot(upstream: Upstream, trace: seq<State>, steps: seq<Step>, k: nat)
    requires IsRun(upstream, trace, steps) && k <= |steps|
    ensures var s := trace[k];
            s.purger.Purging? ==> s.purgedAt <= s.now && multiset(s.purger.rows) == upstream(s.purgedAt)
  {
    if k > 0 {
      PurgerHoldsSnapshot(upstream, trace, steps, k - 1);
      var s, step := trace[k - 1], steps[k - 1];
      assert Moves(upstream, s, step, trace[k - 1 + 1]);
      if step.PurgerFetches? {
        FullAnswer(step.rows, upstream(s.now));
      }
    }
  }

  /** So a write of the purger is the whole upstream table of its fetch in every run, and if it finds the updater at
      rest, everything held is a snapshot again. */
  lemma PurgeRestores(upstream: Upstream, trace: seq<State>, steps: seq<Step>, k: nat)
    requires IsRun(upstream, trace, steps) && k < |steps| && steps[k].PurgerWrites?
    ensures WritesRefetch(upstream, trace[k], steps[k], trace[k + 1])
    ensures trace[k].updater.Reading? ==> Inv(upstream, trace[k + 1]) && NotReadLater(trace[k + 1])
  {
    PurgerHoldsSnapshot(upstream, trace, steps, k);
    assert Moves(upstream, trace[k], steps[k], trace[k + 1]);
  }

  /** The harm of stale purges ends with the first purge that finds the updater at rest: from then on every write is a
      full refetch again, until another stale purge. */
  lemma PurgeEndsHarm(upstream: Upstream, trace: seq<State>, steps: seq<Step>, purge: nat, k: nat)
    requires Stable(upstream) && IsRun(upstream, trace, steps) && purge <= k < |steps|
    requires steps[purge].PurgerWrites? && trace[purge].updater.Reading? && NoStalePurge(trace, steps, purge + 1)
    ensures WritesRefetch(upstream, trace[k], steps[k], trace[k + 1])
  {
    PurgeRestores(upstream, trace, steps, purge);
    if purge < k {
      FreshPurgesAgree(upstream, trace, steps, purge + 1, k);
      MergesRefetchIffAgree(upstream, trace, steps, purge + 1, k);
      assert Moves(upstream, trace[k], steps[k], trace[k + 1]);
    }
  }

  /** An undisturbed round of the updater is four steps of the machine, and they leave what `Update` leaves. */
  lemma UpdateIsFourSteps(upstream: Upstream, s: State, rows: seq<ProtectedEventRecord>) returns (trace: seq<State>)
    requires s.updater.Reading? && Answers(rows, upstream(s.now), MaxEpoch(Loaded(s.cache)))
    ensures |trace| == 5 && trace[0] == s
    ensures Moves(upstream, trace[0], UpdaterReads, trace[1])
            && Moves(upstream, trace[1], UpdaterFetches(rows), trace[2])
    ensures Moves(upstream, trace[2], UpdaterMerges, trace[3]) && Moves(upstream, trace[3], UpdaterWrites, trace[4])
    ensures trace[4].cache == Some(Merge(Loaded(s.cache), MaxEpoch(Loaded(s.cache)), rows)) && trace[4].updater.Reading?
  {
    var s1 := Apply(upstream, s, UpdaterReads);
    var s2 := Apply(upstream, s1, UpdaterFetches(rows));
    var s3 := Apply(upstream, s2, UpdaterMerges);
    trace := [s, s1, s2, s3, Apply(upstream, s3, UpdaterWrites)];
  }

  /** And an undisturbed round of the purger is two. */
  lemma PurgeIsTwoSteps(upstream: Upstream, s: State, rows: seq<ProtectedEventRecord>) returns (trace: seq<State>)
    requires s.purger.Waiting? && Answers(rows, upstream(s.now), 0)
    ensures |trace| == 3 && trace[0] == s
    ensures Moves(upstream, trace[0], PurgerFetches(rows), trace[1])
            && Moves(upstream, trace[1], PurgerWrites, trace[2])
    ensures trace[2].cache == Some(rows) && multiset(rows) == upstream(s.now)
  {
    var s1 := Apply(upstream, s, PurgerFetches(rows));
    trace := [s, s1, Apply(upstream, s1, PurgerWrites)];
    FullAnswer(rows, upstream(s.now));
  }

  /** The upstream table of the witness: rows `a` and `b` of one epoch, `c` of the next; `b` comes along with `c`. */
  ghost function Growing(a: ProtectedEventRecord, b: ProtectedEventRecord, c: ProtectedEventRecord): Upstream {
    (n: nat) => if n == 0 then multiset{a} else multiset{a, b, c}
  }

  /** The purger fetches, the updater loads a newer table, and the purger writes while the updater extends it. */
  ghost function StaleSteps(a: ProtectedEventRecord, b: ProtectedEventRecord, c: ProtectedEventRecord): seq<Step> {
    [PurgerFetches([a]), UpstreamChanges,
     UpdaterReads, UpdaterFetches([a, b, c]), UpdaterMerges, UpdaterWrites,
     UpdaterReads, UpdaterFetches([c]), PurgerWrites, UpdaterMerges, UpdaterWrites]
  }

  /** The states of those steps: version 1 of the table, with the purger holding version 0. */
  ghost function StaleStates(a: ProtectedEventRecord, b: ProtectedEventRecord, c: ProtectedEventRecord): seq<State> {
    var full := [a, b, c];
    [START,
     State(None, Reading, Purging([a]), 0, 0, 0, 0, 0),
     State(None, Reading, Purging([a]), 1, 0, 0, 0, 0),
     State(None, Fetching(0), Purging([a]), 1, 0, 0, 0, 0),
     State(None, Merging(0, full), Purging([a]), 1, 0, 0, 1, 0),
     State(None, Writing(full), Purging([a]), 1, 0, 0, 1, 0),
     State(Some(full), Reading, Purging([a]), 1, 1, 0, 1, 0),
     State(Some(full), Fetching(c.epoch), Purging([a]), 1, 1, 1, 1, 0),
     State(Some(full), Merging(c.epoch, [c]), Purging([a]), 1, 1, 1, 1, 0),
     State(Some([a]), Merging(c.epoch, [c]), Waiting, 1, 0, 1, 1, 0),
     State(Some([a]), Writing([a, c]), Waiting, 1, 0, 1, 1, 0),
     State(Some([a, c]), Reading, Waiting, 1, 1, 1, 1, 0)]
  }

  /** The functions that the witness computes. */
  lemma StaleComputations(a: ProtectedEventRecord, b: ProtectedEventRecord, c: ProtectedEventRecord)
    requires a != b && a.epoch == b.epoch < c.epoch
    ensures MaxEpoch([a, b, c]) == c.epoch
    ensures Merge([], 0, [a, b, c]) == [a, b, c]
    ensures Merge([a], c.epoch, [c]) == [a, c]
  {
    MaxEpochIsMaximum([a, b, c]);
    assert c in [a, b, c];
    FilterSnoc(Below(c.epoch), [], a);
    assert [] + [a] == [a];
  }

  /** A table that changes once is stable if that change touches nothing below an epoch it had. */
  lemma OneChangeIsStable(upstream: Upstream, first: multiset<ProtectedEventRecord>,
                          later: multiset<ProtectedEventRecord>)
    requires forall n: nat :: upstream(n) == if n == 0 then first else later
    requires forall r: ProtectedEventRecord, seen: ProtectedEventRecord :: seen in first && r.epoch < seen.epoch ==>
               first[r] == later[r]
    ensures Stable(upstream)
  {
  }

  lemma GrowingIsStable(a: ProtectedEventRecord, b: ProtectedEventRecord, c: ProtectedEventRecord)
    requires a.epoch == b.epoch < c.epoch
    ensures Stable(Growing(a, b, c))
  {
    OneChangeIsStable(Growing(a, b, c), multiset{a}, multiset{a, b, c});
  }

  lemma StaleFetches(a: ProtectedEventRecord, b: ProtectedEventRecord, c: ProtectedEventRecord)
    requires a != b && a.epoch == b.epoch < c.epoch
    ensures Answers([a], Growing(a, b, c)(0), 0)
    ensures Answers([a, b, c], Growing(a, b, c)(1), 0)
    ensures Answers([c], Growing(a, b, c)(1), c.epoch)
  {
  }

  lemma StaleMoves(a: ProtectedEventRecord, b: ProtectedEventRecord, c: ProtectedEventRecord, k: nat)
    requires a != b && a.epoch == b.epoch < c.epoch && k < 11
    ensures Moves(Growing(a, b, c), StaleStates(a, b, c)[k], StaleSteps(a, b, c)[k], StaleStates(a, b, c)[k + 1])
  {
    StaleFetches(a, b, c);
    StaleComputations(a, b, c);
  }

  /** What a stale purge can do: this run of the two loops, over a stable table, ends an update with a cache that has
      lost row `b`, although the updater has just fetched. The next updates do not ask for that epoch again. */
  lemma StalePurgeLosesRow(a: ProtectedEventRecord, b: ProtectedEventRecord, c: ProtectedEventRecord)
    requires a != b && a.epoch == b.epoch < c.epoch
    ensures Stable(Growing(a, b, c))
    ensures IsRun(Growing(a, b, c), StaleStates(a, b, c), StaleSteps(a, b, c))
    ensures Stale(StaleStates(a, b, c)[8], StaleSteps(a, b, c)[8])
    ensures var last := StaleStates(a, b, c)[11];
            last.cache.Some? && b !in last.cache.value && b in Growing(a, b, c)(last.now)
            && MaxEpoch(last.cache.value) > b.epoch
  {
    GrowingIsStable(a, b, c);
    MaxEpochIsMaximum([a, c]);
    assert c in [a, c];
    forall k: nat | k < 11
      ensures Moves(Growing(a, b, c), StaleStates(a, b, c)[k], StaleSteps(a, b, c)[k], StaleStates(a, b, c)[k + 1])
    {
      StaleMoves(a, b, c, k);
    }
  }
}
