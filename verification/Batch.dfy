// Batches of operations split over concurrent chunk requests (internal/gql/client.go:203-259).
module Batch {
  import opened Common
  import opened RetryLoop

  const CHUNK := 20

  function ChunkCount(n: nat): nat { (n + CHUNK - 1) / CHUNK }

  function ChunkLength(n: nat, c: nat): nat
    requires c < ChunkCount(n)
  {
    if CHUNK * c + CHUNK > n then n - CHUNK * c else CHUNK
  }

  // A chunk goroutine: waiting for its response, copying it into the results, or finished.
  datatype Worker = Fetching | Writing(res: seq<string>, pos: nat) | Finished | Failed

  // What the request loop of a chunk ends with.
  function ChunkReply(traces: seq<seq<Attempt>>, c: nat, hasRefresher: bool): Outcome
    requires c < |traces|
  {
    Run(traces[c], FRESH, hasRefresher).0
  }

  // The chunk's request succeeds with one reply per operation.
  predicate GoodChunk(n: nat, traces: seq<seq<Attempt>>, c: nat, hasRefresher: bool)
    requires c < |traces| == ChunkCount(n)
  {
    var out := ChunkReply(traces, c, hasRefresher);
    out.Data? && |out.data| == ChunkLength(n, c)
  }

  // The chunk's request ended, with a failure or with the wrong number of replies.
  predicate BadChunk(n: nat, traces: seq<seq<Attempt>>, c: nat, hasRefresher: bool)
    requires c < |traces| == ChunkCount(n)
  {
    !ChunkReply(traces, c, hasRefresher).Running? && !GoodChunk(n, traces, c, hasRefresher)
  }

  // How far a worker that got its reply has copied it.
  function Copied(n: nat, c: nat, w: Worker): nat
    requires c < ChunkCount(n)
  {
    match w
    case Writing(_, pos) => pos
    case Finished => ChunkLength(n, c)
    case _ => 0
  }

  ghost predicate WorkerOk(n: nat, traces: seq<seq<Attempt>>, c: nat, hasRefresher: bool, w: Worker)
    requires c < |traces| == ChunkCount(n)
  {
    match w
    case Fetching => true
    case Writing(res, pos) =>
      GoodChunk(n, traces, c, hasRefresher) && res == ChunkReply(traces, c, hasRefresher).data && pos <= |res|
    case Finished => GoodChunk(n, traces, c, hasRefresher)
    case Failed => BadChunk(n, traces, c, hasRefresher)
  }

  // Result i has been written exactly when its chunk's worker has got that far,
  // with the reply at its place in the chunk.
  ghost predicate ResultOk(n: nat, traces: seq<seq<Attempt>>, hasRefresher: bool, workers: seq<Worker>,
                           i: nat, r: Option<string>)
    requires |workers| == |traces| == ChunkCount(n) && i < n
  {
    var c := i / CHUNK;
    if i % CHUNK < Copied(n, c, workers[c])
    then GoodChunk(n, traces, c, hasRefresher) && r == Some(ChunkReply(traces, c, hasRefresher).data[i % CHUNK])
    else r == None
  }

  lemma IndexOfChunk(n: nat, i: nat)
    requires i < n
    ensures i / CHUNK < ChunkCount(n) && i % CHUNK < ChunkLength(n, i / CHUNK)
  {
  }

  lemma ChunkIndex(n: nat, c: nat, pos: nat)
    requires c < ChunkCount(n) && pos < ChunkLength(n, c)
    ensures CHUNK * c + pos < n && (CHUNK * c + pos) / CHUNK == c && (CHUNK * c + pos) % CHUNK == pos
  {
  }

  ghost predicate BatchInv(n: nat, traces: seq<seq<Attempt>>, hasRefresher: bool, workers: seq<Worker>,
                           results: seq<Option<string>>, written: multiset<nat>)
    requires |traces| == ChunkCount(n)
  {
    && |workers| == ChunkCount(n) && |results| == n
    && (forall c :: 0 <= c < |workers| ==> WorkerOk(n, traces, c, hasRefresher, workers[c]))
    && (forall i {:trigger results[i]} :: 0 <= i < n ==> ResultOk(n, traces, hasRefresher, workers, i, results[i]))
    && (forall i {:trigger results[i]} :: 0 <= i < n ==> written[i] == if results[i].Some? then 1 else 0)
  }

  // A chunk goroutine waits for its response.
  method Fetch(n: nat, traces: seq<seq<Attempt>>, c: nat, hasRefresher: bool) returns (w: Worker)
    requires c < |traces| == ChunkCount(n)
    ensures WorkerOk(n, traces, c, hasRefresher, w) && Copied(n, c, w) == 0
    ensures w.Fetching? <==> ChunkReply(traces, c, hasRefresher).Running?
    ensures w.Failed? <==> BadChunk(n, traces, c, hasRefresher)
  {
    var reply, _ := Do(traces[c], hasRefresher);
    match reply {
      case Running => return Fetching;
      case Fail(_) => return Failed;
      case Data(ds) =>
        if |ds| != ChunkLength(n, c) {
          return Failed;
        }
        return Writing(ds, 0);
    }
  }

  // What a write does to the claim about one index.
  lemma IndexAfterWrite(n: nat, traces: seq<seq<Attempt>>, hasRefresher: bool, workers: seq<Worker>,
                        c: nat, i: nat, r: Option<string>)
    requires |workers| == |traces| == ChunkCount(n) && i < n && c < |workers|
    requires workers[c].Writing? && workers[c].pos < |workers[c].res|
    requires WorkerOk(n, traces, c, hasRefresher, workers[c]) && ResultOk(n, traces, hasRefresher, workers, i, r)
    ensures var Writing(res, pos) := workers[c];
            if i == CHUNK * c + pos
            then r == None && ResultOk(n, traces, hasRefresher, workers[c := Writing(res, pos + 1)], i, Some(res[pos]))
            else ResultOk(n, traces, hasRefresher, workers[c := Writing(res, pos + 1)], i, r)
  {
    ChunkIndex(n, c, workers[c].pos);
    IndexOfChunk(n, i);
  }

  // Writing one reply keeps every other index as it was.
  lemma WriteOne(n: nat, traces: seq<seq<Attempt>>, hasRefresher: bool, workers: seq<Worker>,
                 results: seq<Option<string>>, written: multiset<nat>, c: nat)
    requires |traces| == ChunkCount(n) && BatchInv(n, traces, hasRefresher, workers, results, written)
    requires c < |workers| && workers[c].Writing? && workers[c].pos < |workers[c].res|
    ensures var Writing(res, pos) := workers[c];
            var at := CHUNK * c + pos;
            at < n && results[at] == None &&
            BatchInv(n, traces, hasRefresher, workers[c := Writing(res, pos + 1)],
                     results[at := Some(res[pos])], written[at := written[at] + 1])
  {
    var Writing(res, pos) := workers[c];
    var at := CHUNK * c + pos;
    assert WorkerOk(n, traces, c, hasRefresher, workers[c]);
    assert at < n by {
      ChunkIndex(n, c, pos);
    }
    var results' := results[at := Some(res[pos])];
    forall i | 0 <= i < n
      ensures ResultOk(n, traces, hasRefresher, workers[c := Writing(res, pos + 1)], i, results'[i])
      ensures i == at ==> results[i] == None
    {
      assert ResultOk(n, traces, hasRefresher, workers, i, results[i]);
      IndexAfterWrite(n, traces, hasRefresher, workers, c, i, results[i]);
    }
    assert results[at] == None;
  }

  // A worker that has nothing left to copy, or has not started, may change state.
  lemma ChangeWorker(n: nat, traces: seq<seq<Attempt>>, hasRefresher: bool, workers: seq<Worker>,
                     results: seq<Option<string>>, written: multiset<nat>, c: nat, w: Worker)
    requires |traces| == ChunkCount(n) && BatchInv(n, traces, hasRefresher, workers, results, written)
    requires c < |workers| && WorkerOk(n, traces, c, hasRefresher, w)
    requires Copied(n, c, w) == Copied(n, c, workers[c])
    ensures BatchInv(n, traces, hasRefresher, workers[c := w], results, written)
  {
    forall i | 0 <= i < n
      ensures ResultOk(n, traces, hasRefresher, workers[c := w], i, results[i])
    {
      IndexOfChunk(n, i);
      assert ResultOk(n, traces, hasRefresher, workers, i, results[i]);
    }
  }

  // What the caller gets once the group has been waited for.
  method Wait(n: nat, ghost traces: seq<seq<Attempt>>, ghost hasRefresher: bool, workers: seq<Worker>,
              results: seq<Option<string>>, ghost written: multiset<nat>)
    returns (r: Outcome)
    requires |traces| == ChunkCount(n) && BatchInv(n, traces, hasRefresher, workers, results, written)
    ensures r.Running? <==> exists c :: 0 <= c < |workers| && (workers[c].Fetching? || workers[c].Writing?)
    ensures r.Fail? ==> exists c :: 0 <= c < |traces| && BadChunk(n, traces, c, hasRefresher)
    ensures r.Data? ==> BatchOk(n, traces, hasRefresher, r.data, written)
  {
    var failed := false;
    for c := 0 to |workers|
      invariant forall j :: 0 <= j < c ==> workers[j].Finished? || workers[j].Failed?
      invariant failed <==> exists j :: 0 <= j < c && workers[j].Failed?
    {
      if workers[c].Fetching? || workers[c].Writing? {
        return Running;
      }
      if workers[c].Failed? {
        failed := true;
      }
    }
    if failed {
      return Fail(GraphQL("batch request failed"));
    }
    var data := Gather(n, traces, hasRefresher, workers, results, written);
    return Data(data);
  }

  // The results, once every worker has finished.
  method Gather(n: nat, ghost traces: seq<seq<Attempt>>, ghost hasRefresher: bool, ghost workers: seq<Worker>,
                results: seq<Option<string>>, ghost written: multiset<nat>)
    returns (data: seq<string>)
    requires |traces| == ChunkCount(n) && BatchInv(n, traces, hasRefresher, workers, results, written)
    requires forall c :: 0 <= c < |workers| ==> workers[c].Finished?
    ensures BatchOk(n, traces, hasRefresher, data, written)
  {
    data := [];
    for i := 0 to n
      invariant |data| == i
      invariant forall j :: 0 <= j < i ==> ReplyAt(n, traces, hasRefresher, j, data[j]) && written[j] == 1
    {
      IndexOfChunk(n, i);
      assert workers[i / CHUNK].Finished?;
      assert ResultOk(n, traces, hasRefresher, workers, i, results[i]);
      data := data + [results[i].value];
    }
    forall c | 0 <= c < |traces|
      ensures GoodChunk(n, traces, c, hasRefresher)
    {
      assert workers[c].Finished?;
    }
  }

  // x is the reply at position i mod 20 of the response to chunk i div 20.
  ghost predicate ReplyAt(n: nat, traces: seq<seq<Attempt>>, hasRefresher: bool, i: nat, x: string)
    requires |traces| == ChunkCount(n)
  {
    var c := i / CHUNK;
    && c < |traces| && GoodChunk(n, traces, c, hasRefresher)
    && i % CHUNK < ChunkLength(n, c) && x == ChunkReply(traces, c, hasRefresher).data[i % CHUNK]
  }

  // A complete batch: every chunk succeeded, results[i] is the reply to operation
  // i, and each index was written exactly once.
  ghost predicate BatchOk(n: nat, traces: seq<seq<Attempt>>, hasRefresher: bool, data: seq<string>, written: multiset<nat>)
    requires |traces| == ChunkCount(n)
  {
    && |data| == n
    && (forall c :: 0 <= c < |traces| ==> GoodChunk(n, traces, c, hasRefresher))
    && (forall i :: 0 <= i < n ==> ReplyAt(n, traces, hasRefresher, i, data[i]) && written[i] == 1)
  }

  // Where a worker is after its first `turns` steps.
  ghost predicate TurnsOk(n: nat, traces: seq<seq<Attempt>>, hasRefresher: bool, c: nat, w: Worker, turns: nat)
    requires c < |traces| == ChunkCount(n)
  {
    && (w.Fetching? ==> turns == 0 || ChunkReply(traces, c, hasRefresher).Running?)
    && (w.Writing? ==> turns == w.pos + 1)
  }

  ghost predicate AllTurns(n: nat, traces: seq<seq<Attempt>>, hasRefresher: bool, workers: seq<Worker>, turns: multiset<nat>)
    requires |workers| == |traces| == ChunkCount(n)
  {
    forall c :: 0 <= c < |workers| ==> TurnsOk(n, traces, hasRefresher, c, workers[c], turns[c])
  }

  // The worker cannot be expected to be done: its request has not ended, or it
  // has not had the turns to receive, copy and finish.
  ghost predicate Unfinished(n: nat, traces: seq<seq<Attempt>>, hasRefresher: bool, c: nat, turns: nat)
    requires c < |traces| == ChunkCount(n)
  {
    ChunkReply(traces, c, hasRefresher).Running? || turns < ChunkLength(n, c) + 2
  }

  lemma CountTurn(n: nat, traces: seq<seq<Attempt>>, hasRefresher: bool, workers: seq<Worker>, turns: multiset<nat>,
                  c: nat, w: Worker)
    requires |workers| == |traces| == ChunkCount(n) && AllTurns(n, traces, hasRefresher, workers, turns)
    requires c < |workers| && TurnsOk(n, traces, hasRefresher, c, w, turns[c] + 1)
    ensures AllTurns(n, traces, hasRefresher, workers[c := w], turns + multiset{c})
  {
    forall k | 0 <= k < |workers|
      ensures TurnsOk(n, traces, hasRefresher, k, workers[c := w][k], (turns + multiset{c})[k])
    {
      assert TurnsOk(n, traces, hasRefresher, k, workers[k], turns[k]);
    }
  }

  // One goroutine takes one step.
  method Turn(n: nat, traces: seq<seq<Attempt>>, hasRefresher: bool, c: nat, workers: seq<Worker>,
              results: seq<Option<string>>, ghost written: multiset<nat>, ghost turns: multiset<nat>)
    returns (workers': seq<Worker>, results': seq<Option<string>>, ghost written': multiset<nat>)
    requires |traces| == ChunkCount(n) && c < |workers|
    requires BatchInv(n, traces, hasRefresher, workers, results, written)
    requires AllTurns(n, traces, hasRefresher, workers, turns)
    ensures BatchInv(n, traces, hasRefresher, workers', results', written')
    ensures AllTurns(n, traces, hasRefresher, workers', turns + multiset{c})
  {
    results', written' := results, written;
    assert TurnsOk(n, traces, hasRefresher, c, workers[c], turns[c]);
    assert WorkerOk(n, traces, c, hasRefresher, workers[c]);
    var w := workers[c];
    match workers[c] {
      case Fetching =>
        w := Fetch(n, traces, c, hasRefresher);
        ChangeWorker(n, traces, hasRefresher, workers, results, written, c, w);
      case Writing(res, pos) =>
        if pos == |res| {
          w := Finished;
          ChangeWorker(n, traces, hasRefresher, workers, results, written, c, w);
        } else {
          var at := CHUNK * c + pos;
          WriteOne(n, traces, hasRefresher, workers, results, written, c);
          w, results', written' := Writing(res, pos + 1), results[at := Some(res[pos])], written[at := written[at] + 1];
        }
      case Finished =>
      case Failed =>
    }
    workers' := workers[c := w];
    CountTurn(n, traces, hasRefresher, workers, turns, c, w);
  }

  // Every operation is in the registry.
  method Registered(known: set<string>, ops: seq<string>) returns (ok: bool)
    ensures ok <==> forall k :: 0 <= k < |ops| ==> ops[k] in known
  {
    for k := 0 to |ops|
      invariant forall j :: 0 <= j < k ==> ops[j] in known
    {
      if ops[k] !in known {
        return false;
      }
    }
    return true;
  }

  lemma StillBusy(n: nat, traces: seq<seq<Attempt>>, hasRefresher: bool, workers: seq<Worker>,
                  results: seq<Option<string>>, written: multiset<nat>, turns: multiset<nat>) returns (c: nat)
    requires |traces| == ChunkCount(n) && BatchInv(n, traces, hasRefresher, workers, results, written)
    requires AllTurns(n, traces, hasRefresher, workers, turns)
    requires exists c :: 0 <= c < |workers| && (workers[c].Fetching? || workers[c].Writing?)
    ensures c < |traces| && Unfinished(n, traces, hasRefresher, c, turns[c])
  {
    c :| 0 <= c < |workers| && (workers[c].Fetching? || workers[c].Writing?);
    assert TurnsOk(n, traces, hasRefresher, c, workers[c], turns[c]);
    assert WorkerOk(n, traces, c, hasRefresher, workers[c]);
  }

  // DoBatch under a schedule: which goroutine takes its next step, over and over.
  // `traces[c]` is what the outside world does to chunk c. Running: some
  // goroutine has not finished within the schedule. `written` counts the writes
  // to each result index.
  method DoBatch(known: set<string>, ops: seq<string>, traces: seq<seq<Attempt>>, hasRefresher: bool, schedule: seq<nat>)
    returns (r: Outcome, ghost written: multiset<nat>)
    requires |traces| == ChunkCount(|ops|)
    ensures (exists k :: 0 <= k < |ops| && ops[k] !in known) ==> r.Fail?
    ensures r.Data? ==> BatchOk(|ops|, traces, hasRefresher, r.data, written)
    ensures r.Fail? ==> (exists k :: 0 <= k < |ops| && ops[k] !in known) ||
                        exists c :: 0 <= c < |traces| && BadChunk(|ops|, traces, c, hasRefresher)
    ensures r.Running? ==>
      exists c :: 0 <= c < |traces| && Unfinished(|ops|, traces, hasRefresher, c, multiset(schedule)[c])
  {
    written := multiset{};
    var n := |ops|;
    if n == 0 {
      return Data([]), written;
    }
    var allKnown := Registered(known, ops);
    if !allKnown {
      return Fail(GraphQL("invalid operation")), written;
    }
    var results: seq<Option<string>> := seq(n, _ => None);
    var workers: seq<Worker> := seq(ChunkCount(n), _ => Fetching);
    NothingWritten(n, traces, hasRefresher);
    for s := 0 to |schedule|
      invariant BatchInv(n, traces, hasRefresher, workers, results, written)
      invariant AllTurns(n, traces, hasRefresher, workers, multiset(schedule[..s]))
    {
      MoreTurns(n, traces, hasRefresher, workers, schedule, s);
      if schedule[s] < |workers| {
        workers, results, written :=
          Turn(n, traces, hasRefresher, schedule[s], workers, results, written, multiset(schedule[..s]));
      }
    }
    assert schedule[..|schedule|] == schedule;
    r := Wait(n, traces, hasRefresher, workers, results, written);
    if r.Running? {
      ghost var c := StillBusy(n, traces, hasRefresher, workers, results, written, multiset(schedule));
    }
  }

  lemma NothingWritten(n: nat, traces: seq<seq<Attempt>>, hasRefresher: bool)
    requires |traces| == ChunkCount(n)
    ensures var workers := seq(ChunkCount(n), _ => Fetching);
            && BatchInv(n, traces, hasRefresher, workers, seq(n, _ => None), multiset{})
            && AllTurns(n, traces, hasRefresher, workers, multiset{})
  {
    var workers := seq(ChunkCount(n), _ => Fetching);
    var results: seq<Option<string>> := seq(n, _ => None);
    forall i | 0 <= i < n
      ensures ResultOk(n, traces, hasRefresher, workers, i, results[i])
    {
      IndexOfChunk(n, i);
    }
  }

  // An entry of the schedule that names no chunk leaves everything as it is.
  lemma MoreTurns(n: nat, traces: seq<seq<Attempt>>, hasRefresher: bool, workers: seq<Worker>, schedule: seq<nat>, s: nat)
    requires |workers| == |traces| == ChunkCount(n) && s < |schedule|
    requires AllTurns(n, traces, hasRefresher, workers, multiset(schedule[..s]))
    ensures multiset(schedule[..s + 1]) == multiset(schedule[..s]) + multiset{schedule[s]}
    ensures schedule[s] >= |workers| ==> AllTurns(n, traces, hasRefresher, workers, multiset(schedule[..s + 1]))
  {
    assert schedule[..s + 1] == schedule[..s] + [schedule[s]];
    if schedule[s] >= |workers| {
      forall k | 0 <= k < |workers|
        ensures TurnsOk(n, traces, hasRefresher, k, workers[k], multiset(schedule[..s + 1])[k])
      {
        assert TurnsOk(n, traces, hasRefresher, k, workers[k], multiset(schedule[..s])[k]);
      }
    }
  }

  // The response to chunk c has a reply to each of its operations, which are those from
  // 20c on: twenty, or what is left; and result 20c + k is its reply k.
  ghost predicate ChunkDelivered(n: nat, traces: seq<seq<Attempt>>, hasRefresher: bool, data: seq<string>, c: nat)
    requires c < |traces|
  {
    var out := ChunkReply(traces, c, hasRefresher);
    && out.Data? && |out.data| == (if 20 * c + 20 <= n then 20 else n - 20 * c)
    && forall k :: 0 <= k < |out.data| ==> 20 * c + k < |data| && data[20 * c + k] == out.data[k]
  }

  // A complete batch in plain terms.
  lemma BatchExact(n: nat, traces: seq<seq<Attempt>>, hasRefresher: bool, data: seq<string>, written: multiset<nat>)
    requires |traces| == ChunkCount(n) && BatchOk(n, traces, hasRefresher, data, written)
    ensures |data| == n && 20 * |traces| >= n && (n > 0 ==> 20 * (|traces| - 1) < n)
    ensures forall c :: 0 <= c < |traces| ==> ChunkDelivered(n, traces, hasRefresher, data, c)
  {
    forall c | 0 <= c < |traces|
      ensures ChunkDelivered(n, traces, hasRefresher, data, c)
    {
      assert GoodChunk(n, traces, c, hasRefresher);
      var out := ChunkReply(traces, c, hasRefresher);
      forall k | 0 <= k < |out.data|
        ensures 20 * c + k < n && data[20 * c + k] == out.data[k]
      {
        ReplyInPlace(n, traces, hasRefresher, data, written, c, k);
      }
    }
  }

  lemma ReplyInPlace(n: nat, traces: seq<seq<Attempt>>, hasRefresher: bool, data: seq<string>, written: multiset<nat>,
                     c: nat, k: nat)
    requires |traces| == ChunkCount(n) && BatchOk(n, traces, hasRefresher, data, written)
    requires c < |traces| && ChunkReply(traces, c, hasRefresher).Data? && k < |ChunkReply(traces, c, hasRefresher).data|
    ensures 20 * c + k < n && data[20 * c + k] == ChunkReply(traces, c, hasRefresher).data[k]
  {
    assert GoodChunk(n, traces, c, hasRefresher);
    ChunkIndex(n, c, k);
    assert ReplyAt(n, traces, hasRefresher, 20 * c + k, data[20 * c + k]);
  }
}
