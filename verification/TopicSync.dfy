// Topic subscriptions over a reconnecting WebSocket (internal/pubsub/connection.go, topics.go).
module TopicSync {
  import opened Common

  type Topic = string

  // ------------------------------------------------------------------
  // Frames and chunks
  // ------------------------------------------------------------------

  datatype Frame = Listen(topics: seq<Topic>) | Unlisten(topics: seq<Topic>)

  function ToSet(ts: seq<Topic>): set<Topic> { set t | t in ts }

  lemma ToSetStep(ts: seq<Topic>, k: nat)
    requires k < |ts|
    ensures ToSet(ts[..k + 1]) == ToSet(ts[..k]) + {ts[k]}
  {
    assert ts[..k + 1] == ts[..k] + [ts[k]];
  }

  lemma ToSetSnoc(ts: seq<Topic>, t: Topic)
    ensures ToSet(ts + [t]) == ToSet(ts) + {t}
  {
  }

  // The server's subscription set after one frame.
  function Apply(server: set<Topic>, f: Frame): set<Topic> {
    match f
    case Listen(ts) => server + ToSet(ts)
    case Unlisten(ts) => server - ToSet(ts)
  }

  function ApplyAll(server: set<Topic>, fs: seq<Frame>): set<Topic>
    decreases |fs|
  {
    if fs == [] then server else ApplyAll(Apply(server, fs[0]), fs[1..])
  }

  const CHUNK := 20

  // Consecutive chunks of `size` topics; the last one takes what is left.
  function Chunks(ts: seq<Topic>, size: nat): seq<seq<Topic>>
    requires size >= 1
  {
    if |ts| == 0 then []
    else if |ts| <= size then [ts]
    else [ts[..size]] + Chunks(ts[size..], size)
  }

  method ChunkTopics(ts: seq<Topic>, size: int) returns (chunks: seq<seq<Topic>>)
    ensures chunks == Chunks(ts, if size <= 0 then CHUNK else size)
  {
    if |ts| == 0 {
      return [];
    }
    var n := if size <= 0 then CHUNK else size;
    chunks := [];
    var i := 0;
    while i < |ts|
      invariant 0 <= i && Chunks(ts, n) == chunks + Chunks(if i <= |ts| then ts[i..] else [], n)
    {
      var end := i + n;
      if end > |ts| {
        end := |ts|;
      }
      if i + n < |ts| {
        assert ts[i..][n..] == ts[i + n..] && ts[i..][..n] == ts[i..end];
      } else {
        assert ts[i..end] == ts[i..];
      }
      chunks := chunks + [ts[i..end]];
      i := i + n;
    }
  }

  function Flatten(chunks: seq<seq<Topic>>): seq<Topic> {
    if chunks == [] then [] else chunks[0] + Flatten(chunks[1..])
  }

  // Chunking loses, adds and reorders nothing, and no chunk is empty or too long.
  lemma {:induction false} ChunksExact(ts: seq<Topic>, size: nat)
    requires size >= 1
    ensures Flatten(Chunks(ts, size)) == ts
    ensures forall c :: c in Chunks(ts, size) ==> 1 <= |c| <= size
  {
    if |ts| > size {
      ChunksExact(ts[size..], size);
      assert ts == ts[..size] + ts[size..];
      assert Flatten(Chunks(ts, size)) == ts[..size] + Flatten(Chunks(ts[size..], size));
    } else if |ts| > 0 {
      assert Flatten([ts]) == ts + Flatten([]);
    }
  }

  // Every chunk but the last is full.
  lemma {:induction false} ChunksFull(ts: seq<Topic>, size: nat, k: nat)
    requires size >= 1 && k + 1 < |Chunks(ts, size)|
    ensures |Chunks(ts, size)[k]| == size
  {
    if k > 0 {
      ChunksFull(ts[size..], size, k - 1);
    }
  }

  // The frames of a sync carry 20 topics each, but for the last removal and the last
  // addition; all removals come before all additions.
  lemma SyncFramesExact(removed: seq<Topic>, added: seq<Topic>, k: nat)
    requires k < |SyncFrames(removed, added)|
    ensures var fs, n := SyncFrames(removed, added), |Chunks(removed, 20)|;
            && n <= |fs| && (fs[k].Unlisten? <==> k < n)
            && 1 <= |fs[k].topics| <= 20
            && (k + 1 != n && k + 1 != |fs| ==> |fs[k].topics| == 20)
  {
    var rs, adds := Chunks(removed, CHUNK), Chunks(added, CHUNK);
    FramedLength(rs, false);
    FramedLength(adds, true);
    ChunksExact(removed, CHUNK);
    ChunksExact(added, CHUNK);
    if k < |rs| {
      FramedAt(rs, false, k);
      assert rs[k] in rs;
      if k + 1 < |rs| {
        ChunksFull(removed, CHUNK, k);
      }
    } else {
      FramedAt(adds, true, k - |rs|);
      assert adds[k - |rs|] in adds;
      if k - |rs| + 1 < |adds| {
        ChunksFull(added, CHUNK, k - |rs|);
      }
    }
  }

  function Framed(chunks: seq<seq<Topic>>, listen: bool): seq<Frame> {
    if chunks == [] then []
    else [if listen then Listen(chunks[0]) else Unlisten(chunks[0])] + Framed(chunks[1..], listen)
  }

  // The frames of one sync: what was removed goes first, then what was added.
  function SyncFrames(removed: seq<Topic>, added: seq<Topic>): seq<Frame> {
    Framed(Chunks(removed, CHUNK), false) + Framed(Chunks(added, CHUNK), true)
  }

  lemma {:induction false} FramedApply(chunks: seq<seq<Topic>>, listen: bool, server: set<Topic>)
    ensures ApplyAll(server, Framed(chunks, listen)) ==
            if listen then server + ToSet(Flatten(chunks)) else server - ToSet(Flatten(chunks))
    decreases |chunks|
  {
    if chunks != [] {
      FramedApply(chunks[1..], listen, Apply(server, if listen then Listen(chunks[0]) else Unlisten(chunks[0])));
      assert ToSet(Flatten(chunks)) == ToSet(chunks[0]) + ToSet(Flatten(chunks[1..]));
    }
  }

  lemma {:induction false} ApplyAppend(server: set<Topic>, a: seq<Frame>, b: seq<Frame>)
    ensures ApplyAll(server, a + b) == ApplyAll(ApplyAll(server, a), b)
    decreases |a|
  {
    if a == [] {
      assert a + b == b;
    } else {
      assert (a + b)[1..] == a[1..] + b;
      ApplyAppend(Apply(server, a[0]), a[1..], b);
    }
  }

  lemma SyncFramesApply(server: set<Topic>, removed: seq<Topic>, added: seq<Topic>)
    ensures ApplyAll(server, SyncFrames(removed, added)) == server - ToSet(removed) + ToSet(added)
  {
    ChunksExact(removed, CHUNK);
    ChunksExact(added, CHUNK);
    FramedApply(Chunks(removed, CHUNK), false, server);
    FramedApply(Chunks(added, CHUNK), true, server - ToSet(removed));
    ApplyAppend(server, Framed(Chunks(removed, CHUNK), false), Framed(Chunks(added, CHUNK), true));
  }

  // ------------------------------------------------------------------
  // Callers, signal and sync goroutine interleaved
  // ------------------------------------------------------------------

  // What the sync goroutine of a live connection is doing. Starting: it took the
  // signal (or has just connected) and has no snapshot yet.
  datatype Sync = Waiting | Starting | Sending(snapshot: set<Topic>, frames: seq<Frame>)

  datatype Conn = Down | Live(submitted: set<Topic>, server: set<Topic>, sync: Sync)

  // `unsignalled` counts the callers between their update and their signal.
  datatype World = World(topics: set<Topic>, signal: bool, unsignalled: nat, conn: Conn)

  datatype Event =
    | Add(ts: seq<Topic>)
    | Remove(ts: seq<Topic>)
    | SignalNow
    | Dial
    | TakeSignal
    | Snapshot(removed: seq<Topic>, added: seq<Topic>)
    | SendNext
    | FinishSync
    | Drop

  ghost predicate Enabled(w: World, e: Event) {
    match e
    case Add(_) => true
    case Remove(_) => true
    case SignalNow => w.unsignalled > 0
    case Dial => w.conn.Down?
    case TakeSignal => w.conn.Live? && w.conn.sync.Waiting? && w.signal
    case Snapshot(removed, added) =>
      && w.conn.Live? && w.conn.sync.Starting?
      && ToSet(removed) == w.conn.submitted - w.topics && ToSet(added) == w.topics - w.conn.submitted
    case SendNext => w.conn.Live? && w.conn.sync.Sending? && w.conn.sync.frames != []
    case FinishSync => w.conn.Live? && w.conn.sync.Sending? && w.conn.sync.frames == []
    case Drop => w.conn.Live?
  }

  function Update(w: World, topics: set<Topic>): World {
    w.(topics := topics, unsignalled := if topics != w.topics then w.unsignalled + 1 else w.unsignalled)
  }

  function Step(w: World, e: Event): World
    requires Enabled(w, e)
  {
    match e
    case Add(ts) => Update(w, w.topics + ToSet(ts))
    case Remove(ts) => Update(w, w.topics - ToSet(ts))
    case SignalNow => w.(signal := true, unsignalled := w.unsignalled - 1)
    case Dial => w.(conn := Live({}, {}, Starting))
    case TakeSignal => w.(signal := false, conn := w.conn.(sync := Starting))
    case Snapshot(removed, added) =>
      w.(conn := w.conn.(sync := Sending(w.topics, SyncFrames(removed, added))))
    case SendNext =>
      var fs := w.conn.sync.frames;
      w.(conn := w.conn.(server := Apply(w.conn.server, fs[0]), sync := w.conn.sync.(frames := fs[1..])))
    case FinishSync => w.(conn := w.conn.(submitted := w.conn.sync.snapshot, sync := Waiting))
    case Drop => w.(conn := Down)
  }

  // Registering and unregistering change the topics by exactly those given, and leave
  // a caller to signal exactly where that is a change; nothing else happens.
  lemma UpdatesExact(w: World, ts: seq<Topic>)
    ensures var v := Step(w, Add(ts));
            && (forall t :: t in v.topics <==> t in w.topics || t in ts)
            && v == w.(topics := v.topics,
                       unsignalled := w.unsignalled + if forall t :: t in ts ==> t in w.topics then 0 else 1)
    ensures var v := Step(w, Remove(ts));
            && (forall t :: t in v.topics <==> t in w.topics && t !in ts)
            && v == w.(topics := v.topics,
                       unsignalled := w.unsignalled + if exists t :: t in ts && t in w.topics then 1 else 0)
  {
    var a, r := Step(w, Add(ts)), Step(w, Remove(ts));
    assert a.topics == w.topics <==> forall t :: t in ts ==> t in w.topics;
    if t :| t in ts && t in w.topics {
      assert t !in r.topics;
    } else {
      assert r.topics == w.topics;
    }
  }

  const INIT := World({}, false, 0, Down)

  ghost function Exec(w: World, es: seq<Event>): Option<World> {
    if es == [] then Some(w)
    else
      match Exec(w, es[..|es| - 1])
      case None => None
      case Some(v) => if Enabled(v, es[|es| - 1]) then Some(Step(v, es[|es| - 1])) else None
  }

  // ------------------------------------------------------------------
  // The client's code
  // ------------------------------------------------------------------

  class Client {
    var topics: set<Topic>
    var signal: bool            // topicsChanged holds its one token
    ghost var unsignalled: nat  // callers between their update and their signal

    // The client beside a connection.
    ghost function View(conn: Conn): World
      reads this
    {
      World(topics, signal, unsignalled, conn)
    }

    constructor ()
      ensures View(Down) == INIT
    {
      topics, signal, unsignalled := {}, false, 0;
    }

    // The part of AddTopics under the lock.
    method Register(ts: seq<Topic>) returns (changed: bool)
      modifies this
      ensures forall conn: Conn :: View(conn) == Step(old(View(conn)), Add(ts))
      ensures changed <==> topics != old(topics)
    {
      changed := false;
      for k := 0 to |ts|
        invariant topics == old(topics) + ToSet(ts[..k]) && signal == old(signal) && unsignalled == old(unsignalled)
        invariant changed <==> topics != old(topics)
      {
        if ts[k] !in topics {
          topics := topics + {ts[k]};
          changed := true;
        }
      }
      assert ts[..|ts|] == ts;
      if changed {
        unsignalled := unsignalled + 1;
      }
    }

    // The part of RemoveTopics under the lock.
    method Unregister(ts: seq<Topic>) returns (changed: bool)
      modifies this
      ensures forall conn: Conn :: View(conn) == Step(old(View(conn)), Remove(ts))
      ensures changed <==> topics != old(topics)
    {
      changed := false;
      for k := 0 to |ts|
        invariant topics == old(topics) - ToSet(ts[..k]) && signal == old(signal) && unsignalled == old(unsignalled)
        invariant changed <==> topics != old(topics)
      {
        if ts[k] in topics {
          topics := topics - {ts[k]};
          changed := true;
        }
      }
      assert ts[..|ts|] == ts;
      if changed {
        unsignalled := unsignalled + 1;
      }
    }

    method AddTopics(ts: seq<Topic>)
      modifies this
      ensures topics == old(topics) + ToSet(ts) && unsignalled == old(unsignalled)
      ensures signal <==> old(signal) || topics != old(topics)
    {
      var changed := Register(ts);
      assert View(Down) == Step(old(View(Down)), Add(ts));
      if changed {
        Signal();
      }
    }

    method RemoveTopics(ts: seq<Topic>)
      modifies this
      ensures topics == old(topics) - ToSet(ts) && unsignalled == old(unsignalled)
      ensures signal <==> old(signal) || topics != old(topics)
    {
      var changed := Unregister(ts);
      assert View(Down) == Step(old(View(Down)), Remove(ts));
      if changed {
        Signal();
      }
    }

    // The send that follows a change; a full channel is left as it is.
    method Signal()
      requires unsignalled > 0
      modifies this
      ensures forall conn: Conn :: View(conn) == Step(old(View(conn)), SignalNow)
      ensures signal && topics == old(topics) && unsignalled == old(unsignalled) - 1
    {
      signal := true;
      unsignalled := unsignalled - 1;
    }

    // The sync goroutine takes the token.
    method TakeToken()
      requires signal
      modifies this
      ensures forall conn: Conn :: conn.Live? && conn.sync.Waiting? ==>
                View(conn.(sync := Starting)) == Step(old(View(conn)), TakeSignal)
    {
      signal := false;
    }
  }

  // One connection: what syncTopics believes it has submitted, the frames
  // written, and how many more writes succeed before the connection breaks.
  class Connection {
    var submitted: set<Topic>
    var sent: seq<Frame>
    var writesLeft: nat

    // The connection as the server and the sync goroutine see it.
    ghost function View(sync: Sync): Conn
      reads this
    {
      Live(submitted, ApplyAll({}, sent), sync)
    }

    constructor (writesLeft: nat)
      ensures View(Starting) == Step(INIT, Dial).conn && sent == [] && this.writesLeft == writesLeft
    {
      submitted, sent, this.writesLeft := {}, [], writesLeft;
    }

    method Send(f: Frame) returns (ok: bool)
      modifies this`sent, this`writesLeft
      ensures ok <==> old(writesLeft) > 0
      ensures ok ==> sent == old(sent) + [f] && writesLeft == old(writesLeft) - 1
      ensures !ok ==> sent == old(sent) && writesLeft == 0
    {
      if writesLeft == 0 {
        return false;
      }
      sent := sent + [f];
      writesLeft := writesLeft - 1;
      return true;
    }

    // Stops at the first write that fails; the frames before it have been sent.
    method SendChunks(ts: seq<Topic>, listen: bool) returns (ok: bool)
      modifies this`sent, this`writesLeft
      ensures Sent(Framed(Chunks(ts, CHUNK), listen), ok, old(writesLeft), old(sent))
    {
      var chunks := ChunkTopics(ts, CHUNK);
      ghost var fs := Framed(chunks, listen);
      FramedLength(chunks, listen);
      for k := 0 to |chunks|
        invariant k <= old(writesLeft) && writesLeft == old(writesLeft) - k
        invariant sent == old(sent) + fs[..k]
      {
        var f := if listen then Listen(chunks[k]) else Unlisten(chunks[k]);
        FramedAt(chunks, listen, k);
        var sentOk := Send(f);
        if !sentOk {
          return false;
        }
        assert fs[..k + 1] == fs[..k] + [f];
      }
      return true;
    }

    // Those of ts that are not in `other`, in order.
    method Missing(ts: seq<Topic>, other: set<Topic>) returns (r: seq<Topic>)
      ensures ToSet(r) == ToSet(ts) - other
    {
      r := [];
      for k := 0 to |ts|
        invariant ToSet(r) == ToSet(ts[..k]) - other
      {
        ToSetStep(ts, k);
        if ts[k] !in other {
          ToSetSnoc(r, ts[k]);
          r := r + [ts[k]];
        }
      }
      assert ts[..|ts|] == ts;
    }

    // First half of syncTopics: topics that are no longer registered; `walk` is the
    // order in which the submitted topics happened to be visited.
    method SyncRemoved(current: seq<Topic>, walk: seq<Topic>) returns (ok: bool, ghost removed: seq<Topic>)
      requires ToSet(walk) == submitted
      modifies this
      ensures ToSet(removed) == old(submitted) - ToSet(current)
      ensures Sent(Framed(Chunks(removed, CHUNK), false), ok, old(writesLeft), old(sent))
      ensures submitted == if ok then old(submitted) - ToSet(removed) else old(submitted)
    {
      var gone := Missing(walk, ToSet(current));
      removed := gone;
      ok := SendChunks(gone, false);
      if ok {
        submitted := submitted - ToSet(gone);
      }
    }

    // Second half: topics that are not submitted yet.
    method SyncAdded(current: seq<Topic>) returns (ok: bool, ghost added: seq<Topic>)
      modifies this
      ensures ToSet(added) == ToSet(current) - old(submitted)
      ensures Sent(Framed(Chunks(added, CHUNK), true), ok, old(writesLeft), old(sent))
      ensures submitted == if ok then old(submitted) + ToSet(added) else old(submitted)
    {
      var extra := Missing(current, submitted);
      added := extra;
      ok := SendChunks(extra, true);
      if ok {
        submitted := submitted + ToSet(extra);
      }
    }

    // syncTopics for a snapshot of the registered topics. The frames of the sync are
    // written as far as writes succeed. What is submitted changes a half at a time:
    // the removals when all their frames are out, then the additions.
    method SyncTopics(current: seq<Topic>, walk: seq<Topic>)
      returns (ok: bool, ghost removed: seq<Topic>, ghost added: seq<Topic>)
      requires ToSet(walk) == submitted
      modifies this
      ensures ToSet(removed) == old(submitted) - ToSet(current) && ToSet(added) == ToSet(current) - old(submitted)
      ensures Sent(SyncFrames(removed, added), ok, old(writesLeft), old(sent))
      ensures submitted == if ok then ToSet(current)
                           else if |Framed(Chunks(removed, CHUNK), false)| <= old(writesLeft)
                           then old(submitted) - ToSet(removed)
                           else old(submitted)
    {
      ghost var before, wanted, n := submitted, ToSet(current), writesLeft;
      ok, removed := SyncRemoved(current, walk);
      ghost var fs := Framed(Chunks(removed, CHUNK), false);
      if !ok {
        added := Listing(wanted - before);
        WrittenShort(fs, Framed(Chunks(added, CHUNK), true), n);
        return;
      }
      ghost var sent1 := sent;
      ok, added := SyncAdded(current);
      WrittenBoth(fs, Framed(Chunks(added, CHUNK), true), n, old(sent), sent1);
      HalvesMeet(before, wanted, ToSet(removed), ToSet(added));
    }

    // Of the frames fs as many were written as n writes allow, and ok tells whether all were.
    ghost predicate Sent(fs: seq<Frame>, ok: bool, n: nat, before: seq<Frame>)
      reads this
    {
      && (ok <==> |fs| <= n)
      && sent == before + Written(fs, n)
      && writesLeft == n - |Written(fs, n)|
    }
  }

  // Taking out what is not wanted and adding what is missing gives what is wanted.
  lemma HalvesMeet(before: set<Topic>, wanted: set<Topic>, removed: set<Topic>, added: set<Topic>)
    requires removed == before - wanted && added == wanted - (before - removed)
    ensures added == wanted - before && before - removed + added == wanted
  {
  }

  // The frames that get written when only n writes succeed.
  function Written(fs: seq<Frame>, n: nat): seq<Frame> {
    if |fs| <= n then fs else fs[..n]
  }

  lemma WrittenShort(a: seq<Frame>, b: seq<Frame>, n: nat)
    requires |a| > n
    ensures Written(a + b, n) == Written(a, n)
  {
  }

  lemma WrittenBoth(a: seq<Frame>, b: seq<Frame>, n: nat, before: seq<Frame>, between: seq<Frame>)
    requires |a| <= n && between == before + Written(a, n)
    ensures between + Written(b, n - |a|) == before + Written(a + b, n)
    ensures |Written(a + b, n)| == |a| + |Written(b, n - |a|)|
  {
    if |a + b| <= n {
      assert before + a + b == before + (a + b);
    } else {
      assert (a + b)[..n] == a + b[..n - |a|];
      assert before + a + b[..n - |a|] == before + (a + b[..n - |a|]);
    }
  }

  lemma {:induction false} FramedLength(chunks: seq<seq<Topic>>, listen: bool)
    ensures |Framed(chunks, listen)| == |chunks|
  {
    if chunks != [] {
      FramedLength(chunks[1..], listen);
    }
  }

  lemma {:induction false} FramedAt(chunks: seq<seq<Topic>>, listen: bool, k: nat)
    requires k < |chunks| == |Framed(chunks, listen)|
    ensures Framed(chunks, listen)[k] == if listen then Listen(chunks[k]) else Unlisten(chunks[k])
  {
    if k > 0 {
      FramedAt(chunks[1..], listen, k - 1);
    }
  }

  ghost function Listing(s: set<Topic>): (r: seq<Topic>)
    ensures ToSet(r) == s
  {
    if s == {} then [] else var t :| t in s; ToSetSnoc(Listing(s - {t}), t); Listing(s - {t}) + [t]
  }

  // ------------------------------------------------------------------
  // A call of syncTopics is a stretch of a run
  // ------------------------------------------------------------------

  lemma ExecSnoc(w: World, es: seq<Event>, v: World, e: Event)
    requires Exec(w, es) == Some(v) && Enabled(v, e)
    ensures Exec(w, es + [e]) == Some(Step(v, e))
  {
    assert (es + [e])[..|es|] == es;
  }

  // The world once the first m of the frames have been sent.
  function AtFrame(w: World, fs: seq<Frame>, m: nat): World
    requires w.conn.Live? && m <= |fs|
  {
    w.(conn := Live(w.conn.submitted, ApplyAll(w.conn.server, fs[..m]), Sending(w.topics, fs[m..])))
  }

  lemma FrameStep(w: World, fs: seq<Frame>, m: nat)
    requires w.conn.Live? && 0 < m <= |fs|
    ensures Enabled(AtFrame(w, fs, m - 1), SendNext)
    ensures Step(AtFrame(w, fs, m - 1), SendNext) == AtFrame(w, fs, m)
  {
    assert fs[m - 1..][1..] == fs[m..] && fs[m - 1..][0] == fs[m - 1];
    assert fs[..m] == fs[..m - 1] + [fs[m - 1]];
    ApplyAppend(w.conn.server, fs[..m - 1], [fs[m - 1]]);
  }

  lemma SnapshotStep(w: World, removed: seq<Topic>, added: seq<Topic>)
    requires Enabled(w, Snapshot(removed, added))
    ensures Exec(w, [Snapshot(removed, added)]) == Some(AtFrame(w, SyncFrames(removed, added), 0))
  {
    var fs := SyncFrames(removed, added);
    ExecSnoc(w, [], w, Snapshot(removed, added));
    assert [] + [Snapshot(removed, added)] == [Snapshot(removed, added)];
    assert fs[0..] == fs && fs[..0] == [];
  }

  // The snapshot and m frames.
  function Sends(removed: seq<Topic>, added: seq<Topic>, m: nat): (es: seq<Event>)
    ensures |es| == m + 1
  {
    if m == 0 then [Snapshot(removed, added)] else Sends(removed, added, m - 1) + [SendNext]
  }

  lemma {:induction false} SendingRun(w: World, removed: seq<Topic>, added: seq<Topic>, m: nat)
    requires Enabled(w, Snapshot(removed, added)) && m <= |SyncFrames(removed, added)|
    ensures Exec(w, Sends(removed, added, m)) == Some(AtFrame(w, SyncFrames(removed, added), m))
  {
    if m == 0 {
      SnapshotStep(w, removed, added);
    } else {
      SendingRun(w, removed, added, m - 1);
      FrameStep(w, SyncFrames(removed, added), m);
      ExecSnoc(w, Sends(removed, added, m - 1), AtFrame(w, SyncFrames(removed, added), m - 1), SendNext);
    }
  }

  // A successful call takes the connection from Starting to Waiting: its snapshot,
  // its frames and its end are the steps of a run.
  lemma SyncIsARun(w: World, removed: seq<Topic>, added: seq<Topic>)
    requires Enabled(w, Snapshot(removed, added))
    ensures var fs := SyncFrames(removed, added);
            Exec(w, Sends(removed, added, |fs|) + [FinishSync]) ==
            Some(w.(conn := Live(w.topics, ApplyAll(w.conn.server, fs), Waiting)))
  {
    var fs := SyncFrames(removed, added);
    SendingRun(w, removed, added, |fs|);
    assert fs[..|fs|] == fs && fs[|fs|..] == [];
    ExecSnoc(w, Sends(removed, added, |fs|), AtFrame(w, fs, |fs|), FinishSync);
  }

  // A call whose write fails after m frames is a run that ends with the connection dropped.
  lemma BrokenSyncIsARun(w: World, removed: seq<Topic>, added: seq<Topic>, m: nat)
    requires Enabled(w, Snapshot(removed, added)) && m <= |SyncFrames(removed, added)|
    ensures Exec(w, Sends(removed, added, m) + [Drop]) == Some(w.(conn := Down))
  {
    SendingRun(w, removed, added, m);
    ExecSnoc(w, Sends(removed, added, m), AtFrame(w, SyncFrames(removed, added), m), Drop);
  }

  // One pass of the sync goroutine over a client that nobody changes meanwhile, with
  // the world before and after as the classes show them.
  method SyncPass(client: Client, conn: Connection, current: seq<Topic>, walk: seq<Topic>)
    returns (ok: bool, ghost es: seq<Event>)
    requires ToSet(current) == client.topics && ToSet(walk) == conn.submitted
    modifies conn
    ensures Exec(old(client.View(conn.View(Starting))), es) ==
            Some(client.View(if ok then conn.View(Waiting) else Down))
    ensures |es| >= 2 && |conn.sent| == |old(conn.sent)| + |es| - 2
    ensures ok <==> es[|es| - 1] == FinishSync
  {
    ghost var w := client.View(conn.View(Starting));
    ghost var n, server := conn.writesLeft, ApplyAll({}, conn.sent);
    ghost var before := conn.sent;
    ghost var removed, added;
    ok, removed, added := conn.SyncTopics(current, walk);
    ghost var fs := SyncFrames(removed, added);
    if ok {
      es := Sends(removed, added, |fs|) + [FinishSync];
      SyncIsARun(w, removed, added);
      ApplyAppend({}, before, fs);
    } else {
      es := Sends(removed, added, n) + [Drop];
      BrokenSyncIsARun(w, removed, added, n);
    }
  }

  // ------------------------------------------------------------------
  // Convergence
  // ------------------------------------------------------------------

  // A change that has not reached the connection is still going to be signalled.
  predicate Pending(w: World) { w.signal || w.unsignalled > 0 }

  ghost predicate SyncInv(w: World) {
    match w.conn
    case Down => true
    case Live(submitted, server, Waiting) => submitted == server && (w.topics != submitted ==> Pending(w))
    case Live(submitted, server, Starting) => submitted == server
    case Live(_, server, Sending(snapshot, frames)) =>
      ApplyAll(server, frames) == snapshot && (w.topics != snapshot ==> Pending(w))
  }

  lemma SyncStep(w: World, e: Event)
    requires SyncInv(w) && Enabled(w, e)
    ensures SyncInv(Step(w, e))
  {
    if e.Snapshot? {
      SyncFramesApply(w.conn.server, e.removed, e.added);
      assert w.conn.server - ToSet(e.removed) + ToSet(e.added) == w.topics;
    }
  }

  lemma {:induction false} SyncInvHolds(es: seq<Event>, w: World)
    requires Exec(INIT, es) == Some(w)
    ensures SyncInv(w)
  {
    if es != [] {
      var v := Exec(INIT, es[..|es| - 1]).value;
      SyncInvHolds(es[..|es| - 1], v);
      SyncStep(v, es[|es| - 1]);
    }
  }

  // Nothing is under way: the connection is up, no caller is about to signal, no
  // signal is waiting and no sync is running.
  predicate Settled(w: World) {
    w.conn.Live? && w.conn.sync.Waiting? && !w.signal && w.unsignalled == 0
  }

  // In every run, over any number of reconnects, a settled client has submitted
  // exactly the registered topics, and the server holds exactly those.
  lemma TopicsConverge(es: seq<Event>, w: World)
    requires Exec(INIT, es) == Some(w) && Settled(w)
    ensures w.conn.submitted == w.topics && w.conn.server == w.topics
  {
    SyncInvHolds(es, w);
  }

  // From every reachable world the client can settle without further changes to
  // the topics, and doing so leaves the topics as they were.
  lemma CanSettle(es: seq<Event>, w: World) returns (more: seq<Event>, v: World)
    requires Exec(INIT, es) == Some(w)
    ensures Exec(INIT, es + more) == Some(v) && Settled(v) && v.topics == w.topics
  {
    more, v := [], w;
    assert es + [] == es;
    while !Settled(v)
      invariant Exec(INIT, es + more) == Some(v) && v.topics == w.topics
      decreases v.unsignalled, if v.conn.Down? then 1 else 0, if v.signal then 1 else 0, Rank(v), FramesLeft(v)
    {
      var e := Progress(v);
      assert (es + (more + [e]))[..|es + more|] == es + more;
      assert es + (more + [e]) == es + more + [e];
      more, v := more + [e], Step(v, e);
    }
  }

  function Rank(w: World): nat {
    match w.conn
    case Down => 0
    case Live(_, _, Waiting) => 0
    case Live(_, _, Sending(_, _)) => 1
    case Live(_, _, Starting) => 2
  }

  function FramesLeft(w: World): nat {
    match w.conn
    case Live(_, _, Sending(_, frames)) => |frames|
    case _ => 0
  }

  // A step that brings the client closer to being settled.
  ghost function Progress(w: World): (e: Event)
    requires !Settled(w)
    ensures Enabled(w, e) && !e.Add? && !e.Remove? && !e.Drop?
  {
    if w.unsignalled > 0 then SignalNow
    else
      match w.conn
      case Down => Dial
      case Live(_, _, Waiting) => TakeSignal
      case Live(submitted, _, Starting) => Snapshot(Listing(submitted - w.topics), Listing(w.topics - submitted))
      case Live(_, _, Sending(_, frames)) => if frames != [] then SendNext else FinishSync
  }
}
