// The request loop that Do and doBatchChunk share (internal/gql/client.go): a
// single operation is the case of exactly one envelope per response.
module RetryLoop {
  import opened Common

  datatype Envelope = Envelope(errors: seq<string>, error: string, data: string)

  datatype Body = Garbled | Envelopes(envs: seq<Envelope>)

  datatype Wire = NetworkError | Http(status: int, body: Body)

  // What the outside world does during one pass of the loop: whether the limiter
  // admits it, what the request brings, whether the context is still alive after
  // a network error, whether a token refresh works, whether a sleep runs to its end.
  datatype Attempt = Attempt(admitted: bool, wire: Wire, ctxAlive: bool, refreshOk: bool, slept: bool)

  datatype Failure = NotAdmitted | ContextDone | Unauthorized | RefreshFailed | BadJson | GraphQL(message: string)

  datatype Outcome = Data(data: seq<string>) | Fail(why: Failure) | Running

  datatype Act = Acquire | Post | Release | Refresh | SleepOnce | SleepTransient

  // singleRetry and unauthorizedRefreshed.
  datatype Flags = Flags(single: bool, refreshed: bool)

  predicate OneOff(msg: string) { msg == "PersistedQueryNotFound" || msg == "service error" }

  predicate Transient(msg: string) {
    msg == "service timeout" || msg == "service unavailable" || msg == "context deadline exceeded"
  }

  predicate Overloaded(status: int) { status == 429 || 500 <= status < 600 }

  datatype Verdict = NoRetry | RetryOnce | RetryTransient

  // The first message that calls for a retry decides.
  function ScanMessages(msgs: seq<string>, single: bool): Verdict {
    if msgs == [] then NoRetry
    else if single && OneOff(msgs[0]) then RetryOnce
    else if Transient(msgs[0]) then RetryTransient
    else ScanMessages(msgs[1..], single)
  }

  function AllErrors(envs: seq<Envelope>): seq<string> {
    if envs == [] then [] else envs[0].errors + AllErrors(envs[1..])
  }

  lemma {:induction false} ScanAppend(a: seq<string>, b: seq<string>, single: bool)
    ensures ScanMessages(a + b, single) ==
            if ScanMessages(a, single) == NoRetry then ScanMessages(b, single) else ScanMessages(a, single)
  {
    if a == [] {
      assert a + b == b;
    } else {
      assert (a + b)[1..] == a[1..] + b;
      ScanAppend(a[1..], b, single);
    }
  }

  method Scan(envs: seq<Envelope>, single: bool) returns (v: Verdict)
    ensures v == ScanMessages(AllErrors(envs), single)
  {
    for i := 0 to |envs|
      invariant ScanMessages(AllErrors(envs), single) == ScanMessages(AllErrors(envs[i..]), single)
    {
      var errors := envs[i].errors;
      assert envs[i..][1..] == envs[i + 1..];
      ScanAppend(errors, AllErrors(envs[i + 1..]), single);
      for j := 0 to |errors|
        invariant ScanMessages(errors, single) == ScanMessages(errors[j..], single)
      {
        assert errors[j..][1..] == errors[j + 1..];
        if single && OneOff(errors[j]) {
          return RetryOnce;
        }
        if Transient(errors[j]) {
          return RetryTransient;
        }
      }
    }
    return NoRetry;
  }

  predicate Clean(e: Envelope) { |e.errors| == 0 && e.error == "" }

  // The data of the envelopes, or the failure of the first one that is not clean.
  function Collect(envs: seq<Envelope>): Outcome {
    if envs == [] then Data([])
    else if |envs[0].errors| > 0 then Fail(GraphQL(envs[0].errors[0]))
    else if envs[0].error != "" then Fail(GraphQL(envs[0].error))
    else
      match Collect(envs[1..])
      case Data(ds) => Data([envs[0].data] + ds)
      case other => other
  }

  method CollectAll(envs: seq<Envelope>) returns (r: Outcome)
    ensures r == Collect(envs)
  {
    var raw: seq<string> := [];
    for i := 0 to |envs|
      invariant Collect(envs) == match Collect(envs[i..]) case Data(ds) => Data(raw + ds) case other => other
    {
      assert envs[i..][1..] == envs[i + 1..];
      if |envs[i].errors| > 0 {
        return Fail(GraphQL(envs[i].errors[0]));
      }
      if envs[i].error != "" {
        return Fail(GraphQL(envs[i].error));
      }
      assert forall ds: seq<string> :: raw + ([envs[i].data] + ds) == raw + [envs[i].data] + ds;
      raw := raw + [envs[i].data];
    }
    assert raw + [] == raw;
    return Data(raw);
  }

  // ------------------------------------------------------------------
  // The loop
  // ------------------------------------------------------------------

  datatype Next = Done(out: Outcome) | Again(flags: Flags)

  // One admitted pass: what the loop does after releasing its slot, and how it goes on.
  function Pass(a: Attempt, f: Flags, hasRefresher: bool): (seq<Act>, Next) {
    match a.wire
    case NetworkError =>
      if !a.ctxAlive then ([], Done(Fail(ContextDone)))
      else ([SleepTransient], if a.slept then Again(f) else Done(Fail(ContextDone)))
    case Http(status, body) =>
      if status == 401 then
        if !f.refreshed && hasRefresher then
          ([Refresh], if a.refreshOk then Again(f.(refreshed := true)) else Done(Fail(RefreshFailed)))
        else ([], Done(Fail(Unauthorized)))
      else if Overloaded(status) then
        ([SleepTransient], if a.slept then Again(f) else Done(Fail(ContextDone)))
      else
        match body
        case Garbled => ([], Done(Fail(BadJson)))
        case Envelopes(envs) =>
          match ScanMessages(AllErrors(envs), f.single)
          case RetryOnce =>
            ([SleepOnce], if a.slept then Again(f.(single := false)) else Done(Fail(ContextDone)))
          case RetryTransient => ([SleepTransient], if a.slept then Again(f) else Done(Fail(ContextDone)))
          case NoRetry => ([], Done(Collect(envs)))
  }

  const EXCHANGE := [Acquire, Post, Release]

  // What the loop does on a trace of the outside world. Running: the trace ends
  // before the loop does.
  function Run(trace: seq<Attempt>, f: Flags, hasRefresher: bool): (Outcome, seq<Act>) {
    if trace == [] then (Running, [])
    else if !trace[0].admitted then (Fail(NotAdmitted), [])
    else
      var (acts, next) := Pass(trace[0], f, hasRefresher);
      match next
      case Done(out) => (out, EXCHANGE + acts)
      case Again(g) =>
        var (out, log) := Run(trace[1..], g, hasRefresher);
        (out, EXCHANGE + acts + log)
  }

  const FRESH := Flags(true, false)

  method Do(trace: seq<Attempt>, hasRefresher: bool) returns (r: Outcome, log: seq<Act>)
    ensures (r, log) == Run(trace, FRESH, hasRefresher)
  {
    log := [];
    var singleRetry, unauthorizedRefreshed := true, false;
    ghost var whole := Run(trace, FRESH, hasRefresher);
    var i := 0;
    assert trace[0..] == trace && [] + whole.1 == whole.1;
    while i < |trace|
      invariant 0 <= i <= |trace|
      invariant var rest := Run(trace[i..], Flags(singleRetry, unauthorizedRefreshed), hasRefresher);
                whole == (rest.0, log + rest.1)
    {
      var a := trace[i];
      ghost var f := Flags(singleRetry, unauthorizedRefreshed);
      LoopStep(trace, i, f, hasRefresher, log);
      i := i + 1;
      if !a.admitted {
        return Fail(NotAdmitted), log;
      }
      log := log + [Acquire, Post, Release];
      if a.wire.NetworkError? {
        if !a.ctxAlive {
          return Fail(ContextDone), log;
        }
        log := log + [SleepTransient];
        if !a.slept {
          return Fail(ContextDone), log;
        }
        continue;
      }
      if a.wire.status == 401 {
        if !unauthorizedRefreshed && hasRefresher {
          unauthorizedRefreshed := true;
          log := log + [Refresh];
          if !a.refreshOk {
            return Fail(RefreshFailed), log;
          }
          continue;
        }
        return Fail(Unauthorized), log;
      }
      if a.wire.status == 429 || (a.wire.status >= 500 && a.wire.status < 600) {
        log := log + [SleepTransient];
        if !a.slept {
          return Fail(ContextDone), log;
        }
        continue;
      }
      if a.wire.body.Garbled? {
        return Fail(BadJson), log;
      }
      var verdict := Scan(a.wire.body.envs, singleRetry);
      if verdict != NoRetry {
        if verdict == RetryOnce {
          singleRetry := false;
          log := log + [SleepOnce];
        } else {
          log := log + [SleepTransient];
        }
        if !a.slept {
          return Fail(ContextDone), log;
        }
        continue;
      }
      r := CollectAll(a.wire.body.envs);
      return r, log;
    }
    assert trace[i..] == [] && log + [] == log;
    return Running, log;
  }

  // The remaining run, with this pass taken off its front.
  lemma LoopStep(trace: seq<Attempt>, i: nat, f: Flags, hasRefresher: bool, log: seq<Act>)
    requires i < |trace|
    ensures var (out, rest) := Run(trace[i..], f, hasRefresher);
            var (acts, next) := Pass(trace[i], f, hasRefresher);
            if !trace[i].admitted then (out, log + rest) == (Fail(NotAdmitted), log)
            else
              match next
              case Done(o) => (out, log + rest) == (o, log + [Acquire, Post, Release] + acts)
              case Again(g) =>
                var (o, l) := Run(trace[i + 1..], g, hasRefresher);
                (out, log + rest) == (o, log + [Acquire, Post, Release] + acts + l)
    ensures var m := log + [Acquire, Post, Release]; m + [] == m
  {
    assert trace[i..][1..] == trace[i + 1..];
    var (acts, next) := Pass(trace[i], f, hasRefresher);
    assert log + [] == log;
    assert log + (EXCHANGE + acts) == log + [Acquire, Post, Release] + acts;
    if next.Again? {
      var l := Run(trace[i + 1..], next.flags, hasRefresher).1;
      assert log + (EXCHANGE + acts + l) == log + [Acquire, Post, Release] + acts + l;
    }
  }

  // ------------------------------------------------------------------
  // Bounds
  // ------------------------------------------------------------------

  function Times(log: seq<Act>, a: Act): nat {
    Count(log, (x: Act) => x == a)
  }

  // The loop retries this attempt for a transient outcome.
  predicate RetriedAsTransient(a: Attempt, f: Flags, hasRefresher: bool) {
    Pass(a, f, hasRefresher).0 == [SleepTransient]
  }

  // How many attempts of a run are retried for a transient outcome.
  function TransientRetries(trace: seq<Attempt>, f: Flags, hasRefresher: bool): nat {
    if trace == [] || !trace[0].admitted then 0
    else
      Chance(RetriedAsTransient(trace[0], f, hasRefresher)) +
      match Pass(trace[0], f, hasRefresher).1
      case Done(_) => 0
      case Again(g) => TransientRetries(trace[1..], g, hasRefresher)
  }

  // Messages the source retries once, and messages it retries as often as they come.
  predicate SaysOnce(m: string) { m in {"PersistedQueryNotFound", "service error"} }

  predicate SaysTransient(m: string) { m in {"service timeout", "service unavailable", "context deadline exceeded"} }

  // Message k is the first that calls for a retry.
  predicate Decides(msgs: seq<string>, single: bool, k: nat)
    requires k < |msgs|
  {
    && (SaysTransient(msgs[k]) || (single && SaysOnce(msgs[k])))
    && forall j :: 0 <= j < k ==> !SaysTransient(msgs[j]) && !(single && SaysOnce(msgs[j]))
  }

  predicate TransientDecides(msgs: seq<string>, single: bool) {
    exists k :: 0 <= k < |msgs| && Decides(msgs, single, k) && SaysTransient(msgs[k])
  }

  predicate OnceDecides(msgs: seq<string>, single: bool) {
    exists k :: 0 <= k < |msgs| && Decides(msgs, single, k) && SaysOnce(msgs[k])
  }

  lemma {:induction false} ScanExact(msgs: seq<string>, single: bool)
    ensures ScanMessages(msgs, single) == RetryTransient <==> TransientDecides(msgs, single)
    ensures ScanMessages(msgs, single) == RetryOnce <==> OnceDecides(msgs, single)
  {
    if msgs != [] {
      var rest := msgs[1..];
      ScanExact(rest, single);
      if SaysTransient(msgs[0]) || (single && SaysOnce(msgs[0])) {
        assert Decides(msgs, single, 0);
      } else {
        forall k | 0 < k < |msgs|
          ensures Decides(msgs, single, k) <==> Decides(rest, single, k - 1)
        {
          DecidesLater(msgs, single, k);
        }
        if k :| 0 <= k < |rest| && Decides(rest, single, k) {
          assert Decides(msgs, single, k + 1);
        }
      }
    }
  }

  lemma DecidesLater(msgs: seq<string>, single: bool, k: nat)
    requires 0 < k < |msgs| && !SaysTransient(msgs[0]) && !(single && SaysOnce(msgs[0]))
    ensures Decides(msgs, single, k) <==> Decides(msgs[1..], single, k - 1)
  {
    assert forall j :: 0 <= j < k ==> msgs[1..][j] == msgs[j + 1];
  }

  // A response that is neither 401 nor 429 nor 5xx and can be decoded.
  predicate Decoded(a: Attempt) {
    a.wire.Http? && a.wire.status != 401 && a.wire.status != 429 && !(500 <= a.wire.status <= 599) && a.wire.body.Envelopes?
  }

  // Transient outcomes are network errors that did not come from a dead context,
  // 429 and 5xx, and other decoded responses in which a transient message decides.
  lemma TransientExact(a: Attempt, f: Flags, hasRefresher: bool)
    ensures RetriedAsTransient(a, f, hasRefresher) <==>
            || (a.wire.NetworkError? && a.ctxAlive)
            || (a.wire.Http? && (a.wire.status == 429 || 500 <= a.wire.status <= 599))
            || (Decoded(a) && TransientDecides(AllErrors(a.wire.body.envs), f.single))
  {
    if Decoded(a) {
      ScanExact(AllErrors(a.wire.body.envs), f.single);
    }
  }

  // What else an admitted attempt can lead to: a refresh of a token that was not
  // refreshed yet, the single retry, or the end of the call.
  lemma PassExact(a: Attempt, f: Flags, hasRefresher: bool)
    ensures var (acts, next) := Pass(a, f, hasRefresher);
            var refused := a.wire.Http? && a.wire.status == 401;
            && (acts == [Refresh] <==> refused && hasRefresher && !f.refreshed)
            && (acts == [SleepOnce] <==> Decoded(a) && OnceDecides(AllErrors(a.wire.body.envs), f.single))
            && (acts != [] && (acts == [Refresh] ==> a.refreshOk) && (acts != [Refresh] ==> a.slept) <==> next.Again?)
            && (next == Done(Fail(Unauthorized)) <==> refused && !(hasRefresher && !f.refreshed))
            && (next == Done(Fail(RefreshFailed)) <==> refused && hasRefresher && !f.refreshed && !a.refreshOk)
            && (next == Done(Fail(ContextDone)) <==>
                (a.wire.NetworkError? && !a.ctxAlive) || (acts != [] && acts != [Refresh] && !a.slept))
            && (next == Done(Fail(BadJson)) <==>
                a.wire.Http? && !refused && a.wire.status != 429 && !(500 <= a.wire.status <= 599) && a.wire.body.Garbled?)
            && (Decoded(a) && acts == [] ==> next == Done(Collect(a.wire.body.envs)))
  {
    if Decoded(a) {
      ScanExact(AllErrors(a.wire.body.envs), f.single);
      CollectExact(a.wire.body.envs);
      CollectFailure(a.wire.body.envs);
    }
  }

  // A call that the limiter does not admit ends there, without a request.
  lemma NotAdmittedEnds(trace: seq<Attempt>, f: Flags, hasRefresher: bool)
    requires trace != [] && !trace[0].admitted
    ensures Run(trace, f, hasRefresher) == (Fail(NotAdmitted), [])
  {
  }

  // An admitted attempt that ran into a network error on a live context, or got 429 or
  // 5xx, whatever the body, and slept to the end.
  predicate TransientReply(a: Attempt) {
    a.admitted && a.slept &&
    ((a.wire.NetworkError? && a.ctxAlive) || (a.wire.Http? && (a.wire.status == 429 || 500 <= a.wire.status <= 599)))
  }

  // However many of those come first, the clean reply after them is what the call returns.
  lemma {:induction false} TransientThenData(trace: seq<Attempt>, last: Attempt, f: Flags, hasRefresher: bool)
    requires forall a :: a in trace ==> TransientReply(a)
    requires last.admitted && Decoded(last) && forall e :: e in last.wire.body.envs ==> e.errors == [] && e.error == ""
    ensures var envs := last.wire.body.envs;
            Run(trace + [last], f, hasRefresher).0 == Data(seq(|envs|, i requires 0 <= i < |envs| => envs[i].data))
  {
    var envs := last.wire.body.envs;
    if trace == [] {
      assert [] + [last] == [last];
      NoErrors(envs);
      CollectExact(envs);
    } else {
      assert trace[0] in trace;
      assert (trace + [last])[1..] == trace[1..] + [last];
      TransientThenData(trace[1..], last, f, hasRefresher);
    }
  }

  lemma {:induction false} NoErrors(envs: seq<Envelope>)
    requires forall e :: e in envs ==> e.errors == []
    ensures AllErrors(envs) == []
  {
    if envs != [] {
      assert envs[0] in envs;
      NoErrors(envs[1..]);
    }
  }

  function Chance(b: bool): nat { if b then 1 else 0 }

  lemma {:induction false} ScanOnce(msgs: seq<string>, single: bool)
    ensures ScanMessages(msgs, single) == RetryOnce ==> single
  {
    if msgs != [] {
      ScanOnce(msgs[1..], single);
    }
  }

  // What one pass adds to the counts of the passes after it.
  lemma PassCounts(acts: seq<Act>, log: seq<Act>)
    requires acts == [] || acts == [Refresh] || acts == [SleepOnce] || acts == [SleepTransient]
    ensures var all := EXCHANGE + acts + log;
            && Times(all, Post) == 1 + Times(log, Post)
            && Times(all, Acquire) == 1 + Times(log, Acquire)
            && Times(all, Release) == 1 + Times(log, Release)
            && Times(all, Refresh) == Chance(acts == [Refresh]) + Times(log, Refresh)
            && Times(all, SleepOnce) == Chance(acts == [SleepOnce]) + Times(log, SleepOnce)
            && Times(all, SleepTransient) == Chance(acts == [SleepTransient]) + Times(log, SleepTransient)
  {
    CountOf(acts, log, Post);
    CountOf(acts, log, Acquire);
    CountOf(acts, log, Release);
    CountOf(acts, log, Refresh);
    CountOf(acts, log, SleepOnce);
    CountOf(acts, log, SleepTransient);
  }

  lemma CountOf(acts: seq<Act>, log: seq<Act>, a: Act)
    requires |acts| <= 1
    ensures Times(EXCHANGE + acts + log, a) ==
            Chance(a == Acquire || a == Post || a == Release) + Chance(acts == [a]) + Times(log, a)
  {
    var same := (x: Act) => x == a;
    CountAppend(EXCHANGE + acts, log, same);
    CountAppend(EXCHANGE, acts, same);
    assert EXCHANGE[1..] == [Post, Release] && EXCHANGE[1..][1..] == [Release];
  }

  lemma PassFlags(a: Attempt, f: Flags, hasRefresher: bool)
    ensures var (acts, next) := Pass(a, f, hasRefresher);
            && (acts == [] || acts == [Refresh] || acts == [SleepOnce] || acts == [SleepTransient])
            && (acts == [Refresh] ==> !f.refreshed) && (acts == [SleepOnce] ==> f.single)
            && (next.Again? ==>
                  && acts != []
                  && next.flags == Flags(f.single && acts != [SleepOnce], f.refreshed || acts == [Refresh]))
  {
    if a.wire.Http? && a.wire.body.Envelopes? {
      ScanOnce(AllErrors(a.wire.body.envs), f.single);
    }
  }

  // With `retries` transient retries: every attempt takes and returns one slot, and
  // every attempt but the last is followed by one retry of one of the three kinds.
  predicate Accounted(trace: seq<Attempt>, f: Flags, log: seq<Act>, retries: nat) {
    var n := Times(log, Post);
    && n <= |trace|
    && Times(log, Acquire) == n && Times(log, Release) == n
    && Times(log, Refresh) <= Chance(!f.refreshed)
    && Times(log, SleepOnce) <= Chance(f.single)
    && Times(log, SleepTransient) == retries
    && retries + Times(log, Refresh) + Times(log, SleepOnce) <= n
    && n <= retries + Times(log, Refresh) + Times(log, SleepOnce) + 1
  }

  lemma AccountedAgain(trace: seq<Attempt>, f: Flags, hasRefresher: bool, log: seq<Act>, retries: nat)
    requires trace != [] && Pass(trace[0], f, hasRefresher).1.Again?
    requires Accounted(trace[1..], Pass(trace[0], f, hasRefresher).1.flags, log, retries)
    ensures Accounted(trace, f, EXCHANGE + Pass(trace[0], f, hasRefresher).0 + log,
                      Chance(RetriedAsTransient(trace[0], f, hasRefresher)) + retries)
  {
    PassFlags(trace[0], f, hasRefresher);
    PassCounts(Pass(trace[0], f, hasRefresher).0, log);
  }

  lemma AccountedDone(trace: seq<Attempt>, f: Flags, hasRefresher: bool)
    requires trace != [] && Pass(trace[0], f, hasRefresher).1.Done?
    ensures Accounted(trace, f, EXCHANGE + Pass(trace[0], f, hasRefresher).0,
                      Chance(RetriedAsTransient(trace[0], f, hasRefresher)))
  {
    var acts := Pass(trace[0], f, hasRefresher).0;
    PassFlags(trace[0], f, hasRefresher);
    PassCounts(acts, []);
    assert EXCHANGE + acts + [] == EXCHANGE + acts;
  }

  // Where the attempts of a run go: each is retried for a transient outcome, is the
  // one refreshed, the one retried once, or the last.
  lemma {:induction false} AttemptsAccounted(trace: seq<Attempt>, f: Flags, hasRefresher: bool)
    ensures Accounted(trace, f, Run(trace, f, hasRefresher).1, TransientRetries(trace, f, hasRefresher))
  {
    if trace != [] && trace[0].admitted {
      match Pass(trace[0], f, hasRefresher).1
      case Done(_) => AccountedDone(trace, f, hasRefresher);
      case Again(g) =>
        AttemptsAccounted(trace[1..], g, hasRefresher);
        AccountedAgain(trace, f, hasRefresher, Run(trace[1..], g, hasRefresher).1,
                       TransientRetries(trace[1..], g, hasRefresher));
    }
  }

  // A call that is retried for T transient outcomes makes at most T + 3 attempts,
  // refreshes the token at most once and takes the single retry at most once.
  lemma RetryBound(trace: seq<Attempt>, hasRefresher: bool)
    ensures var log := Run(trace, FRESH, hasRefresher).1;
            var n := Times(log, Post);
            && n <= |trace| && n <= TransientRetries(trace, FRESH, hasRefresher) + 3
            && Times(log, Refresh) <= 1 && Times(log, SleepOnce) <= 1
  {
    AttemptsAccounted(trace, FRESH, hasRefresher);
  }

  // A slot is taken when none is held, used for one request, and given back
  // before any refresh or sleep; none is held at the end.
  predicate SlotDiscipline(log: seq<Act>, held: bool) {
    if log == [] then !held
    else
      match log[0]
      case Acquire => !held && SlotDiscipline(log[1..], true)
      case Post => held && SlotDiscipline(log[1..], true)
      case Release => held && SlotDiscipline(log[1..], false)
      case _ => !held && SlotDiscipline(log[1..], false)
  }

  lemma DisciplinePass(acts: seq<Act>, log: seq<Act>)
    requires |acts| <= 1 && (acts == [] || acts[0] == Refresh || acts[0] == SleepOnce || acts[0] == SleepTransient)
    requires SlotDiscipline(log, false)
    ensures SlotDiscipline(EXCHANGE + acts + log, false)
  {
    var l := acts + log;
    assert acts == [] ==> l == log;
    assert acts != [] ==> l[1..] == log;
    assert SlotDiscipline(l, false);
    assert ([Release] + l)[1..] == l;
    assert ([Post, Release] + l)[1..] == [Release] + l;
    assert (EXCHANGE + acts + log)[1..] == [Post, Release] + l;
  }

  lemma {:induction false} SlotsReturned(trace: seq<Attempt>, f: Flags, hasRefresher: bool)
    ensures SlotDiscipline(Run(trace, f, hasRefresher).1, false)
  {
    if trace != [] && trace[0].admitted {
      var (acts, next) := Pass(trace[0], f, hasRefresher);
      PassFlags(trace[0], f, hasRefresher);
      match next
      case Done(_) =>
        DisciplinePass(acts, []);
        assert EXCHANGE + acts + [] == EXCHANGE + acts;
      case Again(g) =>
        SlotsReturned(trace[1..], g, hasRefresher);
        DisciplinePass(acts, Run(trace[1..], g, hasRefresher).1);
    }
  }

  // A call returns data only from a response all of whose envelopes are clean,
  // and then the data of those envelopes in order.
  lemma {:induction false} CollectExact(envs: seq<Envelope>)
    ensures Collect(envs).Data? <==> forall i :: 0 <= i < |envs| ==> envs[i].errors == [] && envs[i].error == ""
    ensures Collect(envs).Data? ==> Collect(envs).data == seq(|envs|, i requires 0 <= i < |envs| => envs[i].data)
    ensures !Collect(envs).Running?
  {
    if envs != [] {
      CollectExact(envs[1..]);
      assert forall i :: 0 < i < |envs| ==> envs[i] == envs[1..][i - 1];
    }
  }

  // Where an envelope is not clean, the call fails with the first message of the first
  // such envelope, or with its error field when it has no messages.
  lemma {:induction false} CollectFailure(envs: seq<Envelope>)
    ensures Collect(envs).Data? ||
            exists i :: 0 <= i < |envs| && !Clean(envs[i]) && (forall j :: 0 <= j < i ==> Clean(envs[j])) &&
              Collect(envs) == Fail(GraphQL(if envs[i].errors != [] then envs[i].errors[0] else envs[i].error))
  {
    if envs != [] && Clean(envs[0]) {
      var rest := envs[1..];
      CollectFailure(rest);
      if !Collect(rest).Data? {
        var i :| 0 <= i < |rest| && !Clean(rest[i]) && (forall j :: 0 <= j < i ==> Clean(rest[j])) &&
                 Collect(rest) == Fail(GraphQL(if rest[i].errors != [] then rest[i].errors[0] else rest[i].error));
        assert envs[i + 1] == rest[i] && forall j :: 0 <= j < i ==> envs[j + 1] == rest[j];
      }
    }
  }

  lemma {:induction false} SuccessIsTheLastResponse(trace: seq<Attempt>, f: Flags, hasRefresher: bool)
    requires Run(trace, f, hasRefresher).0.Data?
    ensures var (out, log) := Run(trace, f, hasRefresher);
            var n := Times(log, Post);
            1 <= n <= |trace| && trace[n - 1].wire.Http? && trace[n - 1].wire.body.Envelopes? &&
            out == Collect(trace[n - 1].wire.body.envs)
  {
    var (acts, next) := Pass(trace[0], f, hasRefresher);
    PassFlags(trace[0], f, hasRefresher);
    match next
    case Done(out) =>
      PassCounts(acts, []);
      assert EXCHANGE + acts + [] == EXCHANGE + acts;
      DoneWithData(trace[0], f, hasRefresher);
    case Again(g) =>
      SuccessIsTheLastResponse(trace[1..], g, hasRefresher);
      PassCounts(acts, Run(trace[1..], g, hasRefresher).1);
  }

  lemma DoneWithData(a: Attempt, f: Flags, hasRefresher: bool)
    requires Pass(a, f, hasRefresher).1.Done? && Pass(a, f, hasRefresher).1.out.Data?
    ensures a.wire.Http? && a.wire.body.Envelopes?
    ensures Pass(a, f, hasRefresher).1.out == Collect(a.wire.body.envs)
  {
  }

  // ------------------------------------------------------------------
  // The bound is attained
  // ------------------------------------------------------------------

  function Reply(status: int, messages: seq<string>): Attempt {
    Attempt(true, Http(status, Envelopes([Envelope(messages, "", "data")])), true, true, true)
  }

  // t overloaded replies and then a clean one.
  lemma {:induction false} Overloads(t: nat)
    ensures var trace := Repeat(Reply(500, []), t) + [Reply(200, [])];
            && Times(Run(trace, Flags(false, true), true).1, Post) == t + 1
            && TransientRetries(trace, Flags(false, true), true) == t
  {
    var trace := Repeat(Reply(500, []), t) + [Reply(200, [])];
    if t == 0 {
      assert trace == [Reply(200, [])];
      assert AllErrors([Envelope([], "", "data")]) == [];
      PassCounts([], []);
      assert EXCHANGE + [] + [] == EXCHANGE + [];
    } else {
      RepeatFront(Reply(500, []), t);
      assert trace[1..] == Repeat(Reply(500, []), t - 1) + [Reply(200, [])];
      Overloads(t - 1);
      PassCounts([SleepTransient], Run(trace[1..], Flags(false, true), true).1);
    }
  }

  lemma {:induction false} RepeatFront<T>(x: T, k: nat)
    requires k > 0
    ensures Repeat(x, k) == [x] + Repeat(x, k - 1)
  {
    if k > 1 {
      RepeatFront(x, k - 1);
    }
  }

  // A rejected token and a one-off error come first, then t overloaded replies.
  function Worst(t: nat): seq<Attempt> {
    [Reply(401, [])] + ([Reply(200, ["service error"])] + (Repeat(Reply(500, []), t) + [Reply(200, [])]))
  }

  // For every T some server has a call retried for T transient outcomes spend all T + 3 attempts.
  lemma RetryBoundIsSharp(t: nat)
    ensures Times(Run(Worst(t), FRESH, true).1, Post) == |Worst(t)| == t + 3
    ensures TransientRetries(Worst(t), FRESH, true) == t
  {
    var tail := Repeat(Reply(500, []), t) + [Reply(200, [])];
    var once := [Reply(200, ["service error"])] + tail;
    Overloads(t);
    assert once[1..] == tail && Worst(t)[1..] == once;
    assert AllErrors([Envelope(["service error"], "", "data")]) == ["service error"] + [];
    assert Pass(Reply(401, []), FRESH, true) == ([Refresh], Again(Flags(true, true)));
    assert Pass(Reply(200, ["service error"]), Flags(true, true), true) == ([SleepOnce], Again(Flags(false, true)));
    PassCounts([SleepOnce], Run(tail, Flags(false, true), true).1);
    PassCounts([Refresh], Run(once, Flags(true, true), true).1);
  }
}
