/**
  main_dbv0.c's `simulate`: the first driver, a single function that
  connects to InfluxDB, instantiates and initializes the model, optionally
  sets one input, steps from 0 to tEnd and, after each step, reads catalog
  entries 1 and 3 and writes them as one line-protocol point.
 */
module SimDbv0 {
  import opened Fmi
  import opened Text
  import opened Influx
  import opened Schedule
  import Env

  /** The InfluxDB credentials and the host tag the file hard-codes. */
  const Database := "rt_test"
  const Username := "rw_db"
  const Password := "dansan"
  const HostName := "dansan"

  /** How a run of `simulate` ends: the process exits (a failed connect),
      a failure is returned, or all steps complete. */
  datatype Outcome = Exited | Failed | Completed(steps: nat)

  // ---------------------------------------------------------------------
  // The inputs

  /** One setReal call: the arrays handed over and the count passed. */
  datatype SetCall = SetCall(refs: seq<Env.ValueRef>, values: seq<real>, count: int)

  /** The callee reads count entries of both arrays. */
  predicate InBounds(call: SetCall) {
    0 <= call.count <= |call.refs| && call.count <= |call.values|
  }

  /** The events of a call through handle c whose reads stay inside the
      arrays. */
  function CallEvents(call: SetCall, c: Env.Handle): (t: seq<Env.Event>)
    requires InBounds(call)
    ensures |t| == call.count
  {
    seq(call.count, i requires 0 <= i < call.count => Env.SetReal(c, call.refs[i], call.values[i]))
  }

  /** The setReal of `simulate` as written: only when setNumber > 0, over
      one-element arrays, but with count setNumber. */
  function InputCallAsWritten(setNumber: int, vr: Env.ValueRef, value: real): Option<SetCall>
  {
    if setNumber > 0 then Some(SetCall([vr], [value], setNumber)) else None
  }

  /** The call as written stays inside its arrays only for setNumber == 1:
      any larger count reads past the one-element arrays. */
  lemma AsWrittenInBounds(setNumber: int, vr: Env.ValueRef, value: real)
    ensures InputCallAsWritten(setNumber, vr, value).Some? <==> 0 < setNumber
    ensures InputCallAsWritten(setNumber, vr, value).Some? ==>
      (InBounds(InputCallAsWritten(setNumber, vr, value).value) <==> setNumber == 1)
  {
  }

  /** A concrete input that shows it: setNumber = 2 reads a second
      reference and a second value that do not exist. */
  lemma AsWrittenOverreads(vr: Env.ValueRef, value: real)
    ensures !InBounds(InputCallAsWritten(2, vr, value).value)
  {
  }

  /** The setReal `simulate` evidently intends: the one value given, when
      setNumber > 0. */
  function InputCall(setNumber: int, vr: Env.ValueRef, value: real): (call: Option<SetCall>)
    ensures call.Some? ==> InBounds(call.value) && forall c :: CallEvents(call.value, c) == [Env.SetReal(c, vr, value)]
  {
    if setNumber > 0 then Some(SetCall([vr], [value], 1)) else None
  }

  /** The corrected call agrees with the one as written wherever the one
      as written is in bounds. */
  lemma InputCallAgrees(setNumber: int, vr: Env.ValueRef, value: real)
    requires InputCallAsWritten(setNumber, vr, value).Some? ==> InBounds(InputCallAsWritten(setNumber, vr, value).value)
    ensures InputCall(setNumber, vr, value) == InputCallAsWritten(setNumber, vr, value)
  {
  }

  /** The calls made before the loop on a run that reaches it, with c the
      handle instantiateSlave returned. */
  function Prelude(tEnd: real, init: Status, c: Env.Handle, setNumber: int, vr: Env.ValueRef, value: real): seq<Env.Event>
  {
    [Env.Connect, Env.Instantiate(Some(c)), Env.Initialize(c, 0.0, tEnd, init)]
      + (if setNumber > 0 then [Env.SetReal(c, vr, value)] else [])
  }

  // ---------------------------------------------------------------------
  // The batch of one step

  /** The body of one step, with the two values as %.16g renders them. */
  function DbBody(i: string, v: string): string
  {
    "RLC,host=" + HostName + " i=" + i + ",v=" + v + "   \n"
  }

  /** The body is the measurement RLC with its host tag, then the field
      set i=<value of entry 1>,v=<value of entry 3> in line protocol, which
      splits back into its two fields as long as the rendered values hold
      no comma. */
  lemma DbBodyFields(i: string, v: string)
    requires ',' !in i && ',' !in v
    ensures var fs := ["i=" + i, "v=" + v];
      && DbBody(i, v) == "RLC,host=" + HostName + " " + Join(fs) + "   \n"
      && Tokens(Join(fs), ',') == fs
  {
    var fs := ["i=" + i, "v=" + v];
    assert fs[..1] == ["i=" + i];
    assert Join(fs) == "i=" + i + "," + "v=" + v;
    assert ',' !in "i=" + i && ',' !in "v=" + v;
    JoinSplitsBack(fs);
  }

  /** The calls after one successful step: entries 1 and 3 read with
      getReal, then the header and the body sent. */
  function Batch(s: Env.Store, c: Env.Handle, vr1: Env.ValueRef, vr3: Env.ValueRef, p: Printf): seq<Env.Event>
  {
    var body := DbBody(p.g16(s.Real(vr1)), p.g16(s.Real(vr3)));
    [Env.GetReal(c, vr1), Env.GetReal(c, vr3), Env.Send(Header(Database, Username, Password, |body|)), Env.Send(body)]
  }

  /** Each batch sends a header whose Content-Length is the length of the
      body sent after it. */
  lemma BatchDeclaresLength(s: Env.Store, c: Env.Handle, vr1: Env.ValueRef, vr3: Env.ValueRef, p: Printf)
    ensures var b := Batch(s, c, vr1, vr3, p);
      b[2].Send? && b[3].Send? && DeclaredLength(b[2].data) == Some(|b[3].data|)
  {
    var body := DbBody(p.g16(s.Real(vr1)), p.g16(s.Real(vr3)));
    HeaderDeclaresLength(Database, Username, Password, |body|);
  }

  // ---------------------------------------------------------------------
  // The loop

  /** The calls of the first n passes of the loop when the doSteps from
      the k-th on all answer fmiOK: each pass a doStep from TimeAt by
      min(h, tEnd - time), then batch(j), the calls that publish after the
      j-th doStep. */
  function Passes(n: nat, k: nat, c: Env.Handle, tEnd: real, h: real, batch: nat -> seq<Env.Event>): seq<Env.Event>
  {
    if n == 0 then []
    else
      var t := TimeAt(n - 1, tEnd, h);
      Passes(n - 1, k, c, tEnd, h, batch) + [Env.DoStep(c, t, Clamp(h, tEnd, t), OK)] + batch(k + n - 1)
  }

  /** batch(j) is what the loop publishes once the model holds store(j). */
  ghost predicate Publishes(batch: nat -> seq<Env.Event>, store: nat -> Env.Store, c: Env.Handle,
                            vr1: Env.ValueRef, vr3: Env.ValueRef, p: Printf)
  {
    forall j {:trigger Batch(store(j), c, vr1, vr3, p)} :: batch(j) == Batch(store(j), c, vr1, vr3, p)
  }

  /** The batches of a run whose model holds store(j) after its j-th doStep. */
  function Batches(store: nat -> Env.Store, c: Env.Handle, vr1: Env.ValueRef, vr3: Env.ValueRef, p: Printf)
    : (batch: nat -> seq<Env.Event>)
    ensures Publishes(batch, store, c, vr1, vr3, p)
  {
    (j: nat) => Batch(store(j), c, vr1, vr3, p)
  }

  /** Calls through handle c that only read or step (answered fmiOK), and
      sends. */
  predicate Quiet(u: seq<Env.Event>, c: Env.Handle) {
    forall j :: 0 <= j < |u| ==> Env.TouchOn(u[j], c) || Env.Socket(u[j])
  }

  lemma QuietConcat(a: seq<Env.Event>, b: seq<Env.Event>, c: Env.Handle)
    requires Quiet(a, c) && Quiet(b, c)
    ensures Quiet(a + b, c)
  {
    forall j | 0 <= j < |a + b|
      ensures Env.TouchOn((a + b)[j], c) || Env.Socket((a + b)[j])
    {
      if j >= |a| {
        assert (a + b)[j] == b[j - |a|];
      }
    }
  }

  lemma BatchQuiet(s: Env.Store, c: Env.Handle, vr1: Env.ValueRef, vr3: Env.ValueRef, p: Printf)
    ensures Quiet(Batch(s, c, vr1, vr3, p), c)
  {
  }

  /** The passes only read, step and send: they leave an initialized
      instance initialized, and never terminate or free it. */
  lemma {:induction false} PassesQuiet(n: nat, k: nat, c: Env.Handle, tEnd: real, h: real, batch: nat -> seq<Env.Event>,
                                       store: nat -> Env.Store, vr1: Env.ValueRef, vr3: Env.ValueRef, p: Printf)
    requires Publishes(batch, store, c, vr1, vr3, p)
    ensures Quiet(Passes(n, k, c, tEnd, h, batch), c)
  {
    if n > 0 {
      PassesQuiet(n - 1, k, c, tEnd, h, batch, store, vr1, vr3, p);
      var t := TimeAt(n - 1, tEnd, h);
      var step := [Env.DoStep(c, t, Clamp(h, tEnd, t), OK)];
      BatchQuiet(store(k + n - 1), c, vr1, vr3, p);
      QuietConcat(step, batch(k + n - 1), c);
      QuietConcat(Passes(n - 1, k, c, tEnd, h, batch), step + batch(k + n - 1), c);
      Env.EventsAssoc(Passes(n - 1, k, c, tEnd, h, batch), step, batch(k + n - 1));
    }
  }

  /** One more pass appends one doStep and one batch. */
  lemma PassesSnoc(n: nat, k: nat, c: Env.Handle, tEnd: real, h: real, batch: nat -> seq<Env.Event>, t0: seq<Env.Event>)
    ensures var t := TimeAt(n, tEnd, h);
      && TimeAt(n + 1, tEnd, h) == t + Clamp(h, tEnd, t)
      && t0 + Passes(n + 1, k, c, tEnd, h, batch)
         == t0 + Passes(n, k, c, tEnd, h, batch) + [Env.DoStep(c, t, Clamp(h, tEnd, t), OK)] + batch(k + n)
  {
    var t := TimeAt(n, tEnd, h);
    var step := [Env.DoStep(c, t, Clamp(h, tEnd, t), OK)];
    Env.EventsAssoc(Passes(n, k, c, tEnd, h, batch), step, batch(k + n));
    Env.EventsAssoc(t0, Passes(n, k, c, tEnd, h, batch), step + batch(k + n));
    Env.EventsAssoc(t0 + Passes(n, k, c, tEnd, h, batch), step, batch(k + n));
  }

  /** The batch of one step: getReal of entries 1 and 3, the body and the
      header composed, both sent. */
  method Publish(host: Env.Host, c: Env.Handle, vr1: Env.ValueRef, vr3: Env.ValueRef, p: Printf)
    requires host.connected
    modifies host`trace
    ensures host.trace == old(host.trace) + Batch(host.store, c, vr1, vr3, p)
  {
    var r1 := host.GetReal(c, vr1);
    var r2 := host.GetReal(c, vr3);
    var body := DbBody(p.g16(r1), p.g16(r2));
    var header := Header(Database, Username, Password, |body|);
    host.SendData(header);
    host.SendData(body);
  }

  /** Publish after the j-th doStep: the calls are batch(j). */
  method PublishAt(host: Env.Host, c: Env.Handle, vr1: Env.ValueRef, vr3: Env.ValueRef, p: Printf,
                   ghost batch: nat -> seq<Env.Event>, ghost j: nat)
    requires host.connected && host.store == host.stepStore(j) && Publishes(batch, host.stepStore, c, vr1, vr3, p)
    modifies host`trace
    ensures host.trace == old(host.trace) + batch(j)
  {
    Publish(host, c, vr1, vr3, p);
  }

  /** One pass of the loop at `time`, the (n+1)-th: clamp the step to
      tEnd, doStep, and when it answers fmiOK publish the batch. */
  method Pass(host: Env.Host, c: Env.Handle, time: real, tEnd: real, h: real,
              vr1: Env.ValueRef, vr3: Env.ValueRef, p: Printf,
              ghost batch: nat -> seq<Env.Event>, ghost n: nat, ghost k: nat, ghost t0: seq<Env.Event>)
    returns (status: Status, next: real)
    requires host.connected && 0.0 < h && time < tEnd && time == TimeAt(n, tEnd, h)
    requires Publishes(batch, host.stepStore, c, vr1, vr3, p)
    requires host.steps == k + n && host.trace == t0 + Passes(n, k, c, tEnd, h, batch)
    modifies host`store, host`steps, host`trace
    ensures status == host.stepStatus(k + n) && host.steps == k + n + 1
    ensures next == TimeAt(n + 1, tEnd, h) && StepCount(time, tEnd, h) == 1 + StepCount(next, tEnd, h)
    ensures status == OK ==> host.trace == t0 + Passes(n + 1, k, c, tEnd, h, batch)
    ensures status != OK ==> host.trace == t0 + Passes(n, k, c, tEnd, h, batch) + [Env.DoStep(c, time, Clamp(h, tEnd, time), status)]
  {
    var hh := h;
    if h > tEnd - time {
      hh := tEnd - time;
    }
    GridUnfold(time, tEnd, h);
    PassesSnoc(n, k, c, tEnd, h, batch, t0);
    status := host.DoStep(c, time, hh);
    if status == OK {
      PublishAt(host, c, vr1, vr3, p, batch, k + n);
    }
    next := time + hh;
  }

  /** The loop of `simulate`: from 0, step by min(h, tEnd - time) while
      time < tEnd; return at the first doStep that is not fmiOK, otherwise
      advance time, publish the batch and count the step. */
  method Steps(host: Env.Host, c: Env.Handle, tEnd: real, h: real, vr1: Env.ValueRef, vr3: Env.ValueRef, p: Printf,
               ghost batch: nat -> seq<Env.Event>)
    returns (ok: bool, nSteps: nat)
    requires host.connected && 0.0 < h && Publishes(batch, host.stepStore, c, vr1, vr3, p)
    modifies host`store, host`steps, host`trace
    ensures ok <==> forall k :: old(host.steps) <= k < old(host.steps) + StepCount(0.0, tEnd, h) ==> host.stepStatus(k) == OK
    ensures ok ==> nSteps == StepCount(0.0, tEnd, h) && host.steps == old(host.steps) + nSteps
    ensures ok ==> host.trace == old(host.trace) + Passes(nSteps, old(host.steps), c, tEnd, h, batch)
    ensures !ok ==> nSteps < StepCount(0.0, tEnd, h) && host.steps == old(host.steps) + nSteps + 1
    ensures !ok ==> host.stepStatus(host.steps - 1) != OK
    ensures !ok ==> host.trace == old(host.trace) + Passes(nSteps, old(host.steps), c, tEnd, h, batch)
                                 + [Env.DoStep(c, TimeAt(nSteps, tEnd, h), Clamp(h, tEnd, TimeAt(nSteps, tEnd, h)), host.stepStatus(host.steps - 1))]
  {
    var time := 0.0;
    nSteps := 0;
    while time < tEnd
      invariant time == TimeAt(nSteps, tEnd, h)
      invariant nSteps + StepCount(time, tEnd, h) == StepCount(0.0, tEnd, h)
      invariant host.connected && host.steps == old(host.steps) + nSteps
      invariant forall k :: old(host.steps) <= k < host.steps ==> host.stepStatus(k) == OK
      invariant host.trace == old(host.trace) + Passes(nSteps, old(host.steps), c, tEnd, h, batch)
      decreases StepCount(time, tEnd, h)
    {
      var status, next := Pass(host, c, time, tEnd, h, vr1, vr3, p, batch, nSteps, old(host.steps), old(host.trace));
      if status != OK {
        return false, nSteps;
      }
      time := next;
      nSteps := nSteps + 1;
    }
    ok := true;
  }

  // ---------------------------------------------------------------------
  // The whole run

  /** No call in t terminates or frees an instance. */
  predicate KeepsInstance(t: seq<Env.Event>) {
    forall j :: 0 <= j < |t| ==> !t[j].Terminate? && !t[j].Free?
  }

  lemma KeepsConcat(a: seq<Env.Event>, b: seq<Env.Event>)
    requires KeepsInstance(a) && KeepsInstance(b)
    ensures KeepsInstance(a + b)
  {
    forall j | 0 <= j < |a + b|
      ensures !(a + b)[j].Terminate? && !(a + b)[j].Free?
    {
      if j >= |a| {
        assert (a + b)[j] == b[j - |a|];
      }
    }
  }

  /** Everything `simulate` does before its loop: connect (exit on
      failure), instantiate, open the result file, initialize from 0 to
      tEnd, and set the one input when setNumber > 0. None means the loop
      is reached; otherwise the outcome of the early return. */
  method Start(host: Env.Host, tEnd: real, setNumber: int, vr: Env.ValueRef, value: real, fileOpens: bool)
    returns (early: Option<Outcome>, c: Env.Handle)
    requires host.trace == [] && !host.connected
    modifies host`connected, host`store, host`trace
    ensures early.None? <==> host.connects && host.instance.Some? && fileOpens && !host.initStatus.WorseThanWarning()
    ensures early.None? ==> host.connected && c == host.instance.value
    ensures early.None? ==> host.trace == Prelude(tEnd, host.initStatus, c, setNumber, vr, value)
    ensures early.None? ==> Env.StageAfter(host.trace) == Env.Initialized(c)
    ensures KeepsInstance(host.trace)
    ensures early == Some(Exited) <==> !host.connects
    ensures early == Some(Exited) ==> host.trace == [Env.Connect]
    ensures early.Some? && host.connects ==> early == Some(Failed) && host.connected
    ensures early.Some? ==> Env.Legal(host.trace)
    ensures early.Some? && host.connects && (host.instance.None? || !fileOpens) ==>
      host.trace == [Env.Connect, Env.Instantiate(host.instance)]
    ensures early.Some? && host.connects && host.instance.Some? && fileOpens ==>
      var inst := host.instance.value;
      && host.trace == [Env.Connect, Env.Instantiate(host.instance), Env.Initialize(inst, 0.0, tEnd, host.initStatus)]
      && Env.StageAfter(host.trace) == Env.InitOutcome(inst, host.initStatus)
  {
    c := 0;
    var connected := host.ConnectSocket();
    if !connected {
      return Some(Exited), c;
    }
    var instance := host.InstantiateSlave();
    if instance.None? {
      return Some(Failed), c;
    }
    c := instance.value;
    if !fileOpens {
      return Some(Failed), c;
    }
    var status := host.InitializeSlave(c, 0.0, tEnd);
    if status.WorseThanWarning() {
      return Some(Failed), c;
    }
    var call := InputCall(setNumber, vr, value);
    if call.Some? {
      host.SetReal(c, vr, value);
    }
    early := None;
  }

  /** The end of a run whose steps all completed: close the socket, then
      terminate and free the instance. */
  method Finish(host: Env.Host, c: Env.Handle)
    modifies host`connected, host`trace
    ensures !host.connected
    ensures host.trace == old(host.trace) + [Env.CloseSocket, Env.Terminate(c), Env.Free(c)]
    ensures Env.StageAfter(host.trace) == Env.Next(Env.Next(Env.StageAfter(old(host.trace)), Env.Terminate(c)), Env.Free(c))
  {
    host.CloseSocket();
    host.TerminateSlave(c);
    host.FreeSlaveInstance(c);
  }

  /** The rest of `simulate` once instance c is initialized: the loop,
      then, when every step answered fmiOK, the socket closed and the
      instance terminated and freed; otherwise a return that leaves both
      open, with the instance where the failed doStep left it. */
  method Proceed(host: Env.Host, c: Env.Handle, tEnd: real, h: real, vr1: Env.ValueRef, vr3: Env.ValueRef, p: Printf,
                 ghost batch: nat -> seq<Env.Event>)
    returns (ok: bool, nSteps: nat)
    requires host.connected && 0.0 < h && host.steps == 0 && Publishes(batch, host.stepStore, c, vr1, vr3, p)
    requires Env.StageAfter(host.trace) == Env.Initialized(c) && KeepsInstance(host.trace)
    modifies host`connected, host`store, host`steps, host`trace
    ensures Env.Legal(host.trace)
    ensures ok <==> forall k :: 0 <= k < StepCount(0.0, tEnd, h) ==> host.stepStatus(k) == OK
    ensures ok ==> nSteps == StepCount(0.0, tEnd, h) && host.steps == nSteps
    ensures ok ==> !host.connected && Env.StageAfter(host.trace) == Env.Freed
    ensures ok ==> host.trace == old(host.trace) + Passes(nSteps, 0, c, tEnd, h, batch) + [Env.CloseSocket, Env.Terminate(c), Env.Free(c)]
    ensures !ok ==> host.connected && KeepsInstance(host.trace)
    ensures !ok ==> nSteps < StepCount(0.0, tEnd, h) && host.steps == nSteps + 1
    ensures !ok ==> Env.StageAfter(host.trace) == Env.StepOutcome(c, host.stepStatus(host.steps - 1))
  {
    ghost var pre := host.trace;
    ok, nSteps := Steps(host, c, tEnd, h, vr1, vr3, p, batch);
    PassesQuiet(nSteps, 0, c, tEnd, h, batch, host.stepStore, vr1, vr3, p);
    ghost var passes := Passes(nSteps, 0, c, tEnd, h, batch);
    if !ok {
      ghost var t := TimeAt(nSteps, tEnd, h);
      FailedStage(pre, passes, c, t, Clamp(h, tEnd, t), host.stepStatus(host.steps - 1));
      return;
    }
    Finish(host, c);
    FinishedStage(pre, passes, c);
  }

  /** A failed doStep after passes that only read, step and send leaves
      instance c where the step's status puts it, neither terminated nor
      freed. */
  lemma FailedStage(pre: seq<Env.Event>, passes: seq<Env.Event>, c: Env.Handle, t: real, hh: real, status: Status)
    requires Env.StageAfter(pre) == Env.Initialized(c) && KeepsInstance(pre) && Quiet(passes, c)
    ensures var u := pre + passes + [Env.DoStep(c, t, hh, status)];
      && KeepsInstance(u) && Env.StageAfter(u) == Env.StepOutcome(c, status)
  {
    Env.QuietStage(pre, passes, c);
    Env.StageAfterSnoc(pre + passes, Env.DoStep(c, t, hh, status));
    KeepsConcat(pre, passes);
    KeepsConcat(pre + passes, [Env.DoStep(c, t, hh, status)]);
  }

  /** Closing, terminating and freeing after such passes ends in Freed. */
  lemma FinishedStage(pre: seq<Env.Event>, passes: seq<Env.Event>, c: Env.Handle)
    requires Env.StageAfter(pre) == Env.Initialized(c) && Quiet(passes, c)
    ensures Env.StageAfter(pre + passes + [Env.CloseSocket, Env.Terminate(c), Env.Free(c)]) == Env.Freed
  {
    var q := pre + passes;
    Env.QuietStage(pre, passes, c);
    assert q + [Env.CloseSocket, Env.Terminate(c), Env.Free(c)] == q + [Env.CloseSocket] + [Env.Terminate(c)] + [Env.Free(c)];
    Env.StageAfterSnoc(q, Env.CloseSocket);
    Env.StageAfterSnoc(q + [Env.CloseSocket], Env.Terminate(c));
    Env.StageAfterSnoc(q + [Env.CloseSocket] + [Env.Terminate(c)], Env.Free(c));
  }

  /** `simulate`: entries 1 and 3 of the variable catalog are the two
      values published after each step. */
  method Simulate(host: Env.Host, tEnd: real, h: real, setNumber: int, vr: Env.ValueRef, value: real,
                  vars: seq<ScalarVariable>, p: Printf, fileOpens: bool)
    returns (outcome: Outcome, ghost batch: nat -> seq<Env.Event>)
    requires host.trace == [] && !host.connected && host.steps == 0 && 0.0 < h && 4 <= |vars|
    modifies host`connected, host`store, host`steps, host`trace
    ensures Env.Legal(host.trace)
    ensures outcome.Exited? <==> !host.connects
    ensures outcome.Exited? ==> host.trace == [Env.Connect]
    ensures outcome.Completed? <==>
      && host.connects && host.instance.Some? && fileOpens && !host.initStatus.WorseThanWarning()
      && forall k :: 0 <= k < StepCount(0.0, tEnd, h) ==> host.stepStatus(k) == OK
    ensures outcome.Completed? ==>
      var c := host.instance.value;
      && outcome.steps == StepCount(0.0, tEnd, h) && host.steps == outcome.steps
      && !host.connected && Env.StageAfter(host.trace) == Env.Freed
      && host.trace == Prelude(tEnd, host.initStatus, c, setNumber, vr, value)
                       + Passes(outcome.steps, 0, c, tEnd, h, batch)
                       + [Env.CloseSocket, Env.Terminate(c), Env.Free(c)]
    ensures host.instance.Some? ==> Publishes(batch, host.stepStore, host.instance.value, vars[1].vr, vars[3].vr, p)
    ensures outcome.Failed? ==> host.connected && KeepsInstance(host.trace)
  {
    batch := Batches(host.stepStore, if host.instance.Some? then host.instance.value else 0, vars[1].vr, vars[3].vr, p);
    var early, c := Start(host, tEnd, setNumber, vr, value, fileOpens);
    if early.Some? {
      return early.value, batch;
    }
    var ok, nSteps := Proceed(host, c, tEnd, h, vars[1].vr, vars[3].vr, p, batch);
    outcome := if ok then Completed(nSteps) else Failed;
  }
}
