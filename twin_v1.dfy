/**
  The earlier digital-twin driver of main_v1.c: the same open / initialize /
  step / close shape as main_v2.c, but each batch is named by the whole FMU
  path and the model GUID, carries only the requested outputs (all read with
  getReal, names written raw), and no reply is read. A step's doStep status
  is ignored, and main ignores the result of TwinInitialize.
 */
module TwinV1 {
  import opened Fmi
  import opened Text
  import opened Influx
  import opened Schedule
  import Env

  // ---------------------------------------------------------------------
  // Body of one batch

  /** "name=value" with the raw name and the value read by getReal. */
  function FieldText(v: ScalarVariable, s: Env.Store, p: Printf): string
  {
    v.name + "=" + p.g16(s.Real(v.vr))
  }

  function FieldTexts(vars: seq<ScalarVariable>, s: Env.Store, p: Printf): (fs: seq<string>)
    ensures |fs| == |vars|
  {
    seq(|vars|, i requires 0 <= i < |vars| => FieldText(vars[i], s, p))
  }

  /** "<fmuFileName>,global_id=<GUID> timestamp=<t>," */
  function Prefix(fmuFileName: string, guid: string, stamp: string): string
  {
    fmuFileName + ",global_id=" + guid + " timestamp=" + stamp + ","
  }

  /** The body of one batch: the prefix, then a field for every requested
      output. */
  function Body(fmuFileName: string, guid: string, stamp: string, vars: seq<ScalarVariable>,
                s: Env.Store, p: Printf): string
  {
    Prefix(fmuFileName, guid, stamp) + Line(FieldTexts(vars, s, p))
  }

  /** With at least one output the body is the prefix, the fields joined by
      ',' and a newline; with none it is the prefix alone, ending in ','. */
  lemma BodyLayout(fmuFileName: string, guid: string, stamp: string, vars: seq<ScalarVariable>,
                   s: Env.Store, p: Printf)
    ensures var b := Body(fmuFileName, guid, stamp, vars, s, p);
      (vars != [] ==> b == Prefix(fmuFileName, guid, stamp) + Join(FieldTexts(vars, s, p)) + "\n") &&
      (vars == [] ==> b == Prefix(fmuFileName, guid, stamp) && b[|b| - 1] == ',')
  {
    if vars != [] {
      LineIsJoin(FieldTexts(vars, s, p));
    }
  }

  /** Names are written raw: a name holding a comma splits into two fields
      when the field set is read back, so the field set reads back as one
      field per output only when no name and no rendered value holds one. */
  lemma FieldsSplitBack(vars: seq<ScalarVariable>, s: Env.Store, p: Printf)
    requires forall r :: ',' !in p.g16(r)
    requires forall k :: 0 <= k < |vars| ==> ',' !in vars[k].name
    ensures Tokens(Join(FieldTexts(vars, s, p)), ',') == FieldTexts(vars, s, p)
  {
    var fs := FieldTexts(vars, s, p);
    forall k | 0 <= k < |fs|
      ensures fs[k] != [] && ',' !in fs[k]
    {
      assert fs[k] == vars[k].name + "=" + p.g16(s.Real(vars[k].vr));
    }
    JoinSplitsBack(fs);
  }

  /** A raw name "a,b" with a comma: its one output reads back as the two
      fields "a" and "b=<value>". */
  lemma RawCommaSplits(a: string, b: string, vr: nat, s: Env.Store, p: Printf)
    requires a != [] && ',' !in a && ',' !in b && ',' !in p.g16(s.Real(vr))
    ensures var fs := FieldTexts([ScalarVariable(vr, a + "," + b, Real)], s, p);
      Tokens(Join(fs), ',') == [a, b + "=" + p.g16(s.Real(vr))] && |Tokens(Join(fs), ',')| != |fs|
  {
    var v := ScalarVariable(vr, a + "," + b, Real);
    var rest := b + "=" + p.g16(s.Real(vr));
    var fs := FieldTexts([v], s, p);
    assert fs == [FieldText(v, s, p)];
    assert Join(fs) == a + [','] + rest;
    TokensSplit(a, rest, ',');
    TokensOfPlain(a, ',');
    TokensOfPlain(rest, ',');
  }

  // ---------------------------------------------------------------------
  // Calls on the model

  /** The getReal calls through handle c that read the outputs, one per
      entry. */
  function Reads(c: Env.Handle, vars: seq<ScalarVariable>): (t: seq<Env.Event>)
    ensures |t| == |vars|
    ensures forall k :: 0 <= k < |t| ==> Env.TouchOn(t[k], c)
  {
    seq(|vars|, i requires 0 <= i < |vars| => Env.GetReal(c, vars[i].vr))
  }

  /** The setReal calls through handle c of TwinSetInputs, one per input,
      in index order. */
  function InputCalls(c: Env.Handle, refs: seq<Env.ValueRef>, values: seq<real>): (t: seq<Env.Event>)
    requires |refs| == |values|
    ensures |t| == |refs|
    ensures forall k :: 0 <= k < |t| ==> Env.TouchOn(t[k], c)
  {
    seq(|refs|, i requires 0 <= i < |refs| => Env.SetReal(c, refs[i], values[i]))
  }

  /** The model's values after the setReal calls of TwinSetInputs. */
  function Inputs(s: Env.Store, refs: seq<Env.ValueRef>, values: seq<real>): Env.Store
    requires |refs| == |values|
  {
    if refs == [] then s
    else
      var n := |refs| - 1;
      var t := Inputs(s, refs[..n], values[..n]);
      t.(reals := t.reals[refs[n] := values[n]])
  }

  /** TwinSetInputs changes no Integer value. */
  lemma {:induction false} InputsKeepInts(s: Env.Store, refs: seq<Env.ValueRef>, values: seq<real>)
    requires |refs| == |values|
    ensures Inputs(s, refs, values).ints == s.ints
    decreases |refs|
  {
    if refs != [] {
      InputsKeepInts(s, refs[..|refs| - 1], values[..|refs| - 1]);
    }
  }

  /** A reference no input names keeps its value. */
  lemma {:induction false} InputsUnset(s: Env.Store, refs: seq<Env.ValueRef>, values: seq<real>, r: Env.ValueRef)
    requires |refs| == |values| && r !in refs
    ensures Inputs(s, refs, values).Real(r) == s.Real(r)
    decreases |refs|
  {
    if refs != [] {
      var n := |refs| - 1;
      InputsUnset(s, refs[..n], values[..n], r);
    }
  }

  /** A reference reads the value of its last setReal. */
  lemma {:induction false} InputsReadBack(s: Env.Store, refs: seq<Env.ValueRef>, values: seq<real>, i: nat)
    requires |refs| == |values| && i < |refs| && refs[i] !in refs[i + 1..]
    ensures Inputs(s, refs, values).Real(refs[i]) == values[i]
    decreases |refs|
  {
    var n := |refs| - 1;
    if i < n {
      assert refs[n] == refs[i + 1..][n - i - 1];
      assert refs[..n][i + 1..] == refs[i + 1..n];
      InputsReadBack(s, refs[..n], values[..n], i);
    }
  }

  /** The outputs array after TwinGetOutputs: entry i is getReal of output
      i, whatever its type. */
  function Outputs(vars: seq<ScalarVariable>, s: Env.Store): (r: seq<real>)
    ensures |r| == |vars|
  {
    seq(|vars|, i requires 0 <= i < |vars| => s.Real(vars[i].vr))
  }

  lemma ReadsSnoc(c: Env.Handle, vars: seq<ScalarVariable>, i: nat)
    requires i < |vars|
    ensures Reads(c, vars[..i + 1]) == Reads(c, vars[..i]) + [Env.GetReal(c, vars[i].vr)]
  {
  }

  lemma InputCallsSnoc(s0: Env.Store, c: Env.Handle, refs: seq<Env.ValueRef>, values: seq<real>, i: nat)
    requires |refs| == |values| && i < |refs|
    ensures InputCalls(c, refs[..i + 1], values[..i + 1]) == InputCalls(c, refs[..i], values[..i]) + [Env.SetReal(c, refs[i], values[i])]
    ensures var t := Inputs(s0, refs[..i], values[..i]);
      Inputs(s0, refs[..i + 1], values[..i + 1]) == t.(reals := t.reals[refs[i] := values[i]])
  {
    assert refs[..i + 1][..i] == refs[..i] && values[..i + 1][..i] == values[..i];
  }

  // ---------------------------------------------------------------------
  // The loop in terms of the call-order automaton

  /** The doSteps of the first n passes of TwinSimulation's loop, the
      j-th from TimeAt(j) by min(h, tEnd - time), answered status(k + j). */
  function StepCalls(n: nat, k: nat, c: Env.Handle, tEnd: real, h: real, status: nat -> Status): seq<Env.Event>
  {
    if n == 0 then []
    else
      var t := TimeAt(n - 1, tEnd, h);
      StepCalls(n - 1, k, c, tEnd, h, status) + [Env.DoStep(c, t, Clamp(h, tEnd, t), status(k + n - 1))]
  }

  /** The j-th call of the loop steps instance c from the j-th time of
      the schedule to the next, and reports the j-th status. */
  lemma {:induction false} StepCallsAt(n: nat, k: nat, c: Env.Handle, tEnd: real, h: real, status: nat -> Status, j: nat)
    requires j < n
    ensures |StepCalls(n, k, c, tEnd, h, status)| == n
    ensures var t := TimeAt(j, tEnd, h);
      StepCalls(n, k, c, tEnd, h, status)[j] == Env.DoStep(c, t, Clamp(h, tEnd, t), status(k + j))
  {
    if j < n - 1 {
      StepCallsAt(n - 1, k, c, tEnd, h, status, j);
    } else {
      StepCallsLength(n - 1, k, c, tEnd, h, status);
    }
  }

  lemma {:induction false} StepCallsLength(n: nat, k: nat, c: Env.Handle, tEnd: real, h: real, status: nat -> Status)
    ensures |StepCalls(n, k, c, tEnd, h, status)| == n
  {
    if n > 0 {
      StepCallsLength(n - 1, k, c, tEnd, h, status);
    }
  }

  /** The n doSteps counted from k all answer fmiOK. */
  ghost predicate AllOK(status: nat -> Status, k: nat, n: nat) {
    forall j :: k <= j < k + n ==> status(j) == OK
  }

  lemma AllOKSnoc(status: nat -> Status, k: nat, n: nat)
    requires AllOK(status, k, n) && status(k + n) == OK
    ensures AllOK(status, k, n + 1)
  {
  }

  /** A step that does not answer fmiOK inside the first m rules out all m
      answering fmiOK. */
  lemma AllOKFails(status: nat -> Status, k: nat, n: nat, m: nat)
    requires n < m && status(k + n) != OK
    ensures !AllOK(status, k, m)
  {
  }

  /** Steps that answered fmiOK are calls on instance c that keep it
      initialized. */
  lemma StepCallsTouch(n: nat, k: nat, c: Env.Handle, tEnd: real, h: real, status: nat -> Status)
    requires AllOK(status, k, n)
    ensures forall j :: 0 <= j < |StepCalls(n, k, c, tEnd, h, status)| ==> Env.TouchOn(StepCalls(n, k, c, tEnd, h, status)[j], c)
  {
    var u := StepCalls(n, k, c, tEnd, h, status);
    forall j | 0 <= j < |u|
      ensures Env.TouchOn(u[j], c)
    {
      StepCallsLength(n, k, c, tEnd, h, status);
      StepCallsAt(n, k, c, tEnd, h, status, j);
      assert status(k + j) == OK;
    }
  }

  lemma StepCallsStage(t: seq<Env.Event>, n: nat, k: nat, c: Env.Handle, tEnd: real, h: real, status: nat -> Status)
    requires Env.StageAfter(t) == Env.Initialized(c)
    requires AllOK(status, k, n)
    ensures Env.StageAfter(t + StepCalls(n, k, c, tEnd, h, status)) == Env.Initialized(c)
  {
    StepCallsTouch(n, k, c, tEnd, h, status);
    Env.TouchesStage(t, StepCalls(n, k, c, tEnd, h, status), c);
  }

  /** The first step that does not answer fmiOK leaves instance c where
      its status puts it. */
  lemma StepCallsOutcome(t: seq<Env.Event>, n: nat, k: nat, c: Env.Handle, tEnd: real, h: real, status: nat -> Status)
    requires Env.StageAfter(t) == Env.Initialized(c)
    requires AllOK(status, k, n)
    ensures Env.StageAfter(t + StepCalls(n + 1, k, c, tEnd, h, status)) == Env.StepOutcome(c, status(k + n))
  {
    var u := StepCalls(n, k, c, tEnd, h, status);
    StepCallsStage(t, n, k, c, tEnd, h, status);
    var tn := TimeAt(n, tEnd, h);
    var e := Env.DoStep(c, tn, Clamp(h, tEnd, tn), status(k + n));
    assert StepCalls(n + 1, k, c, tEnd, h, status) == u + [e];
    Env.EventsAssoc(t, u, [e]);
    Env.StageAfterSnoc(t + u, e);
  }

  /** After n passes of TwinSimulation's loop the time is TimeAt(n) and
      the steps left are the rest of the schedule. */
  ghost predicate OnSchedule(n: nat, time: real, tEnd: real, h: real)
    requires 0.0 < h
  {
    time == TimeAt(n, tEnd, h) && n + StepCount(time, tEnd, h) == StepCount(0.0, tEnd, h)
  }

  /** One more pass keeps the loop on the schedule and leaves fewer steps. */
  lemma ScheduleStep(n: nat, time: real, tEnd: real, h: real)
    requires 0.0 < h && time < tEnd && OnSchedule(n, time, tEnd, h)
    ensures OnSchedule(n + 1, time + Clamp(h, tEnd, time), tEnd, h)
    ensures StepCount(time + Clamp(h, tEnd, time), tEnd, h) < StepCount(time, tEnd, h)
  {
    GridUnfold(time, tEnd, h);
  }

  /** The stage one pass of main's loop leaves instance c in, from stage
      s: a doStep answered st, then m getReal calls. */
  function RoundStage(s: Env.Stage, c: Env.Handle, st: Status, m: nat): Env.Stage
  {
    if s == Env.Initialized(c) then Env.AfterTouches(Env.StepOutcome(c, st), c, m) else Env.Illegal
  }

  /** The stage after n passes, the doSteps answering status(k), ...,
      status(k + n - 1). */
  function LoopStage(s: Env.Stage, c: Env.Handle, status: nat -> Status, k: nat, n: nat, m: nat): Env.Stage
  {
    if n == 0 then s else RoundStage(LoopStage(s, c, status, k, n - 1, m), c, status(k + n - 1), m)
  }

  lemma LoopStageSnoc(s: Env.Stage, c: Env.Handle, status: nat -> Status, k: nat, n: nat, m: nat)
    ensures LoopStage(s, c, status, k, n + 1, m) == RoundStage(LoopStage(s, c, status, k, n, m), c, status(k + n), m)
  {
  }

  /** The passes keep to the call order: every doStep answers fmiOK or
      fmiWarning, except that the last may fail short of fmiFatal when a
      pass reads nothing. */
  predicate LoopInOrder(status: nat -> Status, k: nat, n: nat, m: nat) {
    forall j :: k <= j < k + n ==> !status(j).WorseThanWarning() || (j == k + n - 1 && m == 0 && status(j) != Fatal)
  }

  /** terminateSlave and freeSlaveInstance through handle c. */
  function EndStage(s: Env.Stage, c: Env.Handle): Env.Stage
  {
    Env.Next(Env.Next(s, Env.Terminate(c)), Env.Free(c))
  }

  /** One pass of main's loop: a doStep, reads, two sends and reads again. */
  lemma BatchStage(t: seq<Env.Event>, c: Env.Handle, time: real, hh: real, st: Status, r1: seq<Env.Event>,
                   header: string, body: string, r2: seq<Env.Event>)
    requires forall k :: 0 <= k < |r1| ==> Env.TouchOn(r1[k], c)
    requires forall k :: 0 <= k < |r2| ==> Env.TouchOn(r2[k], c)
    ensures Env.StageAfter(t + [Env.DoStep(c, time, hh, st)] + r1 + [Env.Send(header), Env.Send(body)] + r2)
      == RoundStage(Env.StageAfter(t), c, st, |r1| + |r2|)
  {
    StepThenTouches(t, c, time, hh, st, r1);
    SendsThenTouches(t, t + [Env.DoStep(c, time, hh, st)] + r1, c, st, |r1|, header, body, r2);
  }

  lemma StepThenTouches(t: seq<Env.Event>, c: Env.Handle, time: real, hh: real, st: Status, r: seq<Env.Event>)
    requires forall k :: 0 <= k < |r| ==> Env.TouchOn(r[k], c)
    ensures Env.StageAfter(t + [Env.DoStep(c, time, hh, st)] + r) == RoundStage(Env.StageAfter(t), c, st, |r|)
  {
    var step := Env.DoStep(c, time, hh, st);
    Env.StageAfterSnoc(t, step);
    assert Env.StageAfter(t + [step]) == if Env.StageAfter(t) == Env.Initialized(c) then Env.StepOutcome(c, st) else Env.Illegal;
    Env.TouchesStage(t + [step], r, c);
  }

  lemma SendsThenTouches(t: seq<Env.Event>, u: seq<Env.Event>, c: Env.Handle, st: Status, m: nat,
                         header: string, body: string, r: seq<Env.Event>)
    requires forall k :: 0 <= k < |r| ==> Env.TouchOn(r[k], c)
    requires Env.StageAfter(u) == RoundStage(Env.StageAfter(t), c, st, m)
    ensures Env.StageAfter(u + [Env.Send(header), Env.Send(body)] + r) == RoundStage(Env.StageAfter(t), c, st, m + |r|)
  {
    var sends := [Env.Send(header), Env.Send(body)];
    Env.SocketStage(u, sends);
    Env.TouchesStage(u + sends, r, c);
  }

  /** From any stage but an initialized instance c, the first pass is out
      of order. */
  lemma {:induction false} LoopStageOutOfOrder(s: Env.Stage, c: Env.Handle, status: nat -> Status, k: nat, n: nat, m: nat)
    requires s != Env.Initialized(c) && 0 < n
    ensures LoopStage(s, c, status, k, n, m) == Env.Illegal
  {
    if 1 < n {
      LoopStageOutOfOrder(s, c, status, k, n - 1, m);
    }
  }

  /** From an initialized instance c, the loop keeps it initialized exactly
      when every doStep answers fmiOK or fmiWarning, and it ends where
      terminateSlave is in order exactly when the passes keep to the call
      order. */
  lemma {:induction false} LoopStageInOrder(c: Env.Handle, status: nat -> Status, k: nat, n: nat, m: nat)
    ensures var s := LoopStage(Env.Initialized(c), c, status, k, n, m);
      && (s == Env.Initialized(c) <==> forall j :: k <= j < k + n ==> !status(j).WorseThanWarning())
      && (s == Env.Initialized(c) || s == Env.Faulted(c) <==> LoopInOrder(status, k, n, m))
      && (s == Env.Initialized(c) || s == Env.Faulted(c) || s == Env.Lost || s == Env.Illegal)
  {
    if 0 < n {
      LoopStageInOrder(c, status, k, n - 1, m);
      var p := LoopStage(Env.Initialized(c), c, status, k, n - 1, m);
      var last := status(k + n - 1);
      if p != Env.Initialized(c) {
        var j :| k <= j < k + n - 1 && status(j).WorseThanWarning();
        assert !LoopInOrder(status, k, n, m);
      }
    }
  }

  /** Where TwinInitialize leaves the model: nothing on a null instance,
      otherwise the stage initializeSlave leads to. */
  function InitStage(instance: Option<Env.Handle>, status: Status): Env.Stage
  {
    if instance.None? then Env.NoInstance else Env.InitOutcome(instance.value, status)
  }

  /** main as written, in terms of the automaton: after TwinInitialize,
      nSet setReal calls, n passes of the loop and terminateSlave and
      freeSlaveInstance, all through twin.c, which holds the instance when
      initialization succeeded and its uninitialised value `stale`
      otherwise. The calls are in order exactly when initialization
      succeeded and the passes keep to the call order, or when `stale`
      happens to equal the handle of an instance whose initialization
      failed short of fmiFatal and nothing touched it. */
  lemma AsWrittenEnd(instance: Option<Env.Handle>, init: Status, stale: Env.Handle,
                     status: nat -> Status, k: nat, n: nat, nSet: nat, m: nat)
    ensures var c := if instance.Some? && !init.WorseThanWarning() then instance.value else stale;
      var s := LoopStage(Env.AfterTouches(InitStage(instance, init), c, nSet), c, status, k, n, m);
      EndStage(s, c) != Env.Illegal <==>
        || (instance.Some? && !init.WorseThanWarning() && LoopInOrder(status, k, n, m))
        || (instance == Some(stale) && init.WorseThanWarning() && init != Fatal && nSet == 0 && n == 0)
  {
    var c := if instance.Some? && !init.WorseThanWarning() then instance.value else stale;
    var s0 := Env.AfterTouches(InitStage(instance, init), c, nSet);
    if instance.Some? && !init.WorseThanWarning() {
      LoopStageInOrder(c, status, k, n, m);
    } else if 0 < n && s0 != Env.Initialized(c) {
      LoopStageOutOfOrder(s0, c, status, k, n, m);
    }
  }

  // ---------------------------------------------------------------------
  // The twin

  /** The run parameters of main_v1.c's TwinModel, with the GUID the
      model description declares. */
  datatype Settings = Settings(
    fmuFileName: string,
    modelGuid: string,
    tEnd: real,
    h: real,
    setRefs: seq<Env.ValueRef>,
    setValues: seq<real>,
    getVars: seq<ScalarVariable>,
    database: string,
    username: string,
    password: string)

  class Twin {
    /** The process ended in TwinOpen (pexit on a failed connect). */
    var exited: bool
    /** twin->c: whatever the field held until TwinInitialize succeeds. */
    var c: Env.Handle
    /** twin->guid: the model GUID once TwinInitialize has run. */
    var guid: string
    /** The timestamps of the batches written, in order. */
    ghost var stamps: seq<real>
    const host: Env.Host
    const cfg: Settings
    const printf: Printf
    const output: array<real>

    /** TwinOpen: connect to InfluxDB; a failed connect ends the process. */
    constructor Open(host: Env.Host, cfg: Settings, printf: Printf, output: array<real>, stale: Env.Handle, guid0: string)
      requires host.trace == []
      modifies host`connected, host`trace
      ensures this.host == host && this.cfg == cfg && this.printf == printf && this.output == output
      ensures exited == !host.connects && host.connected == host.connects
      ensures c == stale && guid == guid0 && stamps == []
      ensures host.trace == [Env.Connect] && Env.StageAfter(host.trace) == Env.NoInstance
    {
      this.host, this.cfg, this.printf, this.output := host, cfg, printf, output;
      c, guid, stamps := stale, guid0, [];
      new;
      var ok := host.ConnectSocket();
      exited := !ok;
    }

    /** TwinInitialize: instantiate and initialize from 0 to tEnd. Returns
        1 on success, and 0 (the value of error()) on a null instance or an
        initialize status worse than fmiWarning; twin->c is set only on
        success. */
    method Initialize() returns (code: int)
      modifies this`c, this`guid, host`trace
      ensures guid == cfg.modelGuid
      ensures code == (if host.instance.Some? && !host.initStatus.WorseThanWarning() then 1 else 0)
      ensures code == 1 ==> c == host.instance.value
      ensures code == 0 ==> c == old(c)
      ensures host.trace == old(host.trace) + [Env.Instantiate(host.instance)]
        + (if host.instance.Some? then [Env.Initialize(host.instance.value, 0.0, cfg.tEnd, host.initStatus)] else [])
      ensures Env.StageAfter(old(host.trace)) == Env.NoInstance ==>
        Env.StageAfter(host.trace) == InitStage(host.instance, host.initStatus)
    {
      guid := cfg.modelGuid;
      var inst := host.InstantiateSlave();
      if inst.None? {
        return 0;
      }
      var status := host.InitializeSlave(inst.value, 0.0, cfg.tEnd);
      if status.WorseThanWarning() {
        return 0;
      }
      c := inst.value;
      code := 1;
    }

    /** TwinSetInputs: one single-element setReal per input, in index
        order; no call when there is no input. */
    method SetInputs()
      requires |cfg.setRefs| == |cfg.setValues|
      modifies host`store, host`trace
      ensures host.store == Inputs(old(host.store), cfg.setRefs, cfg.setValues)
      ensures host.trace == old(host.trace) + InputCalls(c, cfg.setRefs, cfg.setValues)
    {
      var refs, values := cfg.setRefs, cfg.setValues;
      ghost var s0 := host.store;
      var i := 0;
      while i < |refs|
        invariant 0 <= i <= |refs|
        invariant host.store == Inputs(s0, refs[..i], values[..i])
        invariant host.trace == old(host.trace) + InputCalls(c, refs[..i], values[..i])
      {
        InputCallsSnoc(s0, c, refs, values, i);
        Env.EventsAssoc(old(host.trace), InputCalls(c, refs[..i], values[..i]), [Env.SetReal(c, refs[i], values[i])]);
        host.SetReal(c, refs[i], values[i]);
        i := i + 1;
      }
      assert refs[..i] == refs && values[..i] == values;
    }

    /** One pass of TwinGetOutputs: output[i] := getReal of output i. */
    method FetchAt(i: nat)
      requires i < output.Length == |cfg.getVars|
      modifies output, host`trace
      ensures output[..] == old(output[..])[i := host.store.Real(cfg.getVars[i].vr)]
      ensures host.trace == old(host.trace) + [Env.GetReal(c, cfg.getVars[i].vr)]
    {
      var x := host.GetReal(c, cfg.getVars[i].vr);
      output[i] := x;
    }

    /** TwinGetOutputs: every entry overwritten in index order. */
    method GetOutputs()
      requires output.Length == |cfg.getVars|
      modifies output, host`trace
      ensures output[..] == Outputs(cfg.getVars, host.store)
      ensures host.trace == old(host.trace) + Reads(c, cfg.getVars)
    {
      var vars := cfg.getVars;
      ghost var out0 := output[..];
      ghost var want := Outputs(vars, host.store);
      var i := 0;
      while i < |vars|
        invariant 0 <= i <= |vars|
        invariant want == Outputs(vars, host.store)
        invariant output[..] == want[..i] + out0[i..]
        invariant host.trace == old(host.trace) + Reads(c, vars[..i])
      {
        ReadsSnoc(c, vars, i);
        Env.EventsAssoc(old(host.trace), Reads(c, vars[..i]), [Env.GetReal(c, vars[i].vr)]);
        Env.Splice(want, out0, i);
        FetchAt(i);
        i := i + 1;
      }
      assert vars[..i] == vars;
      assert want[..i] + out0[i..] == want;
    }

    /** One pass of the field loop of TwinSimulationByStep. */
    method AppendField(v: ScalarVariable, last: bool, ghost head: string, ghost fs: seq<string>, body0: string)
      returns (body: string)
      requires body0 == head + Influx.Open(fs)
      modifies host`trace
      ensures host.trace == old(host.trace) + [Env.GetReal(c, v.vr)]
      ensures last ==> body == head + Line(fs + [FieldText(v, host.store, printf)])
      ensures !last ==> body == head + Influx.Open(fs + [FieldText(v, host.store, printf)])
    {
      var x := host.GetReal(c, v.vr);
      var f := v.name + "=" + printf.g16(x);
      OpenLineSnoc(fs, f);
      var sep := if last then "\n" else ",";
      body := body0 + f + sep;
      TextAssoc(head, Influx.Open(fs), f, sep);
    }

    /** The field loop of TwinSimulationByStep: each output read with
        getReal and appended, followed by ',' or, for the last, a newline. */
    method AppendFields(body0: string) returns (body: string)
      modifies host`trace
      ensures host.trace == old(host.trace) + Reads(c, cfg.getVars)
      ensures body == body0 + Line(FieldTexts(cfg.getVars, host.store, printf))
    {
      var vars := cfg.getVars;
      ghost var fs: seq<string> := [];
      body := body0;
      assert body0 + Influx.Open([]) == body0;
      var i := 0;
      while i < |vars|
        invariant 0 <= i <= |vars|
        invariant host.trace == old(host.trace) + Reads(c, vars[..i])
        invariant fs == FieldTexts(vars[..i], host.store, printf)
        invariant i < |vars| || i == 0 ==> body == body0 + Influx.Open(fs)
        invariant i == |vars| && i != 0 ==> body == body0 + Line(fs)
      {
        ReadsSnoc(c, vars, i);
        Env.EventsAssoc(old(host.trace), Reads(c, vars[..i]), [Env.GetReal(c, vars[i].vr)]);
        assert FieldTexts(vars[..i + 1], host.store, printf)
          == FieldTexts(vars[..i], host.store, printf) + [FieldText(vars[i], host.store, printf)];
        body := AppendField(vars[i], i == |vars| - 1, body0, fs, body);
        fs := fs + [FieldText(vars[i], host.store, printf)];
        i := i + 1;
      }
      assert vars[..i] == vars;
      if vars == [] {
        assert Line(fs) == "" && Influx.Open(fs) == "";
      }
    }

    /** The batch of TwinSimulationByStep: the body stamped `t`, then the
        header and the body sent; no reply is read. */
    method Publish(t: real) returns (header: string, body: string)
      requires host.connected
      modifies host`trace
      ensures body == Body(cfg.fmuFileName, guid, printf.g16(t), cfg.getVars, host.store, printf)
      ensures header == Header(cfg.database, cfg.username, cfg.password, |body|)
      ensures host.trace == old(host.trace) + Reads(c, cfg.getVars) + [Env.Send(header), Env.Send(body)]
    {
      body := AppendFields(Prefix(cfg.fmuFileName, guid, printf.g16(t)));
      header := Header(cfg.database, cfg.username, cfg.password, |body|);
      SendBatch(header, body);
    }

    /** The two sends of TwinSimulationByStep: the header, then the body. */
    method SendBatch(header: string, body: string)
      requires host.connected
      modifies host`trace
      ensures host.trace == old(host.trace) + [Env.Send(header), Env.Send(body)]
    {
      host.SendData(header);
      host.SendData(body);
    }

    /** TwinSimulationByStep: step by min(h, tEnd - time) whatever doStep
        answers, then publish the batch stamped with the time reached. */
    method SimulationByStep(time: real) returns (next: real, header: string, body: string)
      requires host.connected
      modifies this`stamps, host`store, host`steps, host`trace
      ensures next == time + Clamp(cfg.h, cfg.tEnd, time)
      ensures host.steps == old(host.steps) + 1 && host.store == host.stepStore(old(host.steps))
      ensures body == Body(cfg.fmuFileName, guid, printf.g16(next), cfg.getVars, host.store, printf)
      ensures header == Header(cfg.database, cfg.username, cfg.password, |body|)
      ensures host.trace == old(host.trace) + [Env.DoStep(c, time, Clamp(cfg.h, cfg.tEnd, time), host.stepStatus(old(host.steps)))]
        + Reads(c, cfg.getVars) + [Env.Send(header), Env.Send(body)]
      ensures stamps == old(stamps) + [next]
    {
      var hh := Clamp(cfg.h, cfg.tEnd, time);
      var status := host.DoStep(c, time, hh);
      next := time + hh;
      header, body := Publish(next);
      stamps := stamps + [next];
    }

    /** One pass of TwinSimulation's loop up to its status test: clamp
        the step so as not to pass tEnd, then doStep from the n-th time of
        the schedule. The trace grows by the n-th call of StepCalls. */
    method StepAt(time: real, hh0: real, ghost n: nat, ghost t0: seq<Env.Event>, ghost k0: nat) returns (status: Status, hh: real, next: real)
      requires 0.0 < cfg.h && time < cfg.tEnd && hh0 == cfg.h
      requires OnSchedule(n, time, cfg.tEnd, cfg.h)
      requires host.trace == t0 + StepCalls(n, k0, c, cfg.tEnd, cfg.h, host.stepStatus) && host.steps == k0 + n
      modifies host`store, host`steps, host`trace
      ensures hh == Clamp(cfg.h, cfg.tEnd, time) && next == time + hh && (next < cfg.tEnd ==> hh == cfg.h)
      ensures status == host.stepStatus(k0 + n) && host.steps == k0 + n + 1
      ensures host.trace == t0 + StepCalls(n + 1, k0, c, cfg.tEnd, cfg.h, host.stepStatus)
      ensures OnSchedule(n + 1, next, cfg.tEnd, cfg.h)
      ensures StepCount(next, cfg.tEnd, cfg.h) < StepCount(time, cfg.tEnd, cfg.h)
    {
      hh := hh0;
      if cfg.h > cfg.tEnd - time {
        hh := cfg.tEnd - time;
      }
      ScheduleStep(n, time, cfg.tEnd, cfg.h);
      status := host.DoStep(c, time, hh);
      next := time + hh;
    }

    /** The loop of TwinSimulation: step by min(h, tEnd - time) from 0
        until tEnd, stopping at the first doStep that is not fmiOK. The
        step hh keeps its value between passes, as in the source; it only
        changes on the last one. */
    method Steps() returns (ok: bool, nSteps: nat)
      requires 0.0 < cfg.h
      modifies host`store, host`steps, host`trace
      ensures ok <==> AllOK(host.stepStatus, old(host.steps), StepCount(0.0, cfg.tEnd, cfg.h))
      ensures ok ==> nSteps == StepCount(0.0, cfg.tEnd, cfg.h) && host.steps == old(host.steps) + nSteps
      ensures !ok ==> nSteps < StepCount(0.0, cfg.tEnd, cfg.h) && host.steps == old(host.steps) + nSteps + 1
      ensures !ok ==> host.stepStatus(old(host.steps) + nSteps) != OK
      ensures !ok ==> AllOK(host.stepStatus, old(host.steps), nSteps)
      ensures ok ==> host.trace == old(host.trace) + StepCalls(nSteps, old(host.steps), c, cfg.tEnd, cfg.h, host.stepStatus)
      ensures !ok ==> host.trace == old(host.trace) + StepCalls(nSteps + 1, old(host.steps), c, cfg.tEnd, cfg.h, host.stepStatus)
    {
      var h, tEnd := cfg.h, cfg.tEnd;
      var time := 0.0;
      var hh := h;
      nSteps := 0;
      ghost var t0, k0 := host.trace, host.steps;
      while time < tEnd
        invariant time < tEnd ==> hh == h
        invariant OnSchedule(nSteps, time, cfg.tEnd, cfg.h)
        invariant host.trace == t0 + StepCalls(nSteps, k0, c, cfg.tEnd, cfg.h, host.stepStatus)
        invariant host.steps == k0 + nSteps
        invariant AllOK(host.stepStatus, k0, nSteps)
        decreases StepCount(time, cfg.tEnd, cfg.h)
      {
        var status, next;
        status, hh, next := StepAt(time, hh, nSteps, t0, k0);
        if status != OK {
          AllOKFails(host.stepStatus, k0, nSteps, StepCount(0.0, cfg.tEnd, cfg.h));
          return false, nSteps;
        }
        AllOKSnoc(host.stepStatus, k0, nSteps);
        time := next;
        nSteps := nSteps + 1;
      }
      ok := true;
    }

    /** TwinSimulation: the whole run with the result file. It fails when
        the file cannot be opened or at the first doStep that is not
        fmiOK; otherwise it ends with terminateSlave and freeSlaveInstance
        and reports the number of steps. */
    method Simulation(fileOpens: bool) returns (code: int, nSteps: nat)
      requires 0.0 < cfg.h
      modifies host`store, host`steps, host`trace
      ensures code == 0 || code == 1
      ensures !fileOpens ==> code == 0 && nSteps == 0 && host.trace == old(host.trace)
      ensures code == 1 <==>
        fileOpens && AllOK(host.stepStatus, old(host.steps), StepCount(0.0, cfg.tEnd, cfg.h))
      ensures code == 1 ==> nSteps == StepCount(0.0, cfg.tEnd, cfg.h) && host.steps == old(host.steps) + nSteps
      ensures fileOpens && code == 0 ==>
        && nSteps < StepCount(0.0, cfg.tEnd, cfg.h) && host.steps == old(host.steps) + nSteps + 1
        && host.stepStatus(old(host.steps) + nSteps) != OK
        && AllOK(host.stepStatus, old(host.steps), nSteps)
      ensures fileOpens && code == 0 ==>
        host.trace == old(host.trace) + StepCalls(nSteps + 1, old(host.steps), c, cfg.tEnd, cfg.h, host.stepStatus)
      ensures code == 1 ==>
        host.trace == old(host.trace) + StepCalls(nSteps, old(host.steps), c, cfg.tEnd, cfg.h, host.stepStatus)
                      + [Env.Terminate(c), Env.Free(c)]
      ensures code == 1 && Env.StageAfter(old(host.trace)) == Env.Initialized(c) ==> Env.StageAfter(host.trace) == Env.Freed
      ensures fileOpens && code == 0 && Env.StageAfter(old(host.trace)) == Env.Initialized(c) ==>
        Env.StageAfter(host.trace) == Env.StepOutcome(c, host.stepStatus(old(host.steps) + nSteps))
    {
      if !fileOpens {
        return 0, 0;
      }
      ghost var t0, k0 := host.trace, host.steps;
      ghost var started := Env.StageAfter(t0) == Env.Initialized(c);
      var ok;
      ok, nSteps := Steps();
      if !ok {
        if started {
          StepCallsOutcome(t0, nSteps, k0, c, cfg.tEnd, cfg.h, host.stepStatus);
        }
        return 0, nSteps;
      }
      if started {
        StepCallsStage(t0, nSteps, k0, c, cfg.tEnd, cfg.h, host.stepStatus);
      }
      EndSimulation();
      code := 1;
    }

    /** The end of TwinSimulation: terminate instance c, then free it. */
    method EndSimulation()
      modifies host`trace
      ensures host.trace == old(host.trace) + [Env.Terminate(c), Env.Free(c)]
      ensures Env.StageAfter(old(host.trace)) == Env.Initialized(c) ==> Env.StageAfter(host.trace) == Env.Freed
    {
      ghost var started := Env.StageAfter(host.trace) == Env.Initialized(c);
      host.TerminateSlave(c);
      assert started ==> Env.StageAfter(host.trace) == Env.Terminated(c);
      host.FreeSlaveInstance(c);
      assert [Env.Terminate(c)] + [Env.Free(c)] == [Env.Terminate(c), Env.Free(c)];
    }

    /** TwinReset. */
    method Reset()
      modifies host`trace
      ensures host.trace == old(host.trace) + [Env.Reset(c)]
      ensures Env.StageAfter(host.trace) == Env.Next(Env.StageAfter(old(host.trace)), Env.Reset(c))
    {
      host.ResetSlave(c);
    }

    /** TwinClose: close the socket (the library unloading is not part of
        this model). */
    method Close()
      modifies host`connected, host`trace
      ensures !host.connected
      ensures host.trace == old(host.trace) + [Env.CloseSocket]
      ensures Env.StageAfter(host.trace) == Env.StageAfter(old(host.trace))
    {
      host.CloseSocket();
    }

    /** The end of main: terminateSlave and freeSlaveInstance on twin.c,
        then TwinClose. */
    method Finish()
      modifies host`connected, host`trace
      ensures !host.connected
      ensures host.trace == old(host.trace) + [Env.Terminate(c), Env.Free(c), Env.CloseSocket]
      ensures Env.StageAfter(host.trace) == EndStage(Env.StageAfter(old(host.trace)), c)
    {
      host.TerminateSlave(c);
      host.FreeSlaveInstance(c);
      Close();
    }
  }

  /** One pass of main's loop: TwinSimulationByStep, then TwinGetOutputs. */
  method Round(twin: Twin, time: real) returns (next: real)
    requires twin.host.connected && twin.output.Length == |twin.cfg.getVars|
    modifies twin`stamps, twin.host`store, twin.host`steps, twin.host`trace, twin.output
    ensures next == time + Clamp(twin.cfg.h, twin.cfg.tEnd, time)
    ensures twin.stamps == old(twin.stamps) + [next]
    ensures twin.output[..] == Outputs(twin.cfg.getVars, twin.host.store)
    ensures twin.host.steps == old(twin.host.steps) + 1
    ensures Env.StageAfter(twin.host.trace)
      == RoundStage(Env.StageAfter(old(twin.host.trace)), twin.c, twin.host.stepStatus(old(twin.host.steps)), 2 * |twin.cfg.getVars|)
  {
    ghost var t0, k0 := twin.host.trace, twin.host.steps;
    var header, body;
    next, header, body := twin.SimulationByStep(time);
    twin.GetOutputs();
    BatchStage(t0, twin.c, time, Clamp(twin.cfg.h, twin.cfg.tEnd, time), twin.host.stepStatus(k0),
               Reads(twin.c, twin.cfg.getVars), header, body, Reads(twin.c, twin.cfg.getVars));
  }

  /** main's loop: TwinSimulationByStep then TwinGetOutputs until tEnd. */
  method Drive(twin: Twin)
    requires twin.host.connected && 0.0 < twin.cfg.h && twin.output.Length == |twin.cfg.getVars|
    modifies twin`stamps, twin.host`store, twin.host`steps, twin.host`trace, twin.output
    ensures twin.stamps == old(twin.stamps) + Grid(0.0, twin.cfg.tEnd, twin.cfg.h)
    ensures 0.0 < twin.cfg.tEnd ==> twin.output[..] == Outputs(twin.cfg.getVars, twin.host.store)
    ensures twin.host.steps == old(twin.host.steps) + StepCount(0.0, twin.cfg.tEnd, twin.cfg.h)
    ensures Env.StageAfter(twin.host.trace)
      == LoopStage(Env.StageAfter(old(twin.host.trace)), twin.c, twin.host.stepStatus, old(twin.host.steps),
                   StepCount(0.0, twin.cfg.tEnd, twin.cfg.h), 2 * |twin.cfg.getVars|)
  {
    var tEnd, h := twin.cfg.tEnd, twin.cfg.h;
    ghost var s0, st0, k0 := twin.stamps, Env.StageAfter(twin.host.trace), twin.host.steps;
    ghost var m := 2 * |twin.cfg.getVars|;
    var time := 0.0;
    ghost var n := 0;
    while time < tEnd
      invariant Paced(s0, twin.stamps, n, time, tEnd, h)
      invariant time != 0.0 ==> twin.output[..] == Outputs(twin.cfg.getVars, twin.host.store)
      invariant twin.host.steps == k0 + n
      invariant Env.StageAfter(twin.host.trace) == LoopStage(st0, twin.c, twin.host.stepStatus, k0, n, m)
      decreases StepCount(time, tEnd, h)
    {
      time := Pass(twin, time, s0, n, st0, k0);
      n := n + 1;
    }
    PacedDone(s0, twin.stamps, n, time, tEnd, h);
  }

  /** Round as Drive's loop sees it: Paced and the stage after the passes
      so far carry over to one more pass. */
  method Pass(twin: Twin, time: real, ghost s0: seq<real>, ghost n: nat, ghost st0: Env.Stage, ghost k0: nat)
    returns (next: real)
    requires twin.host.connected && 0.0 < twin.cfg.h && twin.output.Length == |twin.cfg.getVars|
    requires time < twin.cfg.tEnd && Paced(s0, twin.stamps, n, time, twin.cfg.tEnd, twin.cfg.h)
    requires twin.host.steps == k0 + n
    requires Env.StageAfter(twin.host.trace) == LoopStage(st0, twin.c, twin.host.stepStatus, k0, n, 2 * |twin.cfg.getVars|)
    modifies twin`stamps, twin.host`store, twin.host`steps, twin.host`trace, twin.output
    ensures Paced(s0, twin.stamps, n + 1, next, twin.cfg.tEnd, twin.cfg.h) && next != 0.0
    ensures StepCount(next, twin.cfg.tEnd, twin.cfg.h) < StepCount(time, twin.cfg.tEnd, twin.cfg.h)
    ensures twin.output[..] == Outputs(twin.cfg.getVars, twin.host.store)
    ensures twin.host.steps == k0 + n + 1
    ensures Env.StageAfter(twin.host.trace) == LoopStage(st0, twin.c, twin.host.stepStatus, k0, n + 1, 2 * |twin.cfg.getVars|)
  {
    PacedStep(s0, twin.stamps, n, time, twin.cfg.tEnd, twin.cfg.h);
    LoopStageSnoc(st0, twin.c, twin.host.stepStatus, k0, n, 2 * |twin.cfg.getVars|);
    next := Round(twin, time);
  }

  /** Where main's loop stands at `time`, on values: `stamps` extends `s0`
      by the times reached so far and `n` steps have been taken. */
  ghost predicate Paced(s0: seq<real>, stamps: seq<real>, n: nat, time: real, tEnd: real, h: real)
    requires 0.0 < h
  {
    && 0.0 <= time
    && stamps + Grid(time, tEnd, h) == s0 + Grid(0.0, tEnd, h)
    && n + StepCount(time, tEnd, h) == StepCount(0.0, tEnd, h)
  }

  /** One pass of the loop keeps Paced, and the steps left shrink. */
  lemma PacedStep(s0: seq<real>, stamps: seq<real>, n: nat, time: real, tEnd: real, h: real)
    requires 0.0 < h && time < tEnd && Paced(s0, stamps, n, time, tEnd, h)
    ensures var next := time + Clamp(h, tEnd, time);
      && Paced(s0, stamps + [next], n + 1, next, tEnd, h)
      && StepCount(next, tEnd, h) < StepCount(time, tEnd, h)
  {
    var next := time + Clamp(h, tEnd, time);
    GridUnfold(time, tEnd, h);
    TimesAssoc(stamps, next, Grid(next, tEnd, h));
  }

  /** When the loop exits, the whole grid has been stamped and counted. */
  lemma PacedDone(s0: seq<real>, stamps: seq<real>, n: nat, time: real, tEnd: real, h: real)
    requires 0.0 < h && tEnd <= time && Paced(s0, stamps, n, time, tEnd, h)
    ensures stamps == s0 + Grid(0.0, tEnd, h) && n == StepCount(0.0, tEnd, h)
  {
    assert stamps + [] == stamps;
  }

  /** The start of main: TwinOpen, then TwinInitialize unless the connect
      failed. */
  method Start(host: Env.Host, cfg: Settings, printf: Printf, output: array<real>, stale: Env.Handle, guid0: string)
    returns (twin: Twin, code: int)
    requires host.trace == [] && !host.connected
    modifies host`connected, host`trace
    ensures fresh(twin) && twin.host == host && twin.cfg == cfg && twin.output == output && twin.printf == printf
    ensures twin.exited == !host.connects
    ensures twin.exited ==> host.trace == [Env.Connect] && code == 0 && Env.StageAfter(host.trace) == Env.NoInstance
    ensures !twin.exited ==> host.connected && twin.stamps == []
    ensures !twin.exited ==> code == (if host.instance.Some? && !host.initStatus.WorseThanWarning() then 1 else 0)
    ensures !twin.exited ==> Env.StageAfter(host.trace) == InitStage(host.instance, host.initStatus)
    ensures twin.c == (if code == 1 then host.instance.value else stale)
  {
    twin := new Twin.Open(host, cfg, printf, output, stale, guid0);
    if twin.exited {
      return twin, 0;
    }
    code := twin.Initialize();
  }

  /** The rest of main once the twin is open: TwinSetInputs, the loop,
      then terminateSlave, freeSlaveInstance and TwinClose, all through
      twin.c. */
  method Proceed(twin: Twin)
    requires twin.host.connected && 0.0 < twin.cfg.h
    requires |twin.cfg.setRefs| == |twin.cfg.setValues| && twin.output.Length == |twin.cfg.getVars|
    modifies twin`stamps, twin.host`store, twin.host`steps, twin.host`trace, twin.host`connected, twin.output
    ensures !twin.host.connected
    ensures twin.stamps == old(twin.stamps) + Grid(0.0, twin.cfg.tEnd, twin.cfg.h)
    ensures 0.0 < twin.cfg.tEnd ==> twin.output[..] == Outputs(twin.cfg.getVars, twin.host.store)
    ensures twin.host.steps == old(twin.host.steps) + StepCount(0.0, twin.cfg.tEnd, twin.cfg.h)
    ensures var st := Env.AfterTouches(Env.StageAfter(old(twin.host.trace)), twin.c, |twin.cfg.setRefs|);
      Env.StageAfter(twin.host.trace)
        == EndStage(LoopStage(st, twin.c, twin.host.stepStatus, old(twin.host.steps),
                              StepCount(0.0, twin.cfg.tEnd, twin.cfg.h), 2 * |twin.cfg.getVars|), twin.c)
  {
    ghost var t1 := twin.host.trace;
    twin.SetInputs();
    Env.TouchesStage(t1, InputCalls(twin.c, twin.cfg.setRefs, twin.cfg.setValues), twin.c);
    Drive(twin);
    twin.Finish();
  }

  /** main as written: the result of TwinInitialize is ignored, so the
      inputs are set, the loop runs and the instance is terminated and
      freed through twin.c whether or not initialization succeeded, and
      the doStep answers are ignored too. The calls are in order exactly
      when initialization succeeded and every doStep answered no worse than
      fmiWarning (the last may fail short of fmiFatal when no output is
      read), or when the uninitialised twin.c happens to equal the handle
      of an instance whose initialization failed short of fmiFatal and no
      input is set and no step made; an in-order run ends freed. */
  method RunAsWritten(host: Env.Host, cfg: Settings, printf: Printf, output: array<real>, stale: Env.Handle, guid0: string)
    returns (twin: Twin)
    requires host.trace == [] && !host.connected
    requires |cfg.setRefs| == |cfg.setValues| && output.Length == |cfg.getVars| && 0.0 < cfg.h
    modifies host, output
    ensures twin.host == host && twin.cfg == cfg && twin.output == output
    ensures twin.exited == !host.connects
    ensures twin.exited ==> host.trace == [Env.Connect]
    ensures !twin.exited ==> twin.stamps == Grid(0.0, cfg.tEnd, cfg.h) && !host.connected
    ensures !twin.exited && 0.0 < cfg.tEnd ==> output[..] == Outputs(cfg.getVars, host.store)
    ensures !twin.exited ==>
      (Env.Legal(host.trace) <==>
        || (host.instance.Some? && !host.initStatus.WorseThanWarning()
            && LoopInOrder(host.stepStatus, old(host.steps), StepCount(0.0, cfg.tEnd, cfg.h), 2 * |cfg.getVars|))
        || (host.instance == Some(stale) && host.initStatus.WorseThanWarning() && host.initStatus != Fatal
            && cfg.setRefs == [] && cfg.tEnd <= 0.0))
    ensures !twin.exited ==> (Env.Legal(host.trace) <==> Env.StageAfter(host.trace) == Env.Freed)
  {
    var ignored;
    twin, ignored := Start(host, cfg, printf, output, stale, guid0);
    if twin.exited {
      return;
    }
    ghost var k0 := host.steps;
    Proceed(twin);
    if 0.0 < cfg.tEnd {
      GridUnfold(0.0, cfg.tEnd, cfg.h);
    }
    AsWrittenEnd(host.instance, host.initStatus, stale, host.stepStatus, k0,
                 StepCount(0.0, cfg.tEnd, cfg.h), |cfg.setRefs|, 2 * |cfg.getVars|);
  }

  /** main with the result of TwinInitialize checked: the run stops, in
      order, when initialization fails. Otherwise the doStep answers are
      still ignored, so the calls are in order exactly when the passes keep
      to the call order, and an in-order run ends freed. */
  method Run(host: Env.Host, cfg: Settings, printf: Printf, output: array<real>, stale: Env.Handle, guid0: string)
    returns (twin: Twin, ok: bool)
    requires host.trace == [] && !host.connected
    requires |cfg.setRefs| == |cfg.setValues| && output.Length == |cfg.getVars| && 0.0 < cfg.h
    modifies host, output
    ensures twin.host == host && twin.cfg == cfg && twin.output == output
    ensures ok <==> host.connects && host.instance.Some? && !host.initStatus.WorseThanWarning()
    ensures !ok ==> Env.Legal(host.trace)
    ensures ok ==> !host.connected
    ensures ok ==>
      (Env.Legal(host.trace) <==> LoopInOrder(host.stepStatus, old(host.steps), StepCount(0.0, cfg.tEnd, cfg.h), 2 * |cfg.getVars|))
    ensures ok ==> (Env.Legal(host.trace) <==> Env.StageAfter(host.trace) == Env.Freed)
    ensures ok ==> twin.stamps == Grid(0.0, cfg.tEnd, cfg.h)
    ensures ok && 0.0 < cfg.tEnd ==> output[..] == Outputs(cfg.getVars, host.store)
  {
    var code;
    twin, code := Start(host, cfg, printf, output, stale, guid0);
    if twin.exited || code != 1 {
      assert Env.StageAfter(host.trace) != Env.Illegal;
      return twin, false;
    }
    ghost var k0 := host.steps;
    Proceed(twin);
    AsWrittenEnd(host.instance, host.initStatus, stale, host.stepStatus, k0,
                 StepCount(0.0, cfg.tEnd, cfg.h), |cfg.setRefs|, 2 * |cfg.getVars|);
    ok := true;
  }
}
