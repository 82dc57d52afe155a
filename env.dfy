/**
  Everything the driver talks to, seen from the driver: the model instance
  behind the co-simulation function table, the socket to the InfluxDB
  server, and the run-counter file. The model's answers (the instance
  handle, the statuses of initialize and doStep, the values a step leaves,
  the server's replies) are fixed in advance by the constructor, so a run
  is determined by them. Every call is appended to a ghost trace, and the
  trace is judged by the call-order automaton of the interface.
 */
module Env {
  import opened Fmi
  import opened Text

  type ValueRef = nat
  type Handle = nat

  /** The values the model holds, per base type (in FMI 1.0 a value
      reference identifies a variable only together with its type). */
  datatype Store = Store(reals: map<ValueRef, real>, ints: map<ValueRef, int>) {
    /** What getReal yields; a reference the model lacks reads 0.0. */
    function Real(vr: ValueRef): real {
      if vr in reals then reals[vr] else 0.0
    }

    function Int(vr: ValueRef): int {
      if vr in ints then ints[vr] else 0
    }
  }

  /** A fetch loop writing slot i of a part-written array of model values
      moves the split point by one. */
  lemma Splice(done: seq<real>, rest: seq<real>, i: nat)
    requires |done| == |rest| && i < |done|
    ensures (done[..i] + rest[i..])[i := done[i]] == done[..i + 1] + rest[i + 1..]
  {
    assert (done[..i] + rest[i..])[i := done[i]] == done[..i + 1] + rest[i + 1..];
  }

  /** One call from the driver to the outside. Every call on the model
      names the instance handle it goes through. */
  datatype Event =
    | Connect
    | Instantiate(instance: Option<Handle>)
    | Initialize(c: Handle, tStart: real, tStop: real, status: Status)
    | SetReal(c: Handle, vr: ValueRef, r: real)
    | SetInteger(c: Handle, vr: ValueRef, i: int)
    | GetReal(c: Handle, vr: ValueRef)
    | GetInteger(c: Handle, vr: ValueRef)
    | DoStep(c: Handle, time: real, step: real, status: Status)
    | Reset(c: Handle)
    | Terminate(c: Handle)
    | Free(c: Handle)
    | Send(data: string)
    | Receive(reply: string)
    | CloseSocket

  /** Calls on the socket, which leave the model alone. */
  predicate Socket(e: Event) {
    e.Connect? || e.Send? || e.Receive? || e.CloseSocket?
  }

  /** Calls that read or change the model's variables or advance it. */
  predicate Touches(e: Event) {
    e.SetReal? || e.SetInteger? || e.GetReal? || e.GetInteger? || e.DoStep?
  }

  /** Calls that go through an instance handle. */
  predicate OnInstance(e: Event) {
    !Socket(e) && !e.Instantiate?
  }

  /** A call through handle c that an initialized instance takes in its
      stride: a get or set, or a doStep answered no worse than fmiWarning. */
  predicate TouchOn(e: Event, c: Handle) {
    Touches(e) && e.c == c && (e.DoStep? ==> !e.status.WorseThanWarning())
  }

  /** Where the model stands in the interface's life cycle, with the handle
      of the instance it holds. Faulted follows a doStep that answered
      fmiDiscard, fmiError or fmiPending: the instance may only be
      terminated or freed. Lost follows an fmiFatal answer: no call on the
      model is allowed any more. */
  datatype Stage =
    | NoInstance
    | Instantiated(c: Handle)
    | Initialized(c: Handle)
    | Faulted(c: Handle)
    | Lost
    | Terminated(c: Handle)
    | Freed
    | Illegal

  /** The stage initializeSlave leaves instance c in. */
  function InitOutcome(c: Handle, status: Status): Stage
  {
    if status == Fatal then Lost
    else if status.WorseThanWarning() then Instantiated(c)
    else Initialized(c)
  }

  /** The stage a doStep on initialized instance c leaves it in. */
  function StepOutcome(c: Handle, status: Status): Stage
  {
    if status == Fatal then Lost
    else if status.WorseThanWarning() then Faulted(c)
    else Initialized(c)
  }

  /** The call-order automaton: which call is allowed in which stage, and
      where it leads. A call through any handle but the one held is out of
      order, and so is every call after the order is broken. */
  function Next(s: Stage, e: Event): Stage
  {
    match e
    case Connect => s
    case Send(_) => s
    case Receive(_) => s
    case CloseSocket => s
    case Instantiate(r) =>
      if s == NoInstance || s == Freed then (if r.Some? then Instantiated(r.value) else s) else Illegal
    case Initialize(c, _, _, status) =>
      if s == Instantiated(c) then InitOutcome(c, status) else Illegal
    case DoStep(c, _, _, status) =>
      if s == Initialized(c) then StepOutcome(c, status) else Illegal
    case Reset(c) => if s == Initialized(c) then Instantiated(c) else Illegal
    case Terminate(c) =>
      if s == Initialized(c) || s == Instantiated(c) || s == Faulted(c) then Terminated(c) else Illegal
    case Free(c) =>
      if s == Terminated(c) || s == Instantiated(c) || s == Faulted(c) then Freed else Illegal
    case _ => if s == Initialized(e.c) then s else Illegal
  }

  function StageAfter(t: seq<Event>): Stage
  {
    if t == [] then NoInstance else Next(StageAfter(t[..|t| - 1]), t[|t| - 1])
  }

  predicate Legal(t: seq<Event>) {
    StageAfter(t) != Illegal
  }

  lemma StageAfterSnoc(t: seq<Event>, e: Event)
    ensures StageAfter(t + [e]) == Next(StageAfter(t), e)
  {
    assert (t + [e])[..|t|] == t;
  }

  lemma EventsAssoc(a: seq<Event>, b: seq<Event>, c: seq<Event>)
    ensures a + b + c == a + (b + c)
  {
  }

  /** Once a call is out of order, no later call repairs the trace. */
  lemma {:induction false} IllegalAbsorbs(t: seq<Event>, u: seq<Event>)
    requires StageAfter(t) == Illegal
    ensures StageAfter(t + u) == Illegal
    decreases |u|
  {
    if u != [] {
      var init := u[..|u| - 1];
      assert t + u == (t + init) + [u[|u| - 1]];
      IllegalAbsorbs(t, init);
      StageAfterSnoc(t + init, u[|u| - 1]);
    } else {
      assert t + u == t;
    }
  }

  /** The stage after n calls through handle c, each a get, a set or a
      doStep answered no worse than fmiWarning, made from stage s. */
  function AfterTouches(s: Stage, c: Handle, n: nat): Stage
  {
    if n == 0 || s == Initialized(c) then s else Illegal
  }

  /** A run of such calls keeps instance c initialized, and is out of
      order from any other stage. */
  lemma {:induction false} TouchesStage(t: seq<Event>, u: seq<Event>, c: Handle)
    requires forall k :: 0 <= k < |u| ==> TouchOn(u[k], c)
    ensures StageAfter(t + u) == AfterTouches(StageAfter(t), c, |u|)
    decreases |u|
  {
    if u == [] {
      assert t + u == t;
    } else {
      var init := u[..|u| - 1];
      assert t + u == (t + init) + [u[|u| - 1]];
      TouchesStage(t, init, c);
      StageAfterSnoc(t + init, u[|u| - 1]);
    }
  }

  /** Socket calls leave the model where it was. */
  lemma {:induction false} SocketStage(t: seq<Event>, u: seq<Event>)
    requires forall k :: 0 <= k < |u| ==> Socket(u[k])
    ensures StageAfter(t + u) == StageAfter(t)
    decreases |u|
  {
    if u == [] {
      assert t + u == t;
    } else {
      var init := u[..|u| - 1];
      assert t + u == (t + init) + [u[|u| - 1]];
      SocketStage(t, init);
      StageAfterSnoc(t + init, u[|u| - 1]);
    }
  }

  /** Gets, sets, doSteps answered no worse than fmiWarning, and socket
      calls keep instance c initialized. */
  lemma {:induction false} QuietStage(t: seq<Event>, u: seq<Event>, c: Handle)
    requires StageAfter(t) == Initialized(c)
    requires forall k :: 0 <= k < |u| ==> TouchOn(u[k], c) || Socket(u[k])
    ensures StageAfter(t + u) == Initialized(c)
    decreases |u|
  {
    if u == [] {
      assert t + u == t;
    } else {
      var init := u[..|u| - 1];
      assert t + u == (t + init) + [u[|u| - 1]];
      QuietStage(t, init, c);
      StageAfterSnoc(t + init, u[|u| - 1]);
    }
  }

  /** Every prefix of a legal trace is legal. */
  lemma {:induction false} LegalPrefix(t: seq<Event>, k: nat)
    requires k <= |t| && Legal(t)
    ensures Legal(t[..k])
    decreases |t|
  {
    if k < |t| {
      var init := t[..|t| - 1];
      assert init[..k] == t[..k];
      LegalPrefix(init, k);
    } else {
      assert t[..k] == t;
    }
  }

  /** In a legal trace, every get, set or doStep goes through the handle of
      an initialized instance. */
  lemma TouchOnlyWhenInitialized(t: seq<Event>, i: nat)
    requires Legal(t) && i < |t| && Touches(t[i])
    ensures StageAfter(t[..i]) == Initialized(t[i].c)
  {
    LegalPrefix(t, i + 1);
    assert t[..i + 1] == t[..i] + [t[i]];
    StageAfterSnoc(t[..i], t[i]);
  }

  /** The stages in which the model holds instance c. */
  predicate Holds(s: Stage, c: Handle) {
    s == Instantiated(c) || s == Initialized(c) || s == Faulted(c) || s == Terminated(c)
  }

  /** The model holds instance c only after instantiateSlave returned c. */
  lemma {:induction false} HeldOnlyAfterInstantiate(t: seq<Event>, c: Handle)
    requires Holds(StageAfter(t), c)
    ensures exists k :: 0 <= k < |t| && t[k] == Instantiate(Some(c))
    decreases |t|
  {
    var init := t[..|t| - 1];
    var e := t[|t| - 1];
    assert t == init + [e];
    if e == Instantiate(Some(c)) {
      assert t[|t| - 1] == e;
    } else {
      HeldOnlyAfterInstantiate(init, c);
      var k :| 0 <= k < |init| && init[k] == Instantiate(Some(c));
      assert t[k] == init[k];
    }
  }

  /** In a legal trace, every call on the model goes through a handle that
      an earlier instantiateSlave returned. */
  lemma HandleIssued(t: seq<Event>, i: nat)
    requires Legal(t) && i < |t| && OnInstance(t[i])
    ensures exists k :: 0 <= k < i && t[k] == Instantiate(Some(t[i].c))
  {
    LegalPrefix(t, i + 1);
    assert t[..i + 1] == t[..i] + [t[i]];
    StageAfterSnoc(t[..i], t[i]);
    HeldOnlyAfterInstantiate(t[..i], t[i].c);
    var k :| 0 <= k < i && t[..i][k] == Instantiate(Some(t[i].c));
  }

  /** An initialized instance c was returned by instantiateSlave and then
      initialized with a status no worse than a warning. */
  lemma {:induction false} InitializedOnlyAfterInit(t: seq<Event>, c: Handle)
    requires StageAfter(t) == Initialized(c)
    ensures exists j :: 0 <= j < |t| && t[j].Initialize? && t[j].c == c && !t[j].status.WorseThanWarning()
    ensures exists k :: 0 <= k < |t| && t[k] == Instantiate(Some(c))
    decreases |t|
  {
    var init := t[..|t| - 1];
    var e := t[|t| - 1];
    assert t == init + [e];
    HeldOnlyAfterInstantiate(t, c);
    if e.Initialize? && StageAfter(init) == Instantiated(c) {
      assert t[|t| - 1] == e;
    } else {
      InitializedOnlyAfterInit(init, c);
      var j :| 0 <= j < |init| && init[j].Initialize? && init[j].c == c && !init[j].status.WorseThanWarning();
      assert t[j] == init[j];
    }
  }

  /** After an fmiFatal answer a legal trace makes no call on the model,
      not even a new instantiateSlave. */
  lemma {:induction false} FatalIsFinal(t: seq<Event>, u: seq<Event>)
    requires StageAfter(t) == Lost && Legal(t + u)
    ensures forall k :: 0 <= k < |u| ==> Socket(u[k])
    decreases |u|
  {
    if u != [] {
      var init := u[..|u| - 1];
      assert t + u == (t + init) + [u[|u| - 1]];
      assert (t + u)[..|t + init|] == t + init;
      LegalPrefix(t + u, |t + init|);
      FatalIsFinal(t, init);
      SocketStage(t, init);
      StageAfterSnoc(t + init, u[|u| - 1]);
    }
  }

  /** After a failed doStep on instance c, the next call a legal trace
      makes on the model terminates or frees c. */
  lemma FaultedOnlyEnds(t: seq<Event>, u: seq<Event>, e: Event, c: Handle)
    requires StageAfter(t) == Faulted(c) && Legal(t + u + [e])
    requires forall k :: 0 <= k < |u| ==> Socket(u[k])
    ensures Socket(e) || e == Terminate(c) || e == Free(c)
  {
    SocketStage(t, u);
    StageAfterSnoc(t + u, e);
  }

  /** The outside world of one run. */
  class Host {
    /** The model's variables. */
    var store: Store
    /** How many doStep calls the model has answered. */
    var steps: nat
    /** The integer kept in the run-counter file. */
    var counter: int
    var connected: bool
    /** How many replies the server has sent. */
    var replies: nat
    ghost var trace: seq<Event>

    /** Whether connect() succeeds. */
    const connects: bool
    /** What instantiateSlave returns; None is a null instance. */
    const instance: Option<Handle>
    const initStatus: Status
    /** Status of the k-th doStep call. */
    const stepStatus: nat -> Status
    /** Values the model holds after its k-th step. */
    const stepStore: nat -> Store
    /** The k-th reply of the server. */
    const reply: nat -> string

    constructor (store0: Store, counter0: int, connects: bool, instance: Option<Handle>, initStatus: Status,
                 stepStatus: nat -> Status, stepStore: nat -> Store, reply: nat -> string)
      ensures store == store0 && counter == counter0 && steps == 0 && replies == 0
      ensures !connected && trace == []
      ensures this.connects == connects && this.instance == instance && this.initStatus == initStatus
      ensures this.stepStatus == stepStatus && this.stepStore == stepStore && this.reply == reply
    {
      store, counter, steps, replies := store0, counter0, 0, 0;
      connected, trace := false, [];
      this.connects, this.instance, this.initStatus := connects, instance, initStatus;
      this.stepStatus, this.stepStore, this.reply := stepStatus, stepStore, reply;
    }

    ghost method Record(e: Event)
      modifies this`trace
      ensures trace == old(trace) + [e]
      ensures StageAfter(trace) == Next(StageAfter(old(trace)), e)
    {
      StageAfterSnoc(trace, e);
      trace := trace + [e];
    }

    method ConnectSocket() returns (ok: bool)
      modifies this`connected, this`trace
      ensures ok == connects && connected == ok
      ensures trace == old(trace) + [Event.Connect] && StageAfter(trace) == StageAfter(old(trace))
    {
      ok := connects;
      connected := ok;
      Record(Event.Connect);
    }

    method CloseSocket()
      modifies this`connected, this`trace
      ensures !connected
      ensures trace == old(trace) + [Event.CloseSocket] && StageAfter(trace) == StageAfter(old(trace))
    {
      connected := false;
      Record(Event.CloseSocket);
    }

    method SendData(data: string)
      requires connected
      modifies this`trace
      ensures trace == old(trace) + [Event.Send(data)] && StageAfter(trace) == StageAfter(old(trace))
    {
      Record(Event.Send(data));
    }

    method ReceiveReply() returns (r: string)
      requires connected
      modifies this`replies, this`trace
      ensures r == reply(old(replies)) && replies == old(replies) + 1
      ensures trace == old(trace) + [Event.Receive(r)] && StageAfter(trace) == StageAfter(old(trace))
    {
      r := reply(replies);
      replies := replies + 1;
      Record(Event.Receive(r));
    }

    method ReadCounter() returns (n: int)
      ensures n == counter
    {
      n := counter;
    }

    method WriteCounter(n: int)
      modifies this`counter
      ensures counter == n
    {
      counter := n;
    }

    method InstantiateSlave() returns (c: Option<Handle>)
      modifies this`trace
      ensures c == instance
      ensures trace == old(trace) + [Event.Instantiate(c)]
      ensures StageAfter(trace) == Next(StageAfter(old(trace)), Event.Instantiate(c))
    {
      c := instance;
      Record(Event.Instantiate(c));
    }

    method InitializeSlave(c: Handle, tStart: real, tStop: real) returns (s: Status)
      modifies this`trace
      ensures s == initStatus
      ensures trace == old(trace) + [Event.Initialize(c, tStart, tStop, s)]
      ensures StageAfter(trace) == Next(StageAfter(old(trace)), Event.Initialize(c, tStart, tStop, s))
    {
      s := initStatus;
      Record(Event.Initialize(c, tStart, tStop, s));
    }

    method SetReal(c: Handle, vr: ValueRef, r: real)
      modifies this`store, this`trace
      ensures store == old(store).(reals := old(store).reals[vr := r])
      ensures trace == old(trace) + [Event.SetReal(c, vr, r)]
      ensures StageAfter(trace) == Next(StageAfter(old(trace)), Event.SetReal(c, vr, r))
    {
      store := store.(reals := store.reals[vr := r]);
      Record(Event.SetReal(c, vr, r));
    }

    method SetInteger(c: Handle, vr: ValueRef, i: int)
      modifies this`store, this`trace
      ensures store == old(store).(ints := old(store).ints[vr := i])
      ensures trace == old(trace) + [Event.SetInteger(c, vr, i)]
      ensures StageAfter(trace) == Next(StageAfter(old(trace)), Event.SetInteger(c, vr, i))
    {
      store := store.(ints := store.ints[vr := i]);
      Record(Event.SetInteger(c, vr, i));
    }

    method GetReal(c: Handle, vr: ValueRef) returns (r: real)
      modifies this`trace
      ensures r == store.Real(vr)
      ensures trace == old(trace) + [Event.GetReal(c, vr)]
      ensures StageAfter(trace) == Next(StageAfter(old(trace)), Event.GetReal(c, vr))
    {
      r := store.Real(vr);
      Record(Event.GetReal(c, vr));
    }

    method GetInteger(c: Handle, vr: ValueRef) returns (i: int)
      modifies this`trace
      ensures i == store.Int(vr)
      ensures trace == old(trace) + [Event.GetInteger(c, vr)]
      ensures StageAfter(trace) == Next(StageAfter(old(trace)), Event.GetInteger(c, vr))
    {
      i := store.Int(vr);
      Record(Event.GetInteger(c, vr));
    }

    method DoStep(c: Handle, time: real, step: real) returns (s: Status)
      modifies this`store, this`steps, this`trace
      ensures s == stepStatus(old(steps)) && store == stepStore(old(steps)) && steps == old(steps) + 1
      ensures trace == old(trace) + [Event.DoStep(c, time, step, s)]
      ensures StageAfter(trace) == Next(StageAfter(old(trace)), Event.DoStep(c, time, step, s))
    {
      s := stepStatus(steps);
      store := stepStore(steps);
      steps := steps + 1;
      Record(Event.DoStep(c, time, step, s));
    }

    method ResetSlave(c: Handle)
      modifies this`trace
      ensures trace == old(trace) + [Event.Reset(c)]
      ensures StageAfter(trace) == Next(StageAfter(old(trace)), Event.Reset(c))
    {
      Record(Event.Reset(c));
    }

    method TerminateSlave(c: Handle)
      modifies this`trace
      ensures trace == old(trace) + [Event.Terminate(c)]
      ensures StageAfter(trace) == Next(StageAfter(old(trace)), Event.Terminate(c))
    {
      Record(Event.Terminate(c));
    }

    method FreeSlaveInstance(c: Handle)
      modifies this`trace
      ensures trace == old(trace) + [Event.Free(c)]
      ensures StageAfter(trace) == Next(StageAfter(old(trace)), Event.Free(c))
    {
      Record(Event.Free(c));
    }
  }
}
