/**
  The digital-twin driver of main_v2.c: one FMU instance opened, initialized
  with a fresh run id, fed its inputs and stepped with a fixed step, each
  step's variables written to InfluxDB as one line-protocol batch whose
  acknowledgement must be 204. Any failure ends the process, which here is
  the terminal phase Failed.
 */
module TwinV2 {
  import opened Fmi
  import opened Text
  import opened Influx
  import opened Schedule
  import Env

  // ---------------------------------------------------------------------
  // Field names

  /** What one character of a variable name becomes in a field name. */
  function CleanChar(c: char): string
  {
    if c == ' ' then "" else if c == ',' then "." else [c]
  }

  function Occurrences(s: string, c: char): (n: nat)
    ensures n <= |s|
  {
    if s == [] then 0 else Occurrences(s[..|s| - 1], c) + (if s[|s| - 1] == c then 1 else 0)
  }

  /** The field name written for a variable name: spaces dropped, commas
      turned into periods, every other character kept in order. */
  function Sanitize(name: string): (r: string)
    ensures ' ' !in r && ',' !in r
    ensures |r| == |name| - Occurrences(name, ' ')
    decreases |name|
  {
    if name == [] then [] else Sanitize(name[..|name| - 1]) + CleanChar(name[|name| - 1])
  }

  lemma {:induction false} SanitizeAppend(a: string, b: string)
    ensures Sanitize(a + b) == Sanitize(a) + Sanitize(b)
    decreases |b|
  {
    if b == [] {
      assert a + b == a;
    } else {
      var init, last := b[..|b| - 1], b[|b| - 1];
      assert (a + b)[..|a + b| - 1] == a + init;
      assert Sanitize(a + b) == Sanitize(a + init) + CleanChar(last);
      SanitizeAppend(a, init);
      assert Sanitize(b) == Sanitize(init) + CleanChar(last);
    }
  }

  /** A name with no space and no comma is written unchanged. */
  lemma {:induction false} SanitizeKeepsClean(s: string)
    requires ' ' !in s && ',' !in s
    ensures Sanitize(s) == s
    decreases |s|
  {
    if s != [] {
      SanitizeKeepsClean(s[..|s| - 1]);
    }
  }

  lemma SanitizeIdempotent(s: string)
    ensures Sanitize(Sanitize(s)) == Sanitize(s)
  {
    SanitizeKeepsClean(Sanitize(s));
  }

  /** In a name without spaces, each character stays in place: a comma
      becomes a period and every other character is itself. */
  lemma {:induction false} SanitizeAt(s: string)
    requires ' ' !in s
    ensures |Sanitize(s)| == |s|
    ensures forall i :: 0 <= i < |s| ==> Sanitize(s)[i] == (if s[i] == ',' then '.' else s[i])
    decreases |s|
  {
    if s != [] {
      SanitizeAt(s[..|s| - 1]);
    }
  }

  /** The `while (*name)` loop that fills finalName[k]. */
  method CleanName(name: string) returns (finalName: string)
    ensures finalName == Sanitize(name)
  {
    var buf := new char[|name|];
    var k := 0;
    var i := 0;
    while i < |name|
      invariant 0 <= i <= |name|
      invariant k <= i
      invariant buf[..k] == Sanitize(name[..i])
    {
      assert name[..i + 1][..i] == name[..i];
      assert Sanitize(name[..i + 1]) == Sanitize(name[..i]) + CleanChar(name[i]);
      if name[i] != ' ' {
        ghost var written := buf[..k];
        buf[k] := if name[i] == ',' then '.' else name[i];
        assert buf[..k + 1] == written + [buf[k]];
        k := k + 1;
      }
      i := i + 1;
    }
    assert name[..i] == name;
    finalName := buf[..k];
  }

  // ---------------------------------------------------------------------
  // Measurement name

  /** The measurement: the last '/'-separated segment of the FMU path, as
      the strtok loop leaves it; None when the path has no segment. */
  function BaseName(path: string): (r: Option<string>)
    ensures r.Some? ==> r.value != [] && '/' !in r.value
    ensures r.None? <==> Tokens(path, '/') == []
  {
    var ts := Tokens(path, '/');
    if ts == [] then None else Some(ts[|ts| - 1])
  }

  /** A path with no '/' is used whole. */
  lemma BaseNameOfPlain(path: string)
    requires path != [] && '/' !in path
    ensures BaseName(path) == Some(path)
  {
    TokensOfPlain(path, '/');
  }

  /** Directories in front of a file name do not change the measurement. */
  lemma BaseNameOfNested(dir: string, file: string)
    requires BaseName(file).Some?
    ensures BaseName(dir + "/" + file) == BaseName(file)
  {
    TokensSplit(dir, file, '/');
    assert dir + "/" + file == dir + ['/'] + file;
  }

  /** A trailing '/' is ignored. */
  lemma BaseNameTrailingSlash(path: string)
    ensures BaseName(path + "/") == BaseName(path)
  {
    TokensSplit(path, [], '/');
    assert path + "/" == path + ['/'] + [];
  }

  function LastOr(fallback: Option<string>, ts: seq<string>): Option<string>
  {
    if ts == [] then fallback else Some(ts[|ts| - 1])
  }

  /** The strtok loop over the path. */
  method MeasurementName(path: string) returns (name: Option<string>)
    ensures name == BaseName(path)
  {
    name := None;
    var first := NextToken(path, '/');
    var token, rest := first.0, first.1;
    if token.Some? {
      assert LastOr(None, [token.value] + Tokens(rest, '/')) == LastOr(token, Tokens(rest, '/'));
    }
    while token.Some?
      invariant token.Some? ==> BaseName(path) == LastOr(token, Tokens(rest, '/'))
      invariant token.None? ==> BaseName(path) == name
      decreases if token.Some? then |rest| + 1 else 0
    {
      name := token;
      var next := NextToken(rest, '/');
      if next.0.Some? {
        assert LastOr(token, [next.0.value] + Tokens(next.1, '/')) == LastOr(next.0, Tokens(next.1, '/'));
      }
      token, rest := next.0, next.1;
    }
  }

  // ---------------------------------------------------------------------
  // Body of one batch

  /** The text written after "name=": `%.16g` for a Real, `%d` for an
      Integer, nothing for any other type. */
  function ValueText(v: ScalarVariable, s: Env.Store, p: Printf): string
  {
    match v.typ
    case Real => p.g16(s.Real(v.vr))
    case Integer => IntToDecimal(s.Int(v.vr))
    case _ => ""
  }

  function FieldText(v: ScalarVariable, s: Env.Store, p: Printf): string
  {
    Sanitize(v.name) + "=" + ValueText(v, s, p)
  }

  function FieldTexts(vars: seq<ScalarVariable>, s: Env.Store, p: Printf): (fs: seq<string>)
    ensures |fs| == |vars|
  {
    seq(|vars|, i requires 0 <= i < |vars| => FieldText(vars[i], s, p))
  }

  /** The calls that read one variable's value. */
  function ReadOf(c: Env.Handle, v: ScalarVariable): seq<Env.Event>
  {
    match v.typ
    case Real => [Env.GetReal(c, v.vr)]
    case Integer => [Env.GetInteger(c, v.vr)]
    case _ => []
  }

  function Reads(c: Env.Handle, vars: seq<ScalarVariable>): seq<Env.Event>
  {
    if vars == [] then [] else Reads(c, vars[..|vars| - 1]) + ReadOf(c, vars[|vars| - 1])
  }

  /** "<measurement>,global_id=<id> timestamp=<t>," */
  function Prefix(measurement: string, guid: int, stamp: string): string
  {
    measurement + ",global_id=" + IntToDecimal(guid) + " timestamp=" + stamp + ","
  }

  /** The body of one batch: the prefix, then a field for every set
      variable and then every get variable. */
  function Body(measurement: string, guid: int, stamp: string, setVars: seq<ScalarVariable>,
                getVars: seq<ScalarVariable>, s: Env.Store, p: Printf): string
  {
    Prefix(measurement, guid, stamp) + Line(FieldTexts(setVars + getVars, s, p))
  }

  /** The calls of one batch at time t after its doStep: read every set
      and get variable, send the header and the body, read the reply. */
  function BatchCalls(c: Env.Handle, cfg: Settings, guid: int, p: Printf, t: real, s: Env.Store, reply: string): seq<Env.Event>
    requires BaseName(cfg.fmuFileName).Some?
  {
    var body := Body(BaseName(cfg.fmuFileName).value, guid, p.g(t), cfg.setVars, cfg.getVars, s, p);
    Reads(c, cfg.setVars + cfg.getVars)
      + [Env.Send(Header(cfg.database, cfg.username, cfg.password, |body|)), Env.Send(body), Env.Receive(reply)]
  }

  lemma ReadsSnoc(c: Env.Handle, vars: seq<ScalarVariable>, i: nat)
    requires i < |vars|
    ensures Reads(c, vars[..i + 1]) == Reads(c, vars[..i]) + ReadOf(c, vars[i])
  {
    assert vars[..i + 1][..i] == vars[..i];
  }

  lemma EventsSnoc3(t: seq<Env.Event>, a: Env.Event, b: Env.Event, c: Env.Event)
    ensures t + [a] + [b] + [c] == t + [a, b, c]
  {
  }

  lemma FieldsAssoc(a: seq<string>, b: seq<string>, c: seq<string>)
    ensures a + b + c == a + (b + c)
  {
  }

  lemma FieldTextsSnoc(vars: seq<ScalarVariable>, i: nat, s: Env.Store, p: Printf)
    requires i < |vars|
    ensures FieldTexts(vars[..i + 1], s, p) == FieldTexts(vars[..i], s, p) + [FieldText(vars[i], s, p)]
  {
  }

  lemma {:induction false} FieldTextsAppend(a: seq<ScalarVariable>, b: seq<ScalarVariable>, s: Env.Store, p: Printf)
    ensures FieldTexts(a + b, s, p) == FieldTexts(a, s, p) + FieldTexts(b, s, p)
    decreases |b|
  {
    if b == [] {
      assert a + b == a;
    } else {
      assert (a + b)[..|a + b| - 1] == a + b[..|b| - 1];
      FieldTextsAppend(a, b[..|b| - 1], s, p);
    }
  }

  lemma {:induction false} ReadsAppend(c: Env.Handle, a: seq<ScalarVariable>, b: seq<ScalarVariable>)
    ensures Reads(c, a + b) == Reads(c, a) + Reads(c, b)
    decreases |b|
  {
    if b == [] {
      assert a + b == a;
    } else {
      assert (a + b)[..|a + b| - 1] == a + b[..|b| - 1];
      ReadsAppend(c, a, b[..|b| - 1]);
    }
  }

  /** With at least one variable, the body is the prefix, the fields joined
      by ',' and a final newline; with none it is the prefix alone, ending
      in ',' and holding no newline. */
  lemma BodyLayout(measurement: string, guid: int, stamp: string, setVars: seq<ScalarVariable>,
                   getVars: seq<ScalarVariable>, s: Env.Store, p: Printf)
    ensures var b := Body(measurement, guid, stamp, setVars, getVars, s, p);
      var fs := FieldTexts(setVars + getVars, s, p);
      (fs != [] ==> b == Prefix(measurement, guid, stamp) + Join(fs) + "\n") &&
      (fs == [] ==> b == Prefix(measurement, guid, stamp) && b[|b| - 1] == ',')
  {
    var fs := FieldTexts(setVars + getVars, s, p);
    if fs != [] {
      LineIsJoin(fs);
    }
  }

  /** A field never holds a comma when `%.16g` does not print one, so
      splitting the joined field set at ',' gives back exactly one
      "name=value" field per variable, in order. */
  lemma FieldsSplitBack(vars: seq<ScalarVariable>, s: Env.Store, p: Printf)
    requires forall r :: ',' !in p.g16(r)
    ensures Tokens(Join(FieldTexts(vars, s, p)), ',') == FieldTexts(vars, s, p)
  {
    var fs := FieldTexts(vars, s, p);
    forall k | 0 <= k < |fs|
      ensures fs[k] != [] && ',' !in fs[k]
    {
      FieldTextAt(vars, s, p, k);
      var v := vars[k];
      assert fs[k] == Sanitize(v.name) + "=" + ValueText(v, s, p);
      if v.typ == Integer {
        var t := IntToDecimal(s.Int(v.vr));
        assert forall j :: 0 <= j < |t| ==> t[j] != ',' by {
          forall j | 0 <= j < |t| ensures t[j] != ',' {
            if 0 < j { assert IsDigit(t[j]); }
          }
        }
      }
    }
    JoinSplitsBack(fs);
  }

  lemma {:induction false} FieldTextAt(vars: seq<ScalarVariable>, s: Env.Store, p: Printf, k: nat)
    requires k < |vars|
    ensures FieldTexts(vars, s, p)[k] == FieldText(vars[k], s, p)
    decreases |vars|
  {
    if k < |vars| - 1 {
      FieldTextAt(vars[..|vars| - 1], s, p, k);
    }
  }

  // ---------------------------------------------------------------------
  // Inputs and outputs

  /** One input assignment: setReal of the value for a Real variable,
      setInteger of the value truncated toward zero for an Integer one,
      nothing for other types. */
  function Apply(s: Env.Store, v: ScalarVariable, x: real): Env.Store
  {
    match v.typ
    case Real => s.(reals := s.reals[v.vr := x])
    case Integer => s.(ints := s.ints[v.vr := TruncateToInt(x)])
    case _ => s
  }

  function InputCall(c: Env.Handle, v: ScalarVariable, x: real): seq<Env.Event>
  {
    match v.typ
    case Real => [Env.SetReal(c, v.vr, x)]
    case Integer => [Env.SetInteger(c, v.vr, TruncateToInt(x))]
    case _ => []
  }

  function Inputs(s: Env.Store, vars: seq<ScalarVariable>, values: seq<real>): Env.Store
    requires |vars| == |values|
  {
    if vars == [] then s
    else Apply(Inputs(s, vars[..|vars| - 1], values[..|values| - 1]), vars[|vars| - 1], values[|values| - 1])
  }

  function InputCalls(c: Env.Handle, vars: seq<ScalarVariable>, values: seq<real>): seq<Env.Event>
    requires |vars| == |values|
  {
    if vars == [] then []
    else InputCalls(c, vars[..|vars| - 1], values[..|values| - 1]) + InputCall(c, vars[|vars| - 1], values[|values| - 1])
  }

  lemma InputsSnoc(s: Env.Store, c: Env.Handle, vars: seq<ScalarVariable>, values: seq<real>, i: nat)
    requires |vars| == |values| && i < |vars|
    ensures Inputs(s, vars[..i + 1], values[..i + 1]) == Apply(Inputs(s, vars[..i], values[..i]), vars[i], values[i])
    ensures InputCalls(c, vars[..i + 1], values[..i + 1]) == InputCalls(c, vars[..i], values[..i]) + InputCall(c, vars[i], values[i])
  {
    assert vars[..i + 1][..i] == vars[..i] && values[..i + 1][..i] == values[..i];
  }

  /** No later assignment targets the same variable. */
  ghost predicate LastAssignment(vars: seq<ScalarVariable>, i: nat)
    requires i < |vars|
  {
    forall j :: i < j < |vars| ==> vars[j].vr != vars[i].vr || vars[j].typ != vars[i].typ
  }

  /** Reading a variable back after the inputs are applied gives the value
      of its last assignment: the value itself for a Real, the value
      truncated toward zero for an Integer. */
  lemma {:induction false} InputsReadBack(s: Env.Store, vars: seq<ScalarVariable>, values: seq<real>, i: nat)
    requires |vars| == |values| && i < |vars| && LastAssignment(vars, i)
    ensures vars[i].typ == Real ==> Inputs(s, vars, values).Real(vars[i].vr) == values[i]
    ensures vars[i].typ == Integer ==> Inputs(s, vars, values).Int(vars[i].vr) == TruncateToInt(values[i])
    decreases |vars|
  {
    var n := |vars| - 1;
    if i < n {
      InputsReadBack(s, vars[..n], values[..n], i);
    }
  }

  /** The array TwinGetOutputs leaves: entry i is the Real or Integer value
      of get variable i, and entries of other types keep their old value. */
  function Outputs(out: seq<real>, vars: seq<ScalarVariable>, s: Env.Store): (r: seq<real>)
    requires |out| == |vars|
    ensures |r| == |out|
  {
    seq(|out|, i requires 0 <= i < |out| => OutputOf(out[i], vars[i], s))
  }

  /** One output slot after a fetch. */
  function OutputOf(old_: real, v: ScalarVariable, s: Env.Store): real
  {
    match v.typ
    case Real => s.Real(v.vr)
    case Integer => s.Int(v.vr) as real
    case _ => old_
  }

  /** Fetching outputs again replaces everything an earlier fetch wrote. */
  lemma OutputsOverwrite(out: seq<real>, vars: seq<ScalarVariable>, s1: Env.Store, s2: Env.Store)
    requires |out| == |vars|
    ensures Outputs(Outputs(out, vars, s1), vars, s2) == Outputs(out, vars, s2)
  {
  }

  // ---------------------------------------------------------------------
  // The twin

  /** Where a twin is in its life; Failed stands for the process exit
      that every failure leads to. */
  datatype Phase = Loaded | Instantiated | Initialized | Freed | Failed

  /** The run parameters of TwinModel. */
  datatype Settings = Settings(
    fmuFileName: string,
    tEnd: real,
    h: real,
    setVars: seq<ScalarVariable>,
    setValues: seq<real>,
    getVars: seq<ScalarVariable>,
    database: string,
    username: string,
    password: string)

  class Twin {
    var phase: Phase
    /** twin->c: the model instance, once instantiated and initialized. */
    var c: Option<Env.Handle>
    /** twin->guid: the run id. */
    var guid: int
    /** twin->output: one slot per get variable. */
    const output: array<real>
    /** Simulation times of the batches sent so far. */
    ghost var stamps: seq<real>
    const host: Env.Host
    const cfg: Settings
    const printf: Printf

    ghost predicate Valid()
      reads this`phase, this`c, host`trace, host`connected
    {
      && |cfg.setValues| == |cfg.setVars|
      && output.Length == |cfg.getVars|
      && Env.Legal(host.trace)
      && (phase == Loaded ==> Env.StageAfter(host.trace) == Env.NoInstance && c.None? && host.connected)
      && (phase == Instantiated ==> c.Some? && Env.StageAfter(host.trace) == Env.Instantiated(c.value) && host.connected)
      && (phase == Initialized ==> c.Some? && Env.StageAfter(host.trace) == Env.Initialized(c.value) && host.connected)
      && (phase == Freed ==> Env.StageAfter(host.trace) == Env.Freed && !host.connected)
    }

    /** A model instance is held and may be stepped, set and read. */
    ghost predicate Live()
      reads this`c, host`trace
    {
      c.Some? && Env.StageAfter(host.trace) == Env.Initialized(c.value)
    }

    /** TwinOpen: the FMU is loaded and the socket to InfluxDB connected;
        a failed connect ends the run. */
    constructor Open(host: Env.Host, cfg: Settings, printf: Printf, output: array<real>)
      requires host.trace == [] && !host.connected
      requires |cfg.setValues| == |cfg.setVars| && output.Length == |cfg.getVars|
      modifies host`connected, host`trace
      ensures Valid()
      ensures this.host == host && this.cfg == cfg && this.printf == printf && this.output == output
      ensures phase == (if host.connects then Loaded else Failed)
      ensures c.None? && stamps == []
      ensures host.trace == [Env.Connect]
    {
      this.host, this.cfg, this.printf, this.output := host, cfg, printf, output;
      c, guid, stamps := None, 0, [];
      new;
      var ok := host.ConnectSocket();
      assert host.trace == [Env.Connect];
      assert Env.StageAfter([Env.Connect]) == Env.NoInstance by {
        Env.StageAfterSnoc([], Env.Connect);
      }
      phase := if ok then Loaded else Failed;
    }

    /** TwinInitialize: bump the run counter, instantiate, initialize from
        0 to tEnd; a null instance or a status worse than a warning ends
        the run, and twin->c is set only when both succeed. */
    method Initialize()
      requires Valid() && phase == Loaded
      modifies this`phase, this`c, this`guid, host`trace, host`counter
      ensures Valid()
      ensures guid == old(host.counter) + 1 && host.counter == guid
      ensures phase == (if host.instance.Some? && !host.initStatus.WorseThanWarning() then Initialized else Failed)
      ensures c.Some? <==> phase == Initialized
      ensures phase == Initialized ==> c == host.instance
      ensures host.trace == old(host.trace) + [Env.Instantiate(host.instance)]
        + (if host.instance.Some? then [Env.Initialize(host.instance.value, 0.0, cfg.tEnd, host.initStatus)] else [])
      ensures Env.StageAfter(host.trace)
        == if host.instance.Some? then Env.InitOutcome(host.instance.value, host.initStatus) else Env.NoInstance
    {
      var n := host.ReadCounter();
      guid := n + 1;
      host.WriteCounter(guid);
      var inst := host.InstantiateSlave();
      if inst.None? {
        assert Env.StageAfter(host.trace) == Env.NoInstance;
        phase := Failed;
        return;
      }
      assert Env.StageAfter(host.trace) == Env.Instantiated(inst.value);
      var status := host.InitializeSlave(inst.value, 0.0, cfg.tEnd);
      assert Env.StageAfter(host.trace) == Env.InitOutcome(inst.value, status);
      if status.WorseThanWarning() {
        phase := Failed;
        return;
      }
      c := inst;
      phase := Initialized;
    }

    /** One input: setReal or setInteger with a single-element array. */
    method SetInput(v: ScalarVariable, x: real)
      requires Live()
      modifies host`store, host`trace
      ensures Live()
      ensures host.store == Apply(old(host.store), v, x)
      ensures host.trace == old(host.trace) + InputCall(c.value, v, x)
    {
      match v.typ {
        case Real =>
          host.SetReal(c.value, v.vr, x);
        case Integer =>
          host.SetInteger(c.value, v.vr, TruncateToInt(x));
        case _ =>
      }
    }

    /** TwinSetInputs: one set call per input, in order. */
    method SetInputs()
      requires Valid() && phase == Initialized
      modifies host`store, host`trace
      ensures Valid()
      ensures host.store == Inputs(old(host.store), cfg.setVars, cfg.setValues)
      ensures host.trace == old(host.trace) + InputCalls(c.value, cfg.setVars, cfg.setValues)
    {
      var vars, values := cfg.setVars, cfg.setValues;
      var i := 0;
      while i < |vars|
        invariant 0 <= i <= |vars|
        invariant Live()
        invariant host.store == Inputs(old(host.store), vars[..i], values[..i])
        invariant host.trace == old(host.trace) + InputCalls(c.value, vars[..i], values[..i])
      {
        InputsSnoc(old(host.store), c.value, vars, values, i);
        Env.EventsAssoc(old(host.trace), InputCalls(c.value, vars[..i], values[..i]), InputCall(c.value, vars[i], values[i]));
        SetInput(vars[i], values[i]);
        i := i + 1;
      }
      assert vars[..i] == vars && values[..i] == values;
    }

    /** One output slot: getReal or getInteger with a single-element array;
        other types leave the slot as it was. */
    method GetOutput(v: ScalarVariable, current: real) returns (x: real)
      requires Live()
      modifies host`trace
      ensures Live()
      ensures x == OutputOf(current, v, host.store)
      ensures host.trace == old(host.trace) + ReadOf(c.value, v)
    {
      x := current;
      match v.typ {
        case Real =>
          x := host.GetReal(c.value, v.vr);
        case Integer =>
          var n := host.GetInteger(c.value, v.vr);
          x := n as real;
        case _ =>
      }
    }

    /** One pass of the loop of TwinGetOutputs: output[i] is fetched. */
    method FetchAt(i: nat)
      requires Live() && i < output.Length == |cfg.getVars|
      modifies output, host`trace
      ensures Live()
      ensures output[..] == old(output[..])[i := OutputOf(old(output[i]), cfg.getVars[i], host.store)]
      ensures host.trace == old(host.trace) + ReadOf(c.value, cfg.getVars[i])
    {
      var x := GetOutput(cfg.getVars[i], output[i]);
      output[i] := x;
    }

    /** The loop of TwinGetOutputs: output[i] is overwritten in index
        order. */
    method FetchOutputs()
      requires Live() && output.Length == |cfg.getVars|
      modifies output, host`trace
      ensures Live()
      ensures output[..] == Outputs(old(output[..]), cfg.getVars, host.store)
      ensures host.trace == old(host.trace) + Reads(c.value, cfg.getVars)
    {
      var vars := cfg.getVars;
      ghost var out0 := output[..];
      ghost var want := Outputs(out0, vars, host.store);
      var i := 0;
      while i < |vars|
        invariant 0 <= i <= |vars|
        invariant Live() && want == Outputs(out0, vars, host.store)
        invariant output[..] == want[..i] + out0[i..]
        invariant host.trace == old(host.trace) + Reads(c.value, vars[..i])
      {
        ReadsSnoc(c.value, vars, i);
        Env.EventsAssoc(old(host.trace), Reads(c.value, vars[..i]), ReadOf(c.value, vars[i]));
        Env.Splice(want, out0, i);
        FetchAt(i);
        i := i + 1;
      }
      assert vars[..i] == vars;
      assert want[..i] + out0[i..] == want;
    }

    /** TwinGetOutputs: every get variable's value fetched into output. */
    method GetOutputs()
      requires Valid() && phase == Initialized
      modifies output, host`trace
      ensures Valid()
      ensures output[..] == Outputs(old(output[..]), cfg.getVars, host.store)
      ensures host.trace == old(host.trace) + Reads(c.value, cfg.getVars)
    {
      FetchOutputs();
    }

    /** One "name=value" field, reading the value from the model. */
    method ReadField(v: ScalarVariable) returns (f: string)
      requires Live()
      modifies host`trace
      ensures Live()
      ensures f == FieldText(v, host.store, printf)
      ensures host.trace == old(host.trace) + ReadOf(c.value, v)
    {
      var name := CleanName(v.name);
      f := name + "=";
      match v.typ {
        case Real =>
          var x := host.GetReal(c.value, v.vr);
          f := f + printf.g16(x);
        case Integer =>
          var x := host.GetInteger(c.value, v.vr);
          f := f + IntToDecimal(x);
        case _ =>
          assert ValueText(v, host.store, printf) == "";
      }
    }

    /** One pass of a field loop: read the variable, append its field and
        then ',' or, for the last field of the batch, a newline. */
    method AppendField(v: ScalarVariable, last: bool, ghost head: string, ghost fs: seq<string>, body0: string)
      returns (body: string)
      requires Live()
      requires body0 == head + Influx.Open(fs)
      modifies host`trace
      ensures Live()
      ensures host.trace == old(host.trace) + ReadOf(c.value, v)
      ensures last ==> body == head + Line(fs + [FieldText(v, host.store, printf)])
      ensures !last ==> body == head + Influx.Open(fs + [FieldText(v, host.store, printf)])
    {
      var f := ReadField(v);
      OpenLineSnoc(fs, f);
      var sep := if last then "\n" else ",";
      body := body0 + f + sep;
      TextAssoc(head, Influx.Open(fs), f, sep);
    }

    /** The field loops of the batch. The source writes the set variables
        and then the get variables in two loops, each field followed by ','
        except the last field of the batch, which is followed by a newline;
        together they are this one pass over both lists. */
    method AppendFields(vars: seq<ScalarVariable>, body0: string) returns (body: string)
      requires Live()
      modifies host`trace
      ensures Live()
      ensures host.trace == old(host.trace) + Reads(c.value, vars)
      ensures body == body0 + Line(FieldTexts(vars, host.store, printf))
    {
      ghost var store := host.store;
      ghost var fs: seq<string> := [];
      body := body0;
      assert body0 + Influx.Open([]) == body0;
      var i := 0;
      while i < |vars|
        invariant 0 <= i <= |vars|
        invariant Live() && host.store == store
        invariant host.trace == old(host.trace) + Reads(c.value, vars[..i])
        invariant fs == FieldTexts(vars[..i], store, printf)
        invariant i < |vars| || i == 0 ==> body == body0 + Influx.Open(fs)
        invariant i == |vars| && i != 0 ==> body == body0 + Line(fs)
      {
        ReadsSnoc(c.value, vars, i);
        Env.EventsAssoc(old(host.trace), Reads(c.value, vars[..i]), ReadOf(c.value, vars[i]));
        FieldTextsSnoc(vars, i, store, printf);
        body := AppendField(vars[i], i == |vars| - 1, body0, fs, body);
        fs := fs + [FieldText(vars[i], store, printf)];
        i := i + 1;
      }
      assert vars[..i] == vars;
      if vars == [] {
        assert Line(fs) == "" && Influx.Open(fs) == "";
      }
    }

    /** The body of one batch, reading every set and get variable. */
    method BuildBody(t: real) returns (body: string)
      requires Valid() && phase == Initialized && BaseName(cfg.fmuFileName).Some?
      modifies host`trace
      ensures Valid()
      ensures body == Body(BaseName(cfg.fmuFileName).value, guid, printf.g(t), cfg.setVars, cfg.getVars, host.store, printf)
      ensures host.trace == old(host.trace) + Reads(c.value, cfg.setVars + cfg.getVars)
    {
      var measurement := MeasurementName(cfg.fmuFileName);
      var pre := Prefix(measurement.value, guid, printf.g(t));
      body := AppendFields(cfg.setVars + cfg.getVars, pre);
    }

    /** Send the header and the body, then read the reply and accept it
        only when its status token is 204. */
    method Exchange(body: string) returns (ok: bool, header: string)
      requires Valid() && phase == Initialized
      modifies host`trace, host`replies
      ensures Valid()
      ensures header == Header(cfg.database, cfg.username, cfg.password, |body|)
      ensures host.replies == old(host.replies) + 1
      ensures ok == Accepted(host.reply(old(host.replies)))
      ensures host.trace == old(host.trace) + [Env.Send(header), Env.Send(body), Env.Receive(host.reply(old(host.replies)))]
    {
      header := Header(cfg.database, cfg.username, cfg.password, |body|);
      host.SendData(header);
      host.SendData(body);
      var reply := host.ReceiveReply();
      EventsSnoc3(old(host.trace), Env.Send(header), Env.Send(body), Env.Receive(reply));
      ok := Accepted(reply);
    }

    /** One batch: build the body, send it with its header and check the
        reply; a rejected write ends the run. The ghost r counts the
        writes made before. */
    method Publish(t: real, ghost r: nat) returns (ok: bool, header: string, body: string)
      requires Valid() && phase == Initialized && BaseName(cfg.fmuFileName).Some? && host.replies == r
      modifies this`phase, this`stamps, host`trace, host`replies
      ensures Valid()
      ensures body == Body(BaseName(cfg.fmuFileName).value, guid, printf.g(t), cfg.setVars, cfg.getVars, host.store, printf)
      ensures header == Header(cfg.database, cfg.username, cfg.password, |body|)
      ensures host.replies == r + 1
      ensures ok == Accepted(host.reply(r))
      ensures phase == (if ok then Initialized else Failed)
      ensures host.trace == old(host.trace) + Reads(c.value, cfg.setVars + cfg.getVars)
        + [Env.Send(header), Env.Send(body), Env.Receive(host.reply(r))]
      ensures stamps == old(stamps) + [t]
    {
      body := BuildBody(t);
      ok, header := Exchange(body);
      if !ok {
        phase := Failed;
      }
      stamps := stamps + [t];
    }

    /** One fixed step from `time` followed by the batch at the time
        reached; a step whose status is not OK ends the run, leaving the
        instance where that status puts it. The ghost k and r count the
        doSteps and the writes made before. */
    method Advance(time: real, ghost k: nat, ghost r: nat) returns (next: real)
      requires Valid() && phase == Initialized && BaseName(cfg.fmuFileName).Some?
      requires host.steps == k && host.replies == r
      modifies this`phase, this`stamps, host`trace, host`replies, host`store, host`steps
      ensures Valid() && (phase == Initialized || phase == Failed)
      ensures next == time + Clamp(cfg.h, cfg.tEnd, time)
      ensures host.steps == k + 1 && host.store == host.stepStore(k)
      ensures host.stepStatus(k) != OK ==>
        && phase == Failed && stamps == old(stamps) && host.replies == r
        && host.trace == old(host.trace) + [Env.DoStep(c.value, time, Clamp(cfg.h, cfg.tEnd, time), host.stepStatus(k))]
        && Env.StageAfter(host.trace) == Env.StepOutcome(c.value, host.stepStatus(k))
      ensures host.stepStatus(k) == OK ==>
        && stamps == old(stamps) + [next]
        && host.replies == r + 1
        && (phase == Initialized <==> Accepted(host.reply(r)))
        && host.trace == old(host.trace) + [Env.DoStep(c.value, time, Clamp(cfg.h, cfg.tEnd, time), OK)]
                         + BatchCalls(c.value, cfg, guid, printf, next, host.store, host.reply(r))
    {
      var hh := Clamp(cfg.h, cfg.tEnd, time);
      var status := host.DoStep(c.value, time, hh);
      next := time + hh;
      if status != OK {
        phase := Failed;
        return;
      }
      ghost var t1 := host.trace;
      var ok, header, body := Publish(next, r);
      Env.EventsAssoc(t1, Reads(c.value, cfg.setVars + cfg.getVars),
                      [Env.Send(header), Env.Send(body), Env.Receive(host.reply(r))]);
    }

    /** TwinSimulationByStep: at time 0 the initial values are written
        first; then one step and its batch. Returns the time reached. It
        fails exactly when the step or one of its writes does. */
    method SimulationByStep(time: real) returns (next: real)
      requires Valid() && phase == Initialized && BaseName(cfg.fmuFileName).Some?
      modifies this`phase, this`stamps, host`trace, host`replies, host`store, host`steps
      ensures Valid() && (phase == Initialized || phase == Failed)
      ensures phase == Initialized <==> Succeeds(host, old(host.steps), 1, old(host.replies), if time == 0.0 then 2 else 1)
      ensures phase == Initialized ==> next == time + Clamp(cfg.h, cfg.tEnd, time)
      ensures phase == Initialized ==> stamps == old(stamps) + (if time == 0.0 then [0.0] else []) + [next]
      ensures phase == Initialized ==> host.steps == old(host.steps) + 1
      ensures phase == Initialized ==> host.store == host.stepStore(old(host.steps))
      ensures phase == Initialized ==> host.replies == old(host.replies) + (if time == 0.0 then 2 else 1)
      ensures host.steps <= old(host.steps) + 1
    {
      ghost var steps0, replies0 := host.steps, host.replies;
      ghost var r := if time == 0.0 then 2 else 1;
      next := time;
      if time == 0.0 {
        var ok, header, body := Publish(0.0, replies0);
        AcceptedOne(host, replies0, host.replies);
        if !ok {
          SucceedsLast(host, steps0, replies0, r, host.replies);
          return;
        }
      }
      SucceedsLast(host, steps0, replies0, r, host.replies);
      next := Advance(time, steps0, host.replies);
    }

    /** TwinSimulation: the whole run in one call, the initial batch at
        time 0 and then one step and batch per grid time up to tEnd. It
        completes exactly when every step answers fmiOK and every write is
        accepted. */
    method Simulation()
      requires Valid() && phase == Initialized && BaseName(cfg.fmuFileName).Some? && 0.0 < cfg.h
      modifies this`phase, this`stamps, host`trace, host`replies, host`store, host`steps
      ensures Valid() && (phase == Initialized || phase == Failed)
      ensures phase == Initialized <==>
        Succeeds(host, old(host.steps), StepCount(0.0, cfg.tEnd, cfg.h), old(host.replies), StepCount(0.0, cfg.tEnd, cfg.h) + 1)
      ensures phase == Initialized ==> stamps == old(stamps) + [0.0] + Grid(0.0, cfg.tEnd, cfg.h)
      ensures phase == Initialized ==> host.steps == old(host.steps) + StepCount(0.0, cfg.tEnd, cfg.h)
    {
      ghost var s0 := stamps + [0.0] + Grid(0.0, cfg.tEnd, cfg.h);
      ghost var steps0, replies0 := host.steps, host.replies;
      ghost var n := StepCount(0.0, cfg.tEnd, cfg.h);
      var ok, header, body := Publish(0.0, replies0);
      if !ok {
        Rejected(host, steps0, n, replies0, n + 1, replies0);
        return;
      }
      var time := 0.0;
      ghost var i := 0;
      AcceptedOne(host, replies0, replies0 + 1 + i);
      while time < cfg.tEnd
        invariant Valid() && phase == Initialized
        invariant s0 == stamps + Grid(time, cfg.tEnd, cfg.h)
        invariant i + StepCount(time, cfg.tEnd, cfg.h) == n
        invariant host.steps == steps0 + i && host.replies == replies0 + 1 + i
        invariant StepsOK(host, steps0, steps0 + i) && RepliesAccepted(host, replies0, replies0 + 1 + i)
        decreases StepCount(time, cfg.tEnd, cfg.h)
      {
        var next := Pass(time, i, steps0, replies0, n, s0);
        if phase == Failed {
          return;
        }
        time := next;
        i := i + 1;
      }
      assert StepCount(time, cfg.tEnd, cfg.h) == 0;
      PassesSucceed(host, steps0, n, replies0, i);
    }

    /** One pass of TwinSimulation's loop: a step and its batch. The
        pass keeps the loop's bookkeeping (the times stamped so far, the
        steps left, the calls answered fmiOK and the writes accepted), or
        the twin fails and then the run as a whole does not succeed. */
    method Pass(time: real, ghost i: nat, ghost steps0: nat, ghost replies0: nat, ghost n: nat, ghost s0: seq<real>)
      returns (next: real)
      requires Valid() && phase == Initialized && BaseName(cfg.fmuFileName).Some? && 0.0 < cfg.h && time < cfg.tEnd
      requires s0 == stamps + Grid(time, cfg.tEnd, cfg.h) && i + StepCount(time, cfg.tEnd, cfg.h) == n
      requires host.steps == steps0 + i && host.replies == replies0 + 1 + i
      requires StepsOK(host, steps0, steps0 + i) && RepliesAccepted(host, replies0, replies0 + 1 + i)
      modifies this`phase, this`stamps, host`trace, host`replies, host`store, host`steps
      ensures Valid() && (phase == Initialized || phase == Failed)
      ensures StepCount(next, cfg.tEnd, cfg.h) < StepCount(time, cfg.tEnd, cfg.h)
      ensures phase == Failed ==> !Succeeds(host, steps0, n, replies0, n + 1)
      ensures phase == Initialized ==>
        && s0 == stamps + Grid(next, cfg.tEnd, cfg.h) && i + 1 + StepCount(next, cfg.tEnd, cfg.h) == n
        && host.steps == steps0 + (i + 1) && host.replies == replies0 + 1 + (i + 1)
        && StepsOK(host, steps0, steps0 + (i + 1)) && RepliesAccepted(host, replies0, replies0 + 1 + (i + 1))
    {
      GridUnfold(time, cfg.tEnd, cfg.h);
      PassVerdict(host, steps0, i, replies0, n);
      ghost var before := stamps;
      next := Advance(time, steps0 + i, replies0 + 1 + i);
      GridStep(s0, before, time, next, cfg.tEnd, cfg.h);
    }

    /** TwinReset: the instance goes back to its instantiated state. */
    method Reset()
      requires Valid() && phase == Initialized
      modifies this`phase, host`trace
      ensures Valid() && phase == Instantiated
      ensures host.trace == old(host.trace) + [Env.Reset(c.value)]
    {
      host.ResetSlave(c.value);
      phase := Instantiated;
    }

    /** TwinClose: terminate and free the instance, then close the socket. */
    method Close()
      requires Valid() && (phase == Initialized || phase == Instantiated)
      modifies this`phase, host`trace, host`connected
      ensures Valid() && phase == Freed
      ensures host.trace == old(host.trace) + [Env.Terminate(c.value), Env.Free(c.value), Env.CloseSocket]
    {
      host.TerminateSlave(c.value);
      host.FreeSlaveInstance(c.value);
      host.CloseSocket();
      EventsSnoc3(old(host.trace), Env.Terminate(c.value), Env.Free(c.value), Env.CloseSocket);
      phase := Freed;
    }
  }

  /** doStep calls a to b - 1 all answer fmiOK. */
  predicate StepsOK(host: Env.Host, a: nat, b: nat) {
    forall k :: a <= k < b ==> host.stepStatus(k) == OK
  }

  /** The server answers 204 to writes a to b - 1. */
  predicate RepliesAccepted(host: Env.Host, a: nat, b: nat) {
    forall k :: a <= k < b ==> Accepted(host.reply(k))
  }

  /** The n doSteps from step steps0 all answer fmiOK and the r writes
      from reply replies0 are all accepted. */
  predicate Succeeds(host: Env.Host, steps0: nat, n: nat, replies0: nat, r: nat) {
    StepsOK(host, steps0, steps0 + n) && RepliesAccepted(host, replies0, replies0 + r)
  }

  /** One step and the r writes up to it succeed exactly when the step
      answers fmiOK and the writes before the last and the last are
      accepted. */
  lemma SucceedsLast(host: Env.Host, steps0: nat, replies0: nat, r: nat, last: nat)
    requires 1 <= r && last == replies0 + r - 1
    ensures Succeeds(host, steps0, 1, replies0, r) <==>
      && host.stepStatus(steps0) == OK
      && RepliesAccepted(host, replies0, last)
      && Accepted(host.reply(last))
  {
  }

  /** A rejected write inside the range rules out a run in which all
      of them succeed. */
  lemma Rejected(host: Env.Host, steps0: nat, n: nat, replies0: nat, r: nat, k: nat)
    requires replies0 <= k < replies0 + r && !Accepted(host.reply(k))
    ensures !Succeeds(host, steps0, n, replies0, r)
  {
  }

  lemma AcceptedOne(host: Env.Host, a: nat, b: nat)
    requires b == a + 1
    ensures RepliesAccepted(host, a, b) <==> Accepted(host.reply(a))
  {
  }

  /** A failed step or a rejected write inside the ranges rules out a
      run in which all of them succeed. */
  /** The verdict of one pass of the loop: the step and its write succeed
      and the run so far extends by one pass, or the run as a whole fails. */
  lemma PassVerdict(host: Env.Host, steps0: nat, i: nat, replies0: nat, n: nat)
    requires i < n
    requires StepsOK(host, steps0, steps0 + i) && RepliesAccepted(host, replies0, replies0 + 1 + i)
    ensures host.stepStatus(steps0 + i) == OK && Accepted(host.reply(replies0 + 1 + i)) ==>
      StepsOK(host, steps0, steps0 + (i + 1)) && RepliesAccepted(host, replies0, replies0 + 1 + (i + 1))
    ensures host.stepStatus(steps0 + i) != OK || !Accepted(host.reply(replies0 + 1 + i)) ==>
      !Succeeds(host, steps0, n, replies0, n + 1)
  {
  }

  /** After the last pass of the loop, the whole run has succeeded. */
  lemma PassesSucceed(host: Env.Host, steps0: nat, n: nat, replies0: nat, i: nat)
    requires i == n && StepsOK(host, steps0, steps0 + i) && RepliesAccepted(host, replies0, replies0 + 1 + i)
    ensures Succeeds(host, steps0, n, replies0, n + 1)
  {
  }

  lemma FailureInRange(host: Env.Host, steps0: nat, n: nat, replies0: nat, r: nat, steps: nat, replies: nat, w: nat)
    requires steps0 <= steps < steps0 + n && replies0 <= replies && replies + w <= replies0 + r
    requires !Succeeds(host, steps, 1, replies, w)
    ensures !Succeeds(host, steps0, n, replies0, r)
  {
  }

  /** Successes so far, extended by one more step and the writes after it. */
  lemma SuccessExtends(host: Env.Host, steps0: nat, steps: nat, replies0: nat, replies: nat, w: nat)
    requires steps0 <= steps && replies0 <= replies
    requires StepsOK(host, steps0, steps) && RepliesAccepted(host, replies0, replies)
    requires host.stepStatus(steps) == OK && RepliesAccepted(host, replies, replies + w)
    ensures StepsOK(host, steps0, steps + 1) && RepliesAccepted(host, replies0, replies + w)
  {
  }

  /** What the driver's loop looks at in a twin: the batch times written,
      the output array, the model's values and the step and reply counts. */
  datatype Mark = Mark(stamps: seq<real>, output: seq<real>, store: Env.Store, steps: nat, replies: nat)

  ghost function MarkOf(twin: Twin): Mark
    reads twin, twin.host, twin.output
  {
    Mark(twin.stamps, twin.output[..], twin.host.store, twin.host.steps, twin.host.replies)
  }

  /** Where the driver's loop stands at `time`, against the mark `start`
      it began from: its counts and what it has written. */
  ghost predicate Progress(host: Env.Host, cfg: Settings, time: real, start: Mark, now: Mark)
    requires 0.0 < cfg.h
  {
    Counted(host, cfg, time, start, now) && Written(cfg, time, start, now)
  }

  /** The steps taken and the steps left add up to the whole grid; before
      the first pass nothing is written, and after it one batch more than
      steps, every step answered fmiOK and every write accepted. */
  ghost predicate Counted(host: Env.Host, cfg: Settings, time: real, start: Mark, now: Mark)
    requires 0.0 < cfg.h
  {
    && 0.0 <= time
    && start.steps + StepCount(0.0, cfg.tEnd, cfg.h) == now.steps + StepCount(time, cfg.tEnd, cfg.h)
    && start.steps <= now.steps
    && now.replies == start.replies + (if time == 0.0 then 0 else 1 + (now.steps - start.steps))
    && StepsOK(host, start.steps, now.steps) && RepliesAccepted(host, start.replies, now.replies)
  }

  /** Before the first pass the batch times and the outputs are as the
      loop found them; after it the batch times followed by the grid still
      ahead are the whole run's, and the outputs hold the values the last
      step left. */
  ghost predicate Written(cfg: Settings, time: real, start: Mark, now: Mark)
    requires 0.0 < cfg.h
  {
    && |start.output| == |cfg.getVars|
    && (time == 0.0 ==> now.stamps == start.stamps && now.output == start.output)
    && (time != 0.0 ==> 0.0 < cfg.tEnd && now.stamps + Grid(time, cfg.tEnd, cfg.h) == start.stamps + ([0.0] + Grid(0.0, cfg.tEnd, cfg.h)))
    && (time != 0.0 ==> now.output == Outputs(start.output, cfg.getVars, now.store))
  }

  /** A round whose step and writes all succeed keeps the loop's progress
      at the time it reaches. */
  lemma ProgressStep(host: Env.Host, cfg: Settings, time: real, start: Mark, now: Mark, after: Mark)
    requires 0.0 < cfg.h && time < cfg.tEnd && Progress(host, cfg, time, start, now)
    requires after.steps == now.steps + 1 && StepsOK(host, now.steps, after.steps)
    requires after.replies == now.replies + (if time == 0.0 then 2 else 1) && RepliesAccepted(host, now.replies, after.replies)
    requires after.stamps == now.stamps + (if time == 0.0 then [0.0] else []) + [time + Clamp(cfg.h, cfg.tEnd, time)]
    requires after.output == Outputs(now.output, cfg.getVars, after.store)
    ensures Progress(host, cfg, time + Clamp(cfg.h, cfg.tEnd, time), start, after)
  {
    CountedStep(host, cfg, time, start, now, after);
    WrittenStep(cfg, time, start, now, after);
  }

  lemma CountedStep(host: Env.Host, cfg: Settings, time: real, start: Mark, now: Mark, after: Mark)
    requires 0.0 < cfg.h && time < cfg.tEnd && Counted(host, cfg, time, start, now)
    requires after.steps == now.steps + 1 && StepsOK(host, now.steps, after.steps)
    requires after.replies == now.replies + (if time == 0.0 then 2 else 1) && RepliesAccepted(host, now.replies, after.replies)
    ensures Counted(host, cfg, time + Clamp(cfg.h, cfg.tEnd, time), start, after)
  {
    GridUnfold(time, cfg.tEnd, cfg.h);
    SuccessExtends(host, start.steps, now.steps, start.replies, now.replies, if time == 0.0 then 2 else 1);
  }

  lemma WrittenStep(cfg: Settings, time: real, start: Mark, now: Mark, after: Mark)
    requires 0.0 < cfg.h && 0.0 <= time < cfg.tEnd && Written(cfg, time, start, now)
    requires after.stamps == now.stamps + (if time == 0.0 then [0.0] else []) + [time + Clamp(cfg.h, cfg.tEnd, time)]
    requires after.output == Outputs(now.output, cfg.getVars, after.store)
    ensures Written(cfg, time + Clamp(cfg.h, cfg.tEnd, time), start, after)
  {
    StampsStep(start.stamps, now.stamps, time, cfg.tEnd, cfg.h);
    if time != 0.0 {
      OutputsOverwrite(start.output, cfg.getVars, now.store, after.store);
    }
  }

  /** The batch times of one more round, followed by the grid still
      ahead, are still the whole run's. */
  lemma StampsStep(s0: seq<real>, stamps: seq<real>, time: real, tEnd: real, h: real)
    requires 0.0 < h && 0.0 <= time < tEnd
    requires time == 0.0 ==> stamps == s0
    requires time != 0.0 ==> stamps + Grid(time, tEnd, h) == s0 + ([0.0] + Grid(0.0, tEnd, h))
    ensures var next := time + Clamp(h, tEnd, time);
      stamps + (if time == 0.0 then [0.0] else []) + [next] + Grid(next, tEnd, h) == s0 + ([0.0] + Grid(0.0, tEnd, h))
  {
    var next := time + Clamp(h, tEnd, time);
    GridUnfold(time, tEnd, h);
    TimesAssoc(stamps + (if time == 0.0 then [0.0] else []), next, Grid(next, tEnd, h));
    if time == 0.0 {
      TimesAssoc(s0, 0.0, Grid(0.0, tEnd, h));
    }
  }

  /** A round whose step or one of whose writes fails rules out a run in
      which every step and every write succeeds. */
  lemma ProgressFails(host: Env.Host, cfg: Settings, time: real, start: Mark, now: Mark)
    requires 0.0 < cfg.h && time < cfg.tEnd && Progress(host, cfg, time, start, now)
    requires !Succeeds(host, now.steps, 1, now.replies, if time == 0.0 then 2 else 1)
    ensures !AllSucceed(host, cfg, start.steps, start.replies)
  {
    GridUnfold(time, cfg.tEnd, cfg.h);
    FailureInRange(host, start.steps, StepCount(0.0, cfg.tEnd, cfg.h), start.replies, Writes(cfg.tEnd, cfg.h),
                   now.steps, now.replies, if time == 0.0 then 2 else 1);
  }

  /** When the loop ends, every grid step has been taken and every batch
      written, all of them successfully. */
  lemma ProgressDone(host: Env.Host, cfg: Settings, time: real, start: Mark, now: Mark)
    requires 0.0 < cfg.h && cfg.tEnd <= time && Progress(host, cfg, time, start, now)
    ensures now.steps == start.steps + StepCount(0.0, cfg.tEnd, cfg.h)
    ensures now.replies == start.replies + Writes(cfg.tEnd, cfg.h)
    ensures AllSucceed(host, cfg, start.steps, start.replies)
    ensures now.stamps == start.stamps + (if 0.0 < cfg.tEnd then [0.0] + Grid(0.0, cfg.tEnd, cfg.h) else [])
    ensures 0.0 < cfg.tEnd ==> now.output == Outputs(start.output, cfg.getVars, now.store)
  {
    assert StepCount(time, cfg.tEnd, cfg.h) == 0;
    if time == 0.0 {
      assert now.stamps + [] == now.stamps;
    } else {
      assert now.stamps + [] == now.stamps;
    }
  }

  /** One round of the driver's loop: a step with its batch, then the
      outputs fetched into the twin's output array. It fails exactly when
      its step or one of its writes does; otherwise the batches are
      stamped with the time reached and the outputs hold the values the
      step left. */
  method Round(twin: Twin, time: real) returns (next: real)
    requires twin.Valid() && twin.phase == Initialized && BaseName(twin.cfg.fmuFileName).Some?
    modifies twin`phase, twin`stamps, twin.host`trace, twin.host`replies, twin.host`store, twin.host`steps, twin.output
    ensures twin.Valid() && (twin.phase == Initialized || twin.phase == Failed)
    ensures twin.phase == Initialized <==>
      Succeeds(twin.host, old(twin.host.steps), 1, old(twin.host.replies), if time == 0.0 then 2 else 1)
    ensures twin.phase == Initialized ==>
      && next == time + Clamp(twin.cfg.h, twin.cfg.tEnd, time)
      && twin.host.steps == old(twin.host.steps) + 1
      && twin.host.replies == old(twin.host.replies) + (if time == 0.0 then 2 else 1)
      && twin.stamps == old(twin.stamps) + (if time == 0.0 then [0.0] else []) + [next]
      && twin.output[..] == Outputs(old(twin.output[..]), twin.cfg.getVars, twin.host.store)
  {
    next := twin.SimulationByStep(time);
    if twin.phase == Initialized {
      twin.GetOutputs();
    }
  }

  /** The driver's loop: step and fetch the outputs while time < tEnd. It
      leaves the instance initialized exactly when every step answers
      fmiOK and every write is accepted. */
  method Drive(twin: Twin)
    requires twin.Valid() && twin.phase == Initialized && BaseName(twin.cfg.fmuFileName).Some? && 0.0 < twin.cfg.h
    modifies twin`phase, twin`stamps, twin.host`trace, twin.host`replies, twin.host`store, twin.host`steps, twin.output
    ensures twin.Valid() && (twin.phase == Initialized || twin.phase == Failed)
    ensures twin.phase == Initialized <==> AllSucceed(twin.host, twin.cfg, old(twin.host.steps), old(twin.host.replies))
    ensures twin.phase == Initialized ==>
      twin.stamps == old(twin.stamps) + (if 0.0 < twin.cfg.tEnd then [0.0] + Grid(0.0, twin.cfg.tEnd, twin.cfg.h) else [])
    ensures twin.phase == Initialized && 0.0 < twin.cfg.tEnd ==>
      twin.output[..] == Outputs(old(twin.output[..]), twin.cfg.getVars, twin.host.store)
  {
    ghost var start := MarkOf(twin);
    var time := 0.0;
    while time < twin.cfg.tEnd
      invariant twin.Valid() && twin.phase == Initialized
      invariant Progress(twin.host, twin.cfg, time, start, MarkOf(twin))
      decreases StepCount(time, twin.cfg.tEnd, twin.cfg.h)
    {
      ghost var now := MarkOf(twin);
      var next := Round(twin, time);
      if twin.phase == Failed {
        ProgressFails(twin.host, twin.cfg, time, start, now);
        return;
      }
      ProgressStep(twin.host, twin.cfg, time, start, now, MarkOf(twin));
      GridUnfold(time, twin.cfg.tEnd, twin.cfg.h);
      time := next;
    }
    ProgressDone(twin.host, twin.cfg, time, start, MarkOf(twin));
  }

  /** Every doStep of a whole run, counted from step steps0, answers fmiOK
      and every write of it, counted from reply replies0, is accepted. */
  predicate AllSucceed(host: Env.Host, cfg: Settings, steps0: nat, replies0: nat)
    requires 0.0 < cfg.h
  {
    Succeeds(host, steps0, StepCount(0.0, cfg.tEnd, cfg.h), replies0, Writes(cfg.tEnd, cfg.h))
  }

  /** How many batches the driver writes: the one at time 0 and one per
      step, or none when the loop does not run. */
  function Writes(tEnd: real, h: real): nat
    requires 0.0 < h
  {
    if 0.0 < tEnd then StepCount(0.0, tEnd, h) + 1 else 0
  }

  /** The driver: open, initialize, write the inputs, run the loop, and
      close. Failed stands for the exit a failure leads to; the run ends
      Freed exactly when the connect, instantiate and initialize succeed,
      every step answers fmiOK and every write is accepted. */
  method Run(host: Env.Host, cfg: Settings, printf: Printf, output: array<real>) returns (twin: Twin)
    requires host.trace == [] && !host.connected
    requires |cfg.setValues| == |cfg.setVars| && output.Length == |cfg.getVars|
    requires 0.0 < cfg.h && BaseName(cfg.fmuFileName).Some?
    modifies host, output
    ensures twin.host == host && twin.output == output && twin.cfg == cfg
    ensures twin.phase == Freed || twin.phase == Failed
    ensures Env.Legal(host.trace)
    ensures twin.phase == Freed <==>
      && host.connects && host.instance.Some? && !host.initStatus.WorseThanWarning()
      && AllSucceed(host, cfg, old(host.steps), old(host.replies))
    ensures twin.phase == Freed ==> Env.StageAfter(host.trace) == Env.Freed
    ensures twin.phase == Freed ==>
      twin.stamps == (if 0.0 < cfg.tEnd then [0.0] + Grid(0.0, cfg.tEnd, cfg.h) else [])
    ensures twin.phase == Freed && 0.0 < cfg.tEnd ==>
      output[..] == Outputs(old(output[..]), cfg.getVars, host.store)
  {
    twin := new Twin.Open(host, cfg, printf, output);
    if twin.phase == Failed {
      return;
    }
    twin.Initialize();
    if twin.phase == Failed {
      return;
    }
    twin.SetInputs();
    Drive(twin);
    if twin.phase == Failed {
      return;
    }
    twin.Close();
  }
}
