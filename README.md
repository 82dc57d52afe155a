# FMU co-simulation drivers feeding InfluxDB — a Dafny model

The repository drives an FMI 1.0 co-simulation FMU. The drivers are
`fmu10/src/co_simulation/main_dbv0.c`, `main_v1.c` and `main_v2.c`. Each
one does the following:

- opens a TCP connection to an InfluxDB server;
- instantiates and initializes the model, and writes a few inputs;
- steps the model from 0 to tEnd with a fixed step h, clamping the last
  step so that it lands exactly on tEnd;
- after each step, reads variables of the model and publishes them as one
  InfluxDB line-protocol point over a hand-written HTTP request;
- finally terminates and frees the instance and closes the socket.

The three files are three generations of the same driver:

- `main_dbv0.c`'s `simulate` is one function. It hard-codes the
  credentials and publishes catalog entries 1 and 3.
- `main_v1.c` splits the work into `Twin*` functions over a `TwinModel`
  record. It publishes the configured outputs after every step.
- `main_v2.c` adds more:
  - a run counter kept in a file (`global_id`);
  - sanitised field names and typed (Real/Integer) inputs and outputs;
  - a publication at time 0;
  - a check of the HTTP reply ("204") after every write.

The model has one module per concern:

| file | module | models |
|---|---|---|
| `fmi.dfy` | `Fmi` | FMI status codes and their order, variable types and their integer codes, the `(int)` cast |
| `text.dfy` | `Text` | `%zd`/`%d` decimal rendering and `strtok` tokenising |
| `influx.dfy` | `Influx` | the HTTP header with its Content-Length, the status line check, comma-joined field lists |
| `schedule.dfy` | `Schedule` | the clamped fixed-step time grid |
| `env.dfy` | `Env` | everything outside the driver, recorded as a trace of calls, with the FMI call-order automaton |
| `twin_v2.dfy` | `TwinV2` | `main_v2.c` |
| `twin_v1.dfy` | `TwinV1` | `main_v1.c` |
| `sim_dbv0.dfy` | `SimDbv0` | `main_dbv0.c` |

## How the environment is represented

- The FMU, the socket and the counter file are one `Env.Host` object.
  - Its answers are fixed in advance as constant fields:
    - whether `connect` succeeds;
    - the handle `instantiateSlave` returns;
    - the status of `initializeSlave`;
    - the status and resulting variable store of the k-th `doStep`;
    - the k-th HTTP reply.
  - Every call the driver makes is appended to a ghost `trace`.
- `Env.StageAfter` runs the FMI 1.0 call-order automaton over a trace:
  - instantiate, then initialize;
  - get/set/doStep only while initialized;
  - after a doStep answered Discard, Error or Pending, only terminate or
    free; after fmiFatal, no call on the model at all;
  - terminate, then free;
  - every call on the model names its instance handle, and a call through
    any handle but the one held is out of order.
  - `Env.Legal` says that no call was made out of order.
- `printf`'s `%g` and `%.16g` conversions of reals are not modelled as
  text. They are the two fields of a `Printf` value that each driver
  receives as a parameter.

Each C function that makes calls on the model or the socket is a method.
The methods for single calls and single steps state the whole new state
they leave; the loops and whole runs state less, as "## Left out" lists:

- the trace they append;
- the store they leave;
- the output array they fill;
- the timestamps they publish.

Each such method is tied to specification functions (`Grid`, `Body`,
`Header`, `Passes`, `Inputs`, `Outputs`), and the lemmas prove what those
functions mean:

- the grid ends at tEnd;
- a header declares its body's length;
- a body splits back into its fields;
- an input reads back;
- the call order is legal.

## Model

| member | source | states |
|---|---|---|
| Fmi.Status.Rank | fmu10/src/co_simulation/main_v2.c:156 | a status's rank is at most 5 (Pending) and is 0 exactly for OK, so `> fmiWarning` compares as the C enum does |
| Fmi.WorseThanWarningCases | fmu10/src/co_simulation/main_v2.c:156 | `fmiFlag > fmiWarning` holds exactly for Discard, Error, Fatal and Pending |
| Fmi.TypeCode | fmu10/src/co_simulation/main_v2.c:591-611 | the type code is 0 exactly for a type that is none of Real/Integer/Boolean/String/Enumeration, and lies in 0..5 |
| Fmi.TypeCodeRoundTrip | fmu10/src/co_simulation/main_v2.c:591-611 | each type is recovered from its code |
| Fmi.TypeCodeInjective | fmu10/src/co_simulation/main_v1.c:253-271 | two types with the same code are the same type |
| Fmi.TruncateToInt | fmu10/src/co_simulation/main_v2.c:526 | the `(int)` cast rounds toward zero: the result is within 1 of x, on x's side of zero |
| Text.NatToDecimal | fmu10/src/co_simulation/main_v2.c:292-294 | a non-empty digit string with no leading zero |
| Text.DecimalRoundTrip | fmu10/src/co_simulation/main_v2.c:292-294 | reading back the `%zd` digits gives the number |
| Text.IntToDecimal | fmu10/src/co_simulation/main_v2.c:199 | `%d` output: a leading '-' exactly for negatives, digits after |
| Text.IntRoundTrip | fmu10/src/co_simulation/main_v2.c:199 | parsing `%d` output gives the integer back |
| Text.IntToDecimalInjective | fmu10/src/co_simulation/main_v2.c:199 | different run ids print differently |
| Text.Tokens | fmu10/src/co_simulation/main_v2.c:190-197 | `strtok` yields only non-empty tokens free of the delimiter |
| Text.NextToken | fmu10/src/co_simulation/main_v2.c:193-196 | one `strtok` call: none left exactly when no token remains, otherwise the first token and a strictly shorter rest |
| Text.TokensOfPlain | fmu10/src/co_simulation/main_v2.c:190-197 | a string without the delimiter is one token |
| Text.TokensSplit | fmu10/src/co_simulation/main_v2.c:317-319 | a delimiter splits the token list into the tokens on each side |
| Influx.HeaderDeclaresLength | fmu10/src/co_simulation/main_v2.c:292-294 | the Content-Length read back from the header is the body length it was built with |
| Influx.StatusLineAccepted | fmu10/src/co_simulation/main_v2.c:314-328 | a reply "version code reason" is accepted if and only if the code is 204 |
| Influx.ShortReplyRejected | fmu10/src/co_simulation/main_v2.c:321 | a reply with fewer than two tokens is rejected |
| Influx.NullStatusToken | fmu10/src/co_simulation/main_v2.c:321 | an empty reply or a bare "HTTP/1.1" has no second token, so the check as written compares a null pointer |
| Influx.OpenIsJoin | fmu10/src/co_simulation/main_v2.c:851-862 | fields each followed by ',' are the comma-join plus a trailing comma |
| Influx.LineIsJoin | fmu10/src/co_simulation/main_v2.c:851-862 | fields with ',' between them and '\n' after the last are the comma-join plus a newline |
| Influx.JoinSplitsBack | fmu10/src/co_simulation/main_v2.c:851-862 | comma-free non-empty fields are recovered by splitting the joined line on ',' |
| Influx.OpenLineSnoc | fmu10/src/co_simulation/main_v2.c:851-862 | appending one field to an open line either keeps it open or closes it with '\n' |
| Schedule.Clamp | fmu10/src/co_simulation/main_v2.c:642-644 | the applied step is at most h, never passes tEnd, is h or lands on tEnd, and is positive before tEnd |
| Schedule.RemainingDecreases | fmu10/src/co_simulation/main_v2.c:330-343 | each pass of `while (time < tEnd)` strictly decreases a natural measure, so the loop ends |
| Schedule.Grid | fmu10/src/co_simulation/main_v2.c:330-343 | one time reached per step the loop takes, and none when time >= tEnd already |
| Schedule.GridInRange | fmu10/src/co_simulation/main_v2.c:330-343 | every time reached lies in (start, tEnd], and the last one is exactly tEnd |
| Schedule.GridSteps | fmu10/src/co_simulation/main_v2.c:642-644 | times reached strictly increase by at most h |
| Schedule.StepCountIsCeil | fmu10/src/co_simulation/main_v1.c:168-179 | the loop takes ceil((tEnd - time) / h) steps |
| Schedule.HalfSteps | fmu10/src/co_simulation/main_v2.c:996-1005 | tEnd 1, h 0.5 reaches 0.5 and 1 |
| Schedule.ClampedLastStep | fmu10/src/co_simulation/main_v2.c:996-1005 | tEnd 1, h 0.3 reaches 0.3, 0.6, 0.9 and a clamped 1 |
| Env.IllegalAbsorbs | fmu10/src/co_simulation/main_v2.c:802 | once a call is out of order, no later call makes the trace legal |
| Env.TouchesStage | fmu10/src/co_simulation/main_v2.c:813-905 | a run of get/set/doStep calls leaves an initialized instance initialized and sends any other stage to Illegal |
| Env.SocketStage | fmu10/src/co_simulation/main_v2.c:909-922 | connect, send, receive and close leave the model's stage unchanged |
| Env.QuietStage | fmu10/src/co_simulation/main_dbv0.c:150-192 | steps, reads and sends keep an initialized instance initialized |
| Env.LegalPrefix | fmu10/src/co_simulation/main_v2.c:950-1018 | every prefix of a legal run is legal |
| Env.TouchOnlyWhenInitialized | fmu10/src/co_simulation/main_v2.c:802-808 | in a legal trace every get/set/doStep goes through the handle of an instance that is initialized at that point |
| Env.InitializedOnlyAfterInit | fmu10/src/co_simulation/main_v2.c:144-158 | an initialized instance implies a successful instantiate and an initialize that returned no worse than Warning |
| Env.HeldOnlyAfterInstantiate | fmu10/src/co_simulation/main_v2.c:144-150 | the model holds instance c (instantiated, initialized, faulted or terminated) only after instantiateSlave returned c |
| Env.HandleIssued | fmu10/src/co_simulation/main_v2.c:144-164 | in a legal trace every call on the model goes through a handle that an earlier instantiateSlave returned |
| Env.FatalIsFinal | fmu10/src/co_simulation/main_v2.c:802-808 | after a call answered fmiFatal, a legal trace makes no further call on the model, only socket calls |
| Env.FaultedOnlyEnds | fmu10/src/co_simulation/main_v2.c:802-808 | after a doStep answered Discard, Error or Pending, the next call a legal trace makes on the model terminates or frees that instance |
| TwinV2.Sanitize | fmu10/src/co_simulation/main_v2.c:207-219 | the cleaned name has no space and no comma, and is shorter by the number of spaces |
| TwinV2.SanitizeAppend | fmu10/src/co_simulation/main_v2.c:207-219 | cleaning works character by character, so it distributes over concatenation |
| TwinV2.SanitizeKeepsClean | fmu10/src/co_simulation/main_v2.c:207-219 | a name without spaces or commas is left unchanged |
| TwinV2.SanitizeIdempotent | fmu10/src/co_simulation/main_v2.c:207-219 | cleaning twice is cleaning once |
| TwinV2.SanitizeAt | fmu10/src/co_simulation/main_v2.c:207-219 | without spaces, each character is kept in place and ',' becomes '.' |
| TwinV2.CleanName | fmu10/src/co_simulation/main_v2.c:819-833 | the character loop produces the sanitised name |
| TwinV2.BaseName | fmu10/src/co_simulation/main_v2.c:190-197 | the last '/'-token, non-empty and slash-free, absent exactly when the path has no token |
| TwinV2.BaseNameOfPlain | fmu10/src/co_simulation/main_v2.c:190-197 | a slash-free name is its own base name |
| TwinV2.BaseNameOfNested | fmu10/src/co_simulation/main_v2.c:190-197 | a directory prefix does not change the base name |
| TwinV2.BaseNameTrailingSlash | fmu10/src/co_simulation/main_v2.c:190-197 | a trailing '/' does not change the base name |
| TwinV2.MeasurementName | fmu10/src/co_simulation/main_v2.c:648-654 | the `strtok` loop keeps the last token: the base name |
| TwinV2.BodyLayout | fmu10/src/co_simulation/main_v2.c:813-905 | a body is the prefix then the comma-joined fields and '\n', or the prefix ending in ',' when there are no fields |
| TwinV2.FieldsSplitBack | fmu10/src/co_simulation/main_v2.c:813-905 | the body's fields split back on ',' into exactly the rendered fields |
| TwinV2.FieldTextAt | fmu10/src/co_simulation/main_v2.c:813-905 | the k-th field of the body renders the k-th variable |
| TwinV2.InputsReadBack | fmu10/src/co_simulation/main_v2.c:516-530 | after the inputs are set, the last value set for a Real reads back, and an Integer reads back truncated |
| TwinV2.OutputsOverwrite | fmu10/src/co_simulation/main_v2.c:543-561 | fetching the outputs twice leaves what the second fetch read |
| TwinV2.Twin.Open | fmu10/src/co_simulation/main_v2.c:38-71 | the twin is loaded exactly when the connect succeeds (otherwise the process exits, modelled as the Failed phase); the only call made is the connect |
| TwinV2.Twin.Initialize | fmu10/src/co_simulation/main_v2.c:97-164 | the run id is the stored counter plus one and is written back; the twin is initialized exactly when instantiate gave a handle and initialize was no worse than Warning; the exact calls made |
| TwinV2.Twin.SetInput | fmu10/src/co_simulation/main_v2.c:519-528 | one setReal or truncated setInteger, by the variable's type |
| TwinV2.Twin.SetInputs | fmu10/src/co_simulation/main_v2.c:489-532 | the store and trace after setting all configured inputs in order |
| TwinV2.Twin.GetOutput | fmu10/src/co_simulation/main_v2.c:547-560 | one typed read, keeping the old value for other types |
| TwinV2.Twin.FetchAt | fmu10/src/co_simulation/main_v2.c:547-560 | the output array changes at index i only |
| TwinV2.Twin.FetchOutputs | fmu10/src/co_simulation/main_v2.c:543-561 | the output array holds the current outputs, with one read per output variable |
| TwinV2.Twin.GetOutputs | fmu10/src/co_simulation/main_v2.c:535-563 | the same, for the initialized twin |
| TwinV2.Twin.ReadField | fmu10/src/co_simulation/main_v2.c:819-850 | reads the variable once and renders "name=value" |
| TwinV2.Twin.AppendField | fmu10/src/co_simulation/main_v2.c:833-862 | appending one field keeps the body an open field list, or closes it with '\n' |
| TwinV2.Twin.AppendFields | fmu10/src/co_simulation/main_v2.c:815-905 | the loops append exactly the newline-terminated comma-join of the fields |
| TwinV2.Twin.BuildBody | fmu10/src/co_simulation/main_v2.c:813-905 | the body is the line-protocol point for the inputs and outputs at time t |
| TwinV2.Twin.Exchange | fmu10/src/co_simulation/main_v2.c:906-946 | the header declares the body's length; the result is true exactly when the reply is accepted |
| TwinV2.Twin.Publish | fmu10/src/co_simulation/main_v2.c:813-946 | one publication: the body, its header and the reply; a rejected reply fails the twin |
| TwinV2.Twin.Advance | fmu10/src/co_simulation/main_v2.c:802-810 | a doStep answered other than OK fails the twin, publishes nothing, leaves the doStep as the only call and the instance where that status puts it; otherwise the time moves by the clamped step, the calls are the doStep followed by BatchCalls (a read of every set and get variable, the header declaring the body's length, the body of the point at the time reached, and the reply), and the twin stays initialized exactly when that reply is accepted |
| TwinV2.Twin.SimulationByStep | fmu10/src/co_simulation/main_v2.c:626-948 | the twin stays initialized exactly when the doStep answers OK and every write (two at time 0, else one) is accepted; then the time advances by the clamped step and the batches are stamped 0 (at time 0) and the time reached |
| TwinV2.Twin.Pass | fmu10/src/co_simulation/main_v2.c:330-475 | one pass of the loop either fails, and then not every step and write of the run succeeds, or keeps the loop's account: one more step answered OK and one more write accepted, one fewer step left, and the time reached stamped next on the grid |
| TwinV2.Twin.Simulation | fmu10/src/co_simulation/main_v2.c:167-477 | the twin stays initialized exactly when all StepCount doSteps answer OK and all StepCount + 1 writes are accepted; then the published timestamps are 0 followed by the whole grid |
| TwinV2.Twin.Reset | fmu10/src/co_simulation/main_v2.c:480-486 | resets the instance back to instantiated |
| TwinV2.Twin.Close | fmu10/src/co_simulation/main_v2.c:74-94 | terminate, free, then close the socket: the instance ends freed |
| TwinV2.Round | fmu10/src/co_simulation/main_v2.c:1003-1004 | one pass of `main`'s loop succeeds exactly when its doStep answers OK and its writes are accepted; then time moves by the clamped step, the batches are stamped, and the outputs hold what the step left |
| TwinV2.Drive | fmu10/src/co_simulation/main_v2.c:996-1005 | the loop completes exactly when every doStep of the grid answers OK and every write is accepted; then it published 0 and the grid (nothing when tEnd <= 0) and leaves the last outputs in the array |
| TwinV2.Run | fmu10/src/co_simulation/main_v2.c:950-1018 | every call is made in a legal order; the run ends freed exactly when the connect, instantiate and initialize succeed and every step and write succeeds, and then it published 0 and the grid |
| TwinV1.BodyLayout | fmu10/src/co_simulation/main_v1.c:309-331 | a body is the prefix, the comma-joined fields and '\n', or the prefix ending in ',' when there are no outputs |
| TwinV1.FieldsSplitBack | fmu10/src/co_simulation/main_v1.c:311-328 | with comma-free names the fields split back on ',' |
| TwinV1.RawCommaSplits | fmu10/src/co_simulation/main_v1.c:311-328 | a comma inside an unsanitised name splits one field into two |
| TwinV1.Reads | fmu10/src/co_simulation/main_v1.c:311-328 | one getReal per output variable |
| TwinV1.InputCalls | fmu10/src/co_simulation/main_v1.c:210-216 | one setReal per input |
| TwinV1.InputsKeepInts | fmu10/src/co_simulation/main_v1.c:210-216 | setting real inputs leaves the integer variables untouched |
| TwinV1.InputsUnset | fmu10/src/co_simulation/main_v1.c:210-216 | a reference not in the input list keeps its value |
| TwinV1.InputsReadBack | fmu10/src/co_simulation/main_v1.c:210-216 | the last value set for a reference reads back |
| TwinV1.Outputs | fmu10/src/co_simulation/main_v1.c:228-236 | one value per output variable |
| TwinV1.BatchStage | fmu10/src/co_simulation/main_v1.c:304-337 | from an initialized instance, one pass (doStep, reads, sends, reads) ends where the step's status puts it when it reads nothing, initialized when the status is no worse than Warning, and out of order otherwise; from any other stage it is out of order |
| TwinV1.LoopStageInOrder | fmu10/src/co_simulation/main_v1.c:388-396 | from an initialized instance the loop keeps it initialized exactly when every doStep answers no worse than Warning, ends faulted or initialized exactly when the passes keep the call order, and never ends elsewhere than Lost or out of order |
| TwinV1.LoopStageOutOfOrder | fmu10/src/co_simulation/main_v1.c:388-396 | from any stage but an initialized instance, one or more passes are out of order |
| TwinV1.Twin.Open | fmu10/src/co_simulation/main_v1.c:56-81 | the process exits exactly when the connect fails; no instance exists yet |
| TwinV1.Twin.Initialize | fmu10/src/co_simulation/main_v1.c:102-138 | returns 1 exactly when instantiate gave a handle and initialize was no worse than Warning; the calls made and the stage reached |
| TwinV1.Twin.SetInputs | fmu10/src/co_simulation/main_v1.c:201-217 | the store and the trace after setting every input in order |
| TwinV1.Twin.FetchAt | fmu10/src/co_simulation/main_v1.c:233-234 | the output array changes at index i only |
| TwinV1.Twin.GetOutputs | fmu10/src/co_simulation/main_v1.c:220-237 | the array holds the current outputs, with one read per output |
| TwinV1.Twin.AppendField | fmu10/src/co_simulation/main_v1.c:311-328 | appending one field keeps the body an open field list, or closes it with '\n' |
| TwinV1.Twin.AppendFields | fmu10/src/co_simulation/main_v1.c:311-328 | the loop appends the newline-terminated comma-join of the fields |
| TwinV1.Twin.Publish | fmu10/src/co_simulation/main_v1.c:309-337 | the body is the point at time t, and the header declares its length |
| TwinV1.Twin.SendBatch | fmu10/src/co_simulation/main_v1.c:332-337 | header then body go out, with nothing else |
| TwinV1.Twin.SimulationByStep | fmu10/src/co_simulation/main_v1.c:284-339 | steps by the clamped step whatever status doStep returns, then publishes the point at the new time |
| TwinV1.StepCallsAt | fmu10/src/co_simulation/main_v1.c:168-175 | the j-th call of the loop is a doStep from the j-th time of the schedule by the clamped step, reporting the j-th status |
| TwinV1.StepCallsStage | fmu10/src/co_simulation/main_v1.c:168-176 | doSteps that all answer OK keep the instance initialized |
| TwinV1.StepCallsOutcome | fmu10/src/co_simulation/main_v1.c:173-174 | after doSteps answered OK, the first that is not leaves the instance where its status puts it |
| TwinV1.Twin.StepAt | fmu10/src/co_simulation/main_v1.c:168-175 | one pass up to the status test: the step is clamped so as not to pass tEnd, and the trace grows by the next doStep of StepCalls, from the schedule's next time |
| TwinV1.Twin.Steps | fmu10/src/co_simulation/main_v1.c:167-179 | the result is true exactly when every step of the grid returned OK; then it took StepCount steps and the trace grew by exactly those doSteps (StepCalls); otherwise the last step taken is the first that did not return OK, and the trace grew by the doSteps up to and including it |
| TwinV1.Twin.EndSimulation | fmu10/src/co_simulation/main_v1.c:181-183 | terminate then free, and nothing else; an initialized instance ends freed |
| TwinV1.Twin.Simulation | fmu10/src/co_simulation/main_v1.c:141-191 | no result file means failure with nothing done; success exactly when every step returned OK, and then the trace grew by the doSteps of the grid, terminate and free, and the instance ends freed; a failure stops right after the first step that did not return OK, which leaves the instance where its status puts it |
| TwinV1.Twin.Reset | fmu10/src/co_simulation/main_v1.c:194-198 | one reset call |
| TwinV1.Twin.Close | fmu10/src/co_simulation/main_v1.c:84-99 | closes the socket only, and leaves the instance's stage alone |
| TwinV1.Twin.Finish | fmu10/src/co_simulation/main_v1.c:398-413 | terminate, free, then close |
| TwinV1.Round | fmu10/src/co_simulation/main_v1.c:388-390 | one pass: time moves by the clamped step, the outputs are fetched, and the stage is the pass's stage from the old one |
| TwinV1.Drive | fmu10/src/co_simulation/main_v1.c:388-396 | the loop publishes exactly the grid, takes StepCount steps, and leaves the stage of that many passes |
| TwinV1.AsWrittenEnd | fmu10/src/co_simulation/main_v1.c:357-399 | terminate/free through twin.c at the end are legal exactly when initialization succeeded and the passes kept the call order, or initialization failed short of Fatal, nothing was touched, and the never-assigned twin.c happens to equal the instance's handle |
| TwinV1.Start | fmu10/src/co_simulation/main_v1.c:353-357 | connect then initialize: the stage reached |
| TwinV1.Proceed | fmu10/src/co_simulation/main_v1.c:358-413 | inputs, the loop, terminate/free and close, whatever initialization returned |
| TwinV1.RunAsWritten | fmu10/src/co_simulation/main_v1.c:343-415 | `main` as written: the trace is legal exactly in the two cases of AsWrittenEnd, and legal exactly when it ends freed |
| TwinV1.Run | fmu10/src/co_simulation/main_v1.c:343-415 | `main` stopping on a failed initialization: it goes on exactly when connect, instantiate and initialize succeed, and a run that stops is legal; a run that goes on publishes the grid and is legal exactly when the passes keep the call order, which is when it ends freed |
| SimDbv0.AsWrittenInBounds | fmu10/src/co_simulation/main_dbv0.c:133-137 | the setReal call as written happens exactly for a positive setNumber, and stays inside its one-element arrays only when setNumber is 1 |
| SimDbv0.AsWrittenOverreads | fmu10/src/co_simulation/main_dbv0.c:133-137 | setNumber 2 makes setReal read past its arrays |
| SimDbv0.InputCall | fmu10/src/co_simulation/main_dbv0.c:133-137 | the corrected call stays in bounds and sets exactly the one value |
| SimDbv0.InputCallAgrees | fmu10/src/co_simulation/main_dbv0.c:133-137 | wherever the call as written is in bounds, the corrected call is the same |
| SimDbv0.DbBodyFields | fmu10/src/co_simulation/main_dbv0.c:181 | the body is the "RLC" point with fields i and v, which split back on ',' |
| SimDbv0.BatchDeclaresLength | fmu10/src/co_simulation/main_dbv0.c:183-190 | the header sent declares the length of the body sent after it |
| Schedule.TimeAtOnGrid | fmu10/src/co_simulation/main_dbv0.c:150-158 | after n steps, StepCount - n steps remain, and the rest of the grid follows |
| Schedule.TimeAtIsGrid | fmu10/src/co_simulation/main_dbv0.c:150-158 | the time after i + 1 steps is the i-th grid point |
| Schedule.TimeAtEnd | fmu10/src/co_simulation/main_dbv0.c:150-158 | after all steps the time is exactly tEnd |
| SimDbv0.PassesQuiet | fmu10/src/co_simulation/main_dbv0.c:150-192 | the loop only steps, reads and sends |
| SimDbv0.Pass | fmu10/src/co_simulation/main_dbv0.c:150-195 | one pass: a failing doStep ends with that call; otherwise the batch is published and the time moves to the next grid point |
| SimDbv0.Steps | fmu10/src/co_simulation/main_dbv0.c:150-196 | the loop finishes exactly when every step returns OK, with StepCount steps and one batch per step; otherwise it stops right after the first failing doStep |
| SimDbv0.Start | fmu10/src/co_simulation/main_dbv0.c:73-137 | which of connect, instantiate, file and initialize stops the run, and the exact calls up to there |
| SimDbv0.Finish | fmu10/src/co_simulation/main_dbv0.c:197-202 | close the socket, terminate, free |
| SimDbv0.Proceed | fmu10/src/co_simulation/main_dbv0.c:150-209 | loop and clean-up: legal throughout, and freed exactly when every step succeeded |
| SimDbv0.Simulate | fmu10/src/co_simulation/main_dbv0.c:62-209 | `simulate`: exits exactly on a failed connect; completes exactly when every stage and step succeeds, and then the whole trace is known and ends freed; every trace is legal |

## Left out

- I/O and logging are not modelled: `zlog_*`, `printf`, the CSV result
  file's rows (`outputRow`) and `Sleep`. Only the decision they feed is kept.
  For example, whether the result file opens is a parameter.
- Loading and unloading the FMU is left out because it is platform code.
  This covers the DLL and XML parsing, `freeElement` and
  `deleteUnzippedFiles`.
- Socket setup (`WSAStartup`, `socket`, `inet_addr`) is left out. Only
  `connect` succeeding or failing is modelled.
- `send` always succeeds in the model. The `pexit` on a failed `send`, and
  `recv` failures, are not modelled.
- `%g` and `%.16g` are not modelled as text. They are the two functions of a
  `Printf` parameter, and the comma-splitting lemmas assume neither
  produces a ','.
- Floating point is modelled as exact reals, so rounding drift of `time += hh`
  is not captured. The `fabs(time - 0) < 1e-15` test in `main_v2.c` is
  taken as `time == 0`.
- The fixed buffer sizes are not modelled: names of up to 1000 characters,
  bodies of `DB_BUFSIZE` and `value_temp[20]`. Overflowing them is outside
  the model.
- In `main_v2.c`, a failure to open `guid.txt` (which exits the process) is
  not modelled. The counter file always opens.
- In `main_v2.c`, `TwinSimulationByStep` and `TwinSimulation` show the
  reply's status line only through `Accepted`. Logging the failure is left out.
- The thin accessors `TwinGetVariableName` and `TwinGetVariableCausality`,
  and the argument parsing of each `main`, are left out. Each only copies a
  field.
- In `main_dbv0.c`, `error()` returns 0, and this is modelled as the
  `Failed` outcome.
- TwinV2.Twin.Valid and TwinV2.Twin.Live are modelling invariants (phase
  against trace). They have no counterpart in the C code.
- TwinV2.Twin.Simulation and TwinV2.Twin.SimulationByStep state when they
  fail, and on success the published timestamps, steps and replies. They
  do not restate the whole trace, nor the stage a failed step leaves.
  Those are stated call by call for each step by TwinV2.Twin.Advance and
  for the batch at time 0 by TwinV2.Twin.Publish.
- TwinV1.Run, TwinV1.RunAsWritten, TwinV1.Round, TwinV1.Drive,
  TwinV1.Proceed, TwinV2.Run, TwinV2.Round and TwinV2.Drive state the
  stage reached, the legality of the trace, the stamps published and the
  outputs left. They do not state the trace itself or the final store, so
  they do not rule out, for example, a batch sent twice; the exact calls
  are stated by the per-call methods they are built from.
- SimDbv0.Proceed and SimDbv0.Simulate state the whole trace only when the
  run completes; on a failed step they state its legality and that the
  instance is kept. TwinV1.Twin.Steps, TwinV1.Twin.Simulation,
  SimDbv0.Steps, SimDbv0.Proceed and SimDbv0.Simulate do not state the
  store the last doStep leaves.
- TwinV2.Run requires the FMU path to have a base name. With an empty path,
  the C code would pass a null pointer to `sprintf`.
- TwinV1.Twin.Steps and TwinV1.Twin.Simulation do not record the `getReal`
  calls that `outputRow` makes for the CSV file before the loop and after
  each step (main_v1.c:163-164 and 177). Their traces hold the doSteps,
  then terminate and free.
- SimDbv0.Simulate does not record the `getReal` calls that `outputRow` makes
  for the CSV file. They only touch the model, which `Env.QuietStage`
  covers.
- SimDbv0.Simulate requires a catalog of at least four variables. The C
  code indexes entries 1 and 3 without checking.
- SimDbv0.Pass, SimDbv0.Steps, SimDbv0.Proceed, SimDbv0.Simulate,
  TwinV1.Twin.StepAt, TwinV1.Twin.Steps, TwinV1.Twin.Simulation,
  TwinV1.Drive, TwinV1.Proceed, TwinV1.Run, TwinV1.RunAsWritten,
  TwinV2.Twin.Pass, TwinV2.Twin.Simulation, TwinV2.Drive and TwinV2.Run
  require `h > 0`, as do the grid functions they use. With
  `h <= 0` and `tEnd > 0` the C loop never ends.
- TwinV2.Twin.Initialize: the run id is an unbounded integer. In the C code
  `guid = guid + 1` (main_v2.c:129) overflows an `int` once the counter
  file holds INT_MAX.
- Fmi.TruncateToInt: truncation is modelled for every real. In the C code
  `(int)(value[i])` (main_v2.c:526) is undefined when the value lies outside
  the range of `int`.
- Text.IntToDecimal prints any integer, not only those that fit a C `int`.
- SimDbv0.Start and SimDbv0.Simulate run the corrected input call, a single
  `setReal` of one value. The call as written, with count `setNumber`
  (main_dbv0.c:136), is modelled by SimDbv0.AsWrittenInBounds and
  SimDbv0.AsWrittenOverreads; see Findings.

## Findings

| source | as written | input that shows it | evidently intended | confidence | as-written member | corrected member |
|---|---|---|---|---|---|---|
| fmu10/src/co_simulation/main_v1.c:357 | `main` ignores `TwinInitialize`'s result, then sets inputs, steps, and terminates and frees through `twin.c`, which was never assigned | an FMU whose `initializeSlave` returns fmiError: the calls go through a stale handle and the real instance is never freed | stop after a failed initialization | high; not executed | TwinV1.RunAsWritten | TwinV1.Run |
| fmu10/src/co_simulation/main_dbv0.c:133-137 | `setReal` is passed count `setNumber` over one-element arrays | setNumber = 2 | a count of 1, the one value set | high; not executed | SimDbv0.AsWrittenOverreads | SimDbv0.InputCall |
| fmu10/src/co_simulation/main_v2.c:321 | `strcmp(buf[1], "204")` runs even when the reply had fewer than two tokens, so `buf[1]` is null | an empty reply (the server closed the connection), or a bare "HTTP/1.1" | treat a short reply as rejected | medium; not executed | Influx.NullStatusToken | Influx.ShortReplyRejected |
