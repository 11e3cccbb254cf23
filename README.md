# tesuto: test-case builder and runner, modelled in Dafny

tesuto wraps an `httptest.Server` so that an HTTP endpoint test is one call:
`HTTP.Test(method, path, opts...)` allocates a `testCase`, runs every `TestOption`
on it in argument order, and returns a `func(*testing.T)` that performs the request
and asserts on the response. This project models that core.

- **Building a test case.** The options are values of `Options.TestOption`. Each one
  writes its own fields of the test case. `ExpectHeader` inserts or overwrites one key
  of the expected-header map. `WithJSONInput`, `WithFormInput` and `WithHeader` append
  a request mutator. `Options.Applied` and `Options.Build` state this on values.
  `Tesuto.TestCase` is the same state as a class whose `Apply` method changes its
  fields in place.
- **Request mutators.** The queued closures become `Mutators.Mutator` values.
  `Mutators.Replay` runs them in queue order on the request's header map.
  `Mutators.Request.Mutate` changes one request in place. Content-Type is `Set`, so the
  last setter wins. Every other `WithHeader` value is `Add`ed after the earlier ones.
- **Running it.** Everything outside the program is an input: the network, `ioutil.ReadAll`,
  `json.Unmarshal` and `cmp.Diff`. An `Execution.Exchange` says what each of them
  did. Go's iteration order over the expected-header map is a parameter `order`.
  `http.CanonicalHeaderKey` is a parameter `canon`. It is assumed only to be idempotent
  and to leave `Content-Type` unchanged.
- **Assertions.** The run evaluates them in this order: status, headers, raw body,
  JSON decode and diff, grab decode. A mismatch is reported through `fail`: `t.Errorf`,
  or `t.Fatalf` once `FatalFailure` was given. A decode failure always goes through
  `t.Fatal`. `Reporting` models this as a fold of `Check`s under a policy (`Step`,
  `Resume`, `Policy`) with a reference definition `Failures`. `Execution.Execute`
  specifies one run. `Tesuto.TestCase.Run` performs it imperatively and is proved
  equal to it.

Two points where the code is followed rather than its documentation:

- `WithJSONInput(input)` never uses `input`. It marshals the test case's current
  `tc.input`, a reader or nil (tesuto.go:145). The model reproduces this as
  `Marshalled(s.input)`. `Options.JsonInputIgnoresArgument` proves that the argument
  has no effect.
- `GrabJSONResponse` is documented only as unmarshalling the response into the
  target (tesuto.go:221-222). The decode sits last in the test function, so a
  fail-fast failure or a failed JSON decode ends the run through `t.Fatal` before
  it, and the target is then never written (tesuto.go:113-128).
  `Outcome.grabAttempted` records this. `Execution.FailFastRun` and
  `Execution.AccumulatingRun` say exactly when it is true.

## Model

| member | source | states |
|---|---|---|
| Http.Set | tesuto.go:176 | Header.Set: the canonical key holds exactly the one value, every other key is unchanged |
| Http.Add | tesuto.go:179 | Header.Add: the value is appended after those already under the canonical key, every other key is unchanged |
| Reporting.StepAccumulates | tesuto.go:91 | t.Error records the failure and the run goes on; only a fatal check stops it |
| Reporting.ResumeSnoc | tesuto.go:96-128 | evaluating one more assertion is one more step of the run |
| Reporting.ResumeConcat | tesuto.go:96-128 | evaluating two runs of assertions one after the other is evaluating their concatenation |
| Reporting.FailuresConcat | tesuto.go:96-128 | the failures of concatenated assertions are the failures of each part, in order |
| Reporting.RanBound | tesuto.go:96-128 | a run evaluates at most every assertion; a run that did not stop evaluated all of them |
| Reporting.AbortedIsFinal | tesuto.go:73 | after t.Fatal nothing more is evaluated or recorded |
| Reporting.ReportedArePrefix | tesuto.go:96-128 | a run only appends, and what it appends is a prefix of the failures in order; all of them if it did not stop |
| Reporting.AccumulateAll | tesuto.go:91 | with t.Errorf and no fatal check, every check runs and each failure is recorded once, in order |
| Reporting.AllPassIffNoFailures | tesuto.go:96-128 | nothing is recorded exactly when every assertion passes |
| Reporting.FailFastFirstFailure | tesuto.go:92-94 | with t.Fatalf the run stops exactly when an assertion fails, having recorded only the first failure |
| Reporting.FatalStops | tesuto.go:115-117 | a fatal check stops the run whatever the policy, no later than that check |
| Mutators.ReplayConcat | tesuto.go:75-77 | replaying two queues one after the other is replaying their concatenation |
| Mutators.ContentTypeLastWins | tesuto.go:151-153 | Content-Type ends up holding exactly the value of the last mutator that sets it |
| Mutators.ContentTypeKeptWithoutSetter | tesuto.go:173-180 | mutators that do not set Content-Type leave it unchanged |
| Mutators.OtherHeadersAccumulate | tesuto.go:179 | under any other key, the WithHeader values are added in queue order after the existing ones |
| Mutators.ReplayKeepsKeysCanonical | tesuto.go:75-77 | replaying mutators only writes canonical header keys |
| Mutators.Request.constructor | tesuto.go:71 | http.NewRequest: the method, path and body given, with an empty header map |
| Mutators.Request.Mutate | tesuto.go:76 | mut(req): the request's header becomes the mutator applied to the old header |
| Options.AppliedFrame | tesuto.go:135-234 | an option changes only the fields it owns and never the method or path; the mutator list only grows, by what the option queues |
| Options.BuildConcat | tesuto.go:42-44 | options are applied strictly in argument order |
| Options.QueuedAllSnoc | tesuto.go:143-182 | one more option appends what it queues to the mutators queued so far |
| Options.QueuedAllConcat | tesuto.go:143-182 | the mutators queued by two runs of options are concatenated |
| Options.BuildFrame | tesuto.go:36-44 | a field that no option writes keeps its initial value |
| Options.LastWriterWins | tesuto.go:42-44 | a field holds what the last option that writes it left there |
| Options.LastStatusCodeWins | tesuto.go:191-195 | the expected status is that of the last ExpectStatusCode |
| Options.AppliedExpectHeaders | tesuto.go:198-202 | ExpectHeader inserts or overwrites one key; other options leave the map alone |
| Options.AppliedFailFast | tesuto.go:230-234 | FatalFailure turns fail-fast on; no option turns it off |
| Options.ExpectHeaderLastWins | tesuto.go:198-202 | a header maps to the value of the last ExpectHeader naming it |
| Options.ExpectHeaderOtherKeys | tesuto.go:198-202 | a header no ExpectHeader names keeps its entry or its absence |
| Options.MutatorsAppendOnly | tesuto.go:143-182 | the mutator list is the initial list followed by every option's queued mutators in order, and each earlier list is a prefix of the final one |
| Options.FailFastSticky | tesuto.go:230-234 | fail-fast is on exactly when some option is FatalFailure (or it started on) |
| Options.JsonInputIgnoresArgument | tesuto.go:143-155 | WithJSONInput's argument has no effect; the body becomes the JSON encoding of the previous body |
| Options.BuiltContentTypeIsLastSetter | tesuto.go:143-182 | the built request's Content-Type is exactly the one the last Content-Type-setting option asked for |
| Options.BuiltContentTypeAbsentWithoutSetter | tesuto.go:143-182 | without such an option the request carries no Content-Type |
| Options.QueuedAllSetsNoContentType | tesuto.go:173-180 | options that do not set Content-Type queue no mutator that sets it |
| Execution.HeaderChecks | tesuto.go:100-105 | one check per expected key in iteration order |
| Execution.HeaderChecksAt | tesuto.go:100-105 | the i-th header check compares the i-th key |
| Execution.HeaderChecksSnoc | tesuto.go:100-105 | the loop over one more key adds that key's check |
| Execution.HeaderChecksSplit | tesuto.go:100-105 | the checks of an order are those of its two parts in sequence |
| Execution.HeaderPrefixSnoc | tesuto.go:100-105 | one more loop iteration is one more step |
| Execution.ResumeHeadersStopped | tesuto.go:100-105 | once fail stops the run inside the loop, the remaining keys change nothing |
| Execution.HeaderPrefixExit | tesuto.go:100-105 | the loop ends with the verdict of checking every key |
| Execution.PreGrabChecks | tesuto.go:96-122 | one check each for status, raw body and JSON, plus one per header |
| Execution.Checks | tesuto.go:96-128 | every assertion of a run, one more for the grab |
| Execution.FinishReadPrefix | tesuto.go:85-88 | a read error recorded first stays in front of what the assertions record |
| Execution.MismatchesAmongNames | tesuto.go:101-102 | a header mismatch names an expected key, its expected value and a differing received value |
| Execution.MismatchesAmongInsert | tesuto.go:100-105 | one more key adds its mismatch, if any |
| Execution.ArrangementSnoc | tesuto.go:100-105 | appending a new failure keeps the record an arrangement of the mismatch set |
| Execution.HeaderFailuresSnoc | tesuto.go:100-105 | checking one more key records its mismatch, if any, after the others |
| Execution.KeysSnoc | tesuto.go:100 | the keys of a map iteration, one more at a time |
| Execution.HeaderArrangementSnoc | tesuto.go:100-105 | each loop step keeps the recorded header failures an arrangement of the mismatches so far |
| Execution.HeaderFailuresArrangeMismatches | tesuto.go:100-105 | the header loop records each mismatching header exactly once and nothing else, whatever the order |
| Execution.HeaderFailuresForEnumeration | tesuto.go:100-105 | for any iteration order of the map, the header failures are exactly its mismatches |
| Execution.HeaderChecksPassIff | tesuto.go:100-105 | no header failure exactly when every expected header matches Header.Get |
| Execution.PreGrabStages | tesuto.go:96-122 | the run up to the grab is the stages in evaluation order |
| Execution.AssessIsPolicy | tesuto.go:85-128 | after the response, the run is the policy over the assertions in order; the grab is decoded exactly when the run is still going |
| Execution.ExecuteIsPolicy | tesuto.go:64-130 | a run records a read error, then what the policy records over Checks; the grab is decoded exactly when every check was evaluated |
| Execution.ReportedSources | tesuto.go:85-128 | everything recorded is a read error or a genuine mismatch or decode failure of one of the assertions |
| Execution.StagesAccumulate | tesuto.go:91-128 | under t.Errorf each stage adds its failures; only JSON or grab decode failures stop the run |
| Execution.StagesKeepFirst | tesuto.go:96-98 | whatever the policy, later stages keep what the status check recorded |
| Execution.AccumulatingStages | tesuto.go:85-128 | report-and-continue, stage by stage: what each stage records, when the run stops, when the grab is decoded |
| Execution.PartsAreFailures | tesuto.go:96-128 | what each non-header stage records, as failures |
| Execution.AccumulatingRun | tesuto.go:64-130 | without FatalFailure every mismatch is recorded once in stage order; only decode failures stop the run; the grab is skipped only after a failed JSON decode |
| Execution.ChecksPassIff | tesuto.go:96-128 | the assertions all pass exactly when status, headers, raw body, JSON and grab all match |
| Execution.FailFastRun | tesuto.go:91-128 | with FatalFailure only the first failure is recorded; the run stops exactly when some assertion fails; the grab is decoded only when all earlier assertions passed |
| Execution.StatusReportedIff | tesuto.go:96-98 | a status mismatch is recorded exactly when an expected code is set and the response differs |
| Execution.HeaderReportedIff | tesuto.go:100-105 | a header mismatch is recorded only for a differing expected header, and under t.Errorf every such header is recorded |
| Execution.EmptyExpectationMatchesAbsentHeader | tesuto.go:101 | expecting "" of an absent header passes, because Header.Get returns "" |
| Execution.FatalConditionsAbort | tesuto.go:71-128 | build or transport errors and decode failures stop the run whatever the policy |
| Execution.AssessReadError | tesuto.go:85-88 | a read error adds a ReadError in front of what the assertions record |
| Execution.ReadErrorOnlyReported | tesuto.go:85-88 | a body read error is only recorded and changes nothing else |
| Execution.HeaderOrderIrrelevant | tesuto.go:100 | the map's iteration order changes neither abort, grab nor the number of failures, nor under t.Errorf which are recorded |
| Tesuto.TestCase.constructor | tesuto.go:36-41 | the testCase literal: method, path, an empty expected-header map, everything else zero |
| Tesuto.TestCase.Apply | tesuto.go:43 | opt(tc): the fields become the option applied to the old ones |
| Tesuto.TestCase.Run | tesuto.go:64-130 | the test function performs exactly the run Execute specifies |
| Tesuto.TestCase.Assert | tesuto.go:85-128 | the assertions on an arrived response record and stop exactly as Assess says |
| Tesuto.TestCase.AssertHead | tesuto.go:96-105 | the status check and header loop leave the verdict AfterHeaders specifies |
| Tesuto.CheckHeaders | tesuto.go:100-105 | the header loop, stopped early by a fail-fast mismatch, ends with the verdict of checking every key |
| Tesuto.AssertBody | tesuto.go:107-128 | raw, JSON and grab assertions record and stop as Finish specifies |
| Tesuto.Test | tesuto.go:35-46 | HTTP.Test: a fresh test case with every option applied in argument order |

## Left out

- The HTTP server, client and transport are not modelled; `Exchange` says whether building and sending the request worked and what came back.
- The effect of `WithCookieJar` on the client is not modelled; the jar is carried into the built request as a handle.
- `Built.jar` is the jar this test case binds, if any: the server's client is shared and `client.Jar` is only ever assigned (tesuto.go:66-69), so a jar bound by one test case stays on the client for later test cases on the same server, which the model does not capture.
- The test function is modelled as run once: `tc.input` is one reader that `http.NewRequest` wraps on every run and `client.Do` drains (tesuto.go:71,79), so a second run sends an empty body; the model treats the body as an unchanging term and does not model the reader's consumption.
- A nil `TestOption` in the options panics at `opt(tc)` (tesuto.go:43); `TestOption` has no nil case, so this is not representable.
- `json.Marshal`, `json.Unmarshal`, `reflect.New` and `cmp.Diff` are oracles: their outcomes are fields of `Exchange`, and the marshalled body is the term `Marshalled(previous body)`.
- The `panic` when `json.Marshal` fails (tesuto.go:147) is not modelled, because marshalling is an uninterpreted term here.
- The comparison-option constructors NotEmpty, IgnoreField, IgnoreUnexported, EquateApproxTime and SortSlices (tesuto.go:237-263) are carried as `CmpOption` data; their meaning belongs to go-cmp.
- `url.Values.Encode` is kept as the term `FormEncoded(values)`.
- `http.CanonicalHeaderKey` is a parameter with only its idempotence and its fixing of "Content-Type"; its actual rules are not modelled.
- ParseHTML and ParseURL (tesuto.go:265-279) are helpers outside the test-case pipeline.
- `t.Log` and `t.Logf` output and the text of failure messages are not modelled; a failure records its kind and the compared values.
- `HTTP.Test` returns the closure `tc.fn()`; the model returns the test case, and running the closure is `TestCase.Run`.
- The `server` field and `New` are not modelled; the server's URL prefix on the path is not represented.
- `defer resp.Body.Close()` is not modelled.
