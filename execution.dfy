/**
 * One run of a test case: build the request, replay the mutators, send it, read the
 * body, then assert on status, headers, raw body, decoded JSON and the grab target,
 * in that order, under the test case's failure policy. The network and the foreign
 * decoders are inputs: an Exchange says what they did.
 */
module Execution {
  import opened Http
  import opened Reporting
  import opened Mutators
  import opened Options

  /** What happened outside the model during one run. */
  datatype Exchange = Exchange(
    buildOk: bool,       // http.NewRequest returned no error
    transportOk: bool,   // client.Do returned a response
    status: int,         // resp.StatusCode
    header: Header,      // resp.Header
    body: Bytes,         // the bytes ioutil.ReadAll obtained
    readErr: bool,       // ioutil.ReadAll returned an error
    decodeOk: bool,      // json.Unmarshal into a fresh value of the expected type succeeded
    diffEmpty: bool,     // cmp.Diff of expected and decoded value was ""
    grabOk: bool)        // json.Unmarshal into the grab target succeeded

  /** The request as it was handed to the client, with the jar this test case binds to
      the client, if any. */
  datatype Built = Built(verb: string, path: string, body: Reader, header: Header, jar: Option<Handle>)

  /** What a run leaves behind: the request it built, what it recorded in order, whether
      it stopped early, and whether it got as far as decoding into the grab target. */
  datatype Outcome = Outcome(built: Option<Built>, reported: seq<Failure>, aborted: bool, grabAttempted: bool)

  /** order lists every key of keys exactly once: one possible iteration order of a Go map. */
  predicate IsEnumeration(order: seq<string>, keys: set<string>)
  {
    && (forall i :: 0 <= i < |order| ==> order[i] in keys)
    && (forall k :: k in keys ==> k in order)
    && (forall i, j :: 0 <= i < j < |order| ==> order[i] != order[j])
  }

  function StatusCheck(s: Spec, ex: Exchange): Check
  {
    if s.expectCode != 0 && ex.status != s.expectCode then Fail(StatusMismatch(s.expectCode, ex.status))
    else Pass
  }

  function HeaderCheck(wanted: map<string, string>, canon: Canonicalizer, got: Header, key: string): Check
    requires key in wanted
  {
    var value := Get(got, canon, key);
    if value != wanted[key] then Fail(HeaderMismatch(key, wanted[key], value)) else Pass
  }

  function HeaderChecks(wanted: map<string, string>, canon: Canonicalizer, got: Header, order: seq<string>): (r: seq<Check>)
    requires forall i :: 0 <= i < |order| ==> order[i] in wanted
    ensures |r| == |order|
    decreases |order|
  {
    if order == [] then []
    else
      var n := |order| - 1;
      HeaderChecks(wanted, canon, got, order[..n]) + [HeaderCheck(wanted, canon, got, order[n])]
  }

  /** The i-th header check is the check of the i-th key. */
  lemma {:induction false} HeaderChecksAt(wanted: map<string, string>, canon: Canonicalizer, got: Header, order: seq<string>)
    requires forall i :: 0 <= i < |order| ==> order[i] in wanted
    ensures forall i :: 0 <= i < |order| ==> HeaderChecks(wanted, canon, got, order)[i] == HeaderCheck(wanted, canon, got, order[i])
    decreases |order|
  {
    if order != [] {
      var n := |order| - 1;
      HeaderChecksAt(wanted, canon, got, order[..n]);
    }
  }

  /** The header checks of one more key of an order. */
  lemma HeaderChecksSnoc(wanted: map<string, string>, canon: Canonicalizer, got: Header, order: seq<string>, j: nat)
    requires forall i :: 0 <= i < |order| ==> order[i] in wanted
    requires j < |order|
    ensures HeaderChecks(wanted, canon, got, order[..j + 1])
         == HeaderChecks(wanted, canon, got, order[..j]) + [HeaderCheck(wanted, canon, got, order[j])]
  {
    assert order[..j + 1][..j] == order[..j];
  }

  /** The header checks of an order are those of its two parts, one after the other. */
  lemma HeaderChecksSplit(wanted: map<string, string>, canon: Canonicalizer, got: Header, order: seq<string>, j: nat)
    requires forall i :: 0 <= i < |order| ==> order[i] in wanted
    requires j <= |order|
    ensures HeaderChecks(wanted, canon, got, order)
         == HeaderChecks(wanted, canon, got, order[..j]) + HeaderChecks(wanted, canon, got, order[j..])
  {
    HeaderChecksAt(wanted, canon, got, order);
    HeaderChecksAt(wanted, canon, got, order[..j]);
    HeaderChecksAt(wanted, canon, got, order[j..]);
  }

  /** The run v continued by the header checks of the first j keys of order. */
  function HeaderPrefix(v: Verdict, wanted: map<string, string>, canon: Canonicalizer, got: Header,
                        order: seq<string>, j: nat, failFast: bool): Verdict
    requires forall i :: 0 <= i < |order| ==> order[i] in wanted
    requires j <= |order|
  {
    Resume(v, HeaderChecks(wanted, canon, got, order[..j]), failFast)
  }

  /** Checking the headers of one more key of an order is one more Step. */
  lemma HeaderPrefixSnoc(v: Verdict, wanted: map<string, string>, canon: Canonicalizer, got: Header,
                         order: seq<string>, j: nat, failFast: bool)
    requires forall i :: 0 <= i < |order| ==> order[i] in wanted
    requires j < |order|
    ensures HeaderPrefix(v, wanted, canon, got, order, j + 1, failFast)
         == Step(HeaderPrefix(v, wanted, canon, got, order, j, failFast), HeaderCheck(wanted, canon, got, order[j]), failFast)
  {
    HeaderChecksSnoc(wanted, canon, got, order, j);
    ResumeSnoc(v, HeaderChecks(wanted, canon, got, order[..j]), HeaderCheck(wanted, canon, got, order[j]), failFast);
  }

  /** Once the run stops in the middle of the header loop, the rest of the loop changes
      nothing. */
  lemma ResumeHeadersStopped(wanted: map<string, string>, canon: Canonicalizer, got: Header, order: seq<string>, j: nat,
                             v: Verdict, failFast: bool)
    requires forall i :: 0 <= i < |order| ==> order[i] in wanted
    requires j <= |order|
    requires Resume(v, HeaderChecks(wanted, canon, got, order[..j]), failFast).aborted
    ensures Resume(v, HeaderChecks(wanted, canon, got, order), failFast)
         == Resume(v, HeaderChecks(wanted, canon, got, order[..j]), failFast)
  {
    var rest := HeaderChecks(wanted, canon, got, order[j..]);
    HeaderChecksSplit(wanted, canon, got, order, j);
    ResumeConcat(v, HeaderChecks(wanted, canon, got, order[..j]), rest, failFast);
    AbortedIsFinal(Resume(v, HeaderChecks(wanted, canon, got, order[..j]), failFast), rest, failFast);
  }

  /** The header loop ends when every key was checked or the run stopped; either way it
      has the verdict of checking every key. */
  lemma HeaderPrefixExit(v: Verdict, wanted: map<string, string>, canon: Canonicalizer, got: Header,
                         order: seq<string>, j: nat, failFast: bool)
    requires forall i :: 0 <= i < |order| ==> order[i] in wanted
    requires j <= |order|
    requires j == |order| || HeaderPrefix(v, wanted, canon, got, order, j, failFast).aborted
    ensures Resume(v, HeaderChecks(wanted, canon, got, order), failFast)
         == HeaderPrefix(v, wanted, canon, got, order, j, failFast)
  {
    if j == |order| {
      assert order[..j] == order;
    } else {
      ResumeHeadersStopped(wanted, canon, got, order, j, v, failFast);
    }
  }

  function RawCheck(s: Spec, ex: Exchange): Check
  {
    match s.expectRaw
    case None => Pass
    case Some(want) => if want != ex.body then Fail(RawMismatch(want, ex.body)) else Pass
  }

  function JsonCheck(s: Spec, ex: Exchange): Check
  {
    if s.expectJson.None? then Pass
    else if !ex.decodeOk then Fatal(JsonDecodeError)
    else if !ex.diffEmpty then Fail(JsonMismatch)
    else Pass
  }

  function GrabCheck(s: Spec, ex: Exchange): Check
  {
    if s.grab.Some? && !ex.grabOk then Fatal(GrabDecodeError) else Pass
  }

  /** The assertions a run evaluates before decoding into the grab target, in order. */
  function PreGrabChecks(s: Spec, canon: Canonicalizer, ex: Exchange, order: seq<string>): (r: seq<Check>)
    requires forall i :: 0 <= i < |order| ==> order[i] in s.expectHeaders
    ensures |r| == |order| + 3
  {
    [StatusCheck(s, ex)] + HeaderChecks(s.expectHeaders, canon, ex.header, order)
      + [RawCheck(s, ex), JsonCheck(s, ex)]
  }

  /** All the assertions in the order a run evaluates them. */
  function Checks(s: Spec, canon: Canonicalizer, ex: Exchange, order: seq<string>): (r: seq<Check>)
    requires forall i :: 0 <= i < |order| ==> order[i] in s.expectHeaders
    ensures |r| == |order| + 4
  {
    PreGrabChecks(s, canon, ex, order) + [GrabCheck(s, ex)]
  }

  /** A body read error is recorded with t.Error before any assertion. */
  function ReadPart(ex: Exchange): seq<Failure>
  {
    if ex.readErr then [ReadError] else []
  }

  /** The run's verdict once the status and the expected headers have been checked. */
  function AfterHeaders(s: Spec, canon: Canonicalizer, ex: Exchange, order: seq<string>): Verdict
    requires forall i :: 0 <= i < |order| ==> order[i] in s.expectHeaders
  {
    var ff := s.fatalFailure;
    Resume(Step(Start, StatusCheck(s, ex), ff), HeaderChecks(s.expectHeaders, canon, ex.header, order), ff)
  }

  /** What the assertions of a run record, whether they stop it, and whether it gets as
      far as decoding into the grab target. */
  datatype Assessment = Assessment(reported: seq<Failure>, aborted: bool, grabAttempted: bool)

  /** The assertions after the header loop, continuing the verdict h: the raw body, the
      decoded JSON, then the grab target, which is decoded only if the run is still going. */
  function Finish(read: seq<Failure>, h: Verdict, rw: Check, js: Check, gb: Check, failFast: bool, grabbing: bool): Assessment
  {
    var pre := Step(Step(h, rw, failFast), js, failFast);
    var v := Step(pre, gb, failFast);
    Assessment(read + v.reported, v.aborted, grabbing && !pre.aborted)
  }

  /** What was recorded before the assertions stays in front of what they record. */
  lemma FinishReadPrefix(read: seq<Failure>, h: Verdict, rw: Check, js: Check, gb: Check, failFast: bool, grabbing: bool)
    ensures var a := Finish([], h, rw, js, gb, failFast, grabbing);
      Finish(read, h, rw, js, gb, failFast, grabbing) == a.(reported := read + a.reported)
  {
    var a := Finish([], h, rw, js, gb, failFast, grabbing);
    assert a.reported == Step(Step(Step(h, rw, failFast), js, failFast), gb, failFast).reported;
  }

  /** The part of a run after the response arrived: a read error is recorded, then the
      assertions are evaluated stage by stage under the test case's policy. */
  function Assess(s: Spec, canon: Canonicalizer, ex: Exchange, order: seq<string>): Assessment
    requires forall i :: 0 <= i < |order| ==> order[i] in s.expectHeaders
  {
    Finish(ReadPart(ex), AfterHeaders(s, canon, ex, order), RawCheck(s, ex), JsonCheck(s, ex),
           GrabCheck(s, ex), s.fatalFailure, s.grab.Some?)
  }

  /** The run, with `order` the order in which the expected-header map is iterated. */
  function Execute(s: Spec, canon: Canonicalizer, ex: Exchange, order: seq<string>): Outcome
    requires IsEnumeration(order, s.expectHeaders.Keys)
  {
    if !ex.buildOk then Outcome(None, [BuildError], true, false)
    else
      var built := Some(Built(s.verb, s.path, s.input, Replay(map[], canon, s.mutators), s.jar));
      if !ex.transportOk then Outcome(built, [TransportError], true, false)
      else
        var a := Assess(s, canon, ex, order);
        Outcome(built, a.reported, a.aborted, a.grabAttempted)
  }

  // Reference definitions, stated on failures rather than on checks.

  /** The keys a sequence lists. */
  function KeysOf(order: seq<string>): set<string>
  {
    set k | k in order
  }

  /** The header mismatches among the given expected keys. */
  function MismatchesAmong(wanted: map<string, string>, canon: Canonicalizer, got: Header, keys: set<string>): set<Failure>
    requires keys <= wanted.Keys
  {
    set k | k in keys && Get(got, canon, k) != wanted[k] :: HeaderMismatch(k, wanted[k], Get(got, canon, k))
  }

  /** Every expected header whose first received value (or "") differs from it. */
  function HeaderMismatches(s: Spec, canon: Canonicalizer, ex: Exchange): set<Failure>
  {
    MismatchesAmong(s.expectHeaders, canon, ex.header, s.expectHeaders.Keys)
  }

  /** hs lists the elements of fs, each once, in some order. */
  ghost predicate IsArrangement(hs: seq<Failure>, fs: set<Failure>)
  {
    (forall f :: f in hs <==> f in fs) && |hs| == |fs|
  }

  /** What a report-and-continue run records for each stage other than the headers. */
  function StatusPart(s: Spec, ex: Exchange): seq<Failure>
  {
    if s.expectCode != 0 && ex.status != s.expectCode then [StatusMismatch(s.expectCode, ex.status)] else []
  }

  function RawPart(s: Spec, ex: Exchange): seq<Failure>
  {
    if s.expectRaw.Some? && s.expectRaw.value != ex.body then [RawMismatch(s.expectRaw.value, ex.body)] else []
  }

  function JsonPart(s: Spec, ex: Exchange): seq<Failure>
  {
    if s.expectJson.None? then []
    else if !ex.decodeOk then [JsonDecodeError]
    else if !ex.diffEmpty then [JsonMismatch]
    else []
  }

  /** The grab target is decoded into unless a failed JSON decode stopped the run. */
  function GrabPart(s: Spec, ex: Exchange): seq<Failure>
  {
    if !(s.expectJson.Some? && !ex.decodeOk) && s.grab.Some? && !ex.grabOk then [GrabDecodeError] else []
  }

  /** What a report-and-continue run records, with hs the header mismatches in the order
      they were met. */
  function AccumulatedReport(s: Spec, ex: Exchange, hs: seq<Failure>): seq<Failure>
  {
    ReadPart(ex) + StatusPart(s, ex) + hs + RawPart(s, ex) + JsonPart(s, ex) + GrabPart(s, ex)
  }

  /** Every assertion before the grab holds. */
  predicate PassesBeforeGrab(s: Spec, canon: Canonicalizer, ex: Exchange)
  {
    && (s.expectCode == 0 || ex.status == s.expectCode)
    && (forall k :: k in s.expectHeaders ==> Get(ex.header, canon, k) == s.expectHeaders[k])
    && (s.expectRaw.None? || s.expectRaw.value == ex.body)
    && (s.expectJson.None? || (ex.decodeOk && ex.diffEmpty))
  }

  predicate AllChecksPass(s: Spec, canon: Canonicalizer, ex: Exchange)
  {
    PassesBeforeGrab(s, canon, ex) && (s.grab.None? || ex.grabOk)
  }

  // Lemmas.

  /** The header mismatches among some keys name only those keys. */
  lemma MismatchesAmongNames(wanted: map<string, string>, canon: Canonicalizer, got: Header, keys: set<string>, f: Failure)
    requires keys <= wanted.Keys
    requires f in MismatchesAmong(wanted, canon, got, keys)
    ensures f.HeaderMismatch? && f.name in keys && f.wantValue == wanted[f.name]
    ensures f.gotValue == Get(got, canon, f.name) && f.gotValue != f.wantValue
  {
  }

  /** One more expected key adds its mismatch, if it has one, and nothing else. */
  lemma MismatchesAmongInsert(wanted: map<string, string>, canon: Canonicalizer, got: Header, keys: set<string>, x: string)
    requires keys <= wanted.Keys && x in wanted
    ensures var value := Get(got, canon, x);
      MismatchesAmong(wanted, canon, got, keys + {x})
        == MismatchesAmong(wanted, canon, got, keys)
         + (if value != wanted[x] then {HeaderMismatch(x, wanted[x], value)} else {})
  {
  }

  /** Appending a new element to an arrangement of fs arranges fs with it. */
  lemma ArrangementSnoc(hs: seq<Failure>, fs: set<Failure>, f: Failure)
    requires IsArrangement(hs, fs) && f !in fs
    ensures IsArrangement(hs + [f], fs + {f})
  {
    assert |fs + {f}| == |fs| + 1;
  }

  /** The header checks of one more key record its mismatch, if any, after the others. */
  lemma HeaderFailuresSnoc(wanted: map<string, string>, canon: Canonicalizer, got: Header, order: seq<string>)
    requires forall i :: 0 <= i < |order| ==> order[i] in wanted
    requires order != []
    ensures var n := |order| - 1;
      var x := order[n];
      var value := Get(got, canon, x);
      Failures(HeaderChecks(wanted, canon, got, order))
        == Failures(HeaderChecks(wanted, canon, got, order[..n]))
         + (if value != wanted[x] then [HeaderMismatch(x, wanted[x], value)] else [])
  {
    var n := |order| - 1;
    var hc := HeaderChecks(wanted, canon, got, order);
    assert hc[..n] == HeaderChecks(wanted, canon, got, order[..n]);
  }

  /** The keys of a sequence without repetitions, one more at a time. */
  lemma KeysSnoc(order: seq<string>)
    requires order != []
    requires forall i, j :: 0 <= i < j < |order| ==> order[i] != order[j]
    ensures var n := |order| - 1;
      && KeysOf(order) == (KeysOf(order[..n])) + {order[n]}
      && order[n] !in (KeysOf(order[..n]))
  {
    var n := |order| - 1;
    assert order == order[..n] + [order[n]];
  }

  /** Checking one more key keeps the header failures an arrangement of the mismatches. */
  lemma HeaderArrangementSnoc(wanted: map<string, string>, canon: Canonicalizer, got: Header, order: seq<string>)
    requires forall i :: 0 <= i < |order| ==> order[i] in wanted
    requires forall i, j :: 0 <= i < j < |order| ==> order[i] != order[j]
    requires order != []
    requires IsArrangement(Failures(HeaderChecks(wanted, canon, got, order[..|order| - 1])),
                           MismatchesAmong(wanted, canon, got, KeysOf(order[..|order| - 1])))
    ensures IsArrangement(Failures(HeaderChecks(wanted, canon, got, order)),
                          MismatchesAmong(wanted, canon, got, KeysOf(order)))
  {
    var n := |order| - 1;
    var p, x := order[..n], order[n];
    var keys' := KeysOf(p);
    var hs' := Failures(HeaderChecks(wanted, canon, got, p));
    var fs' := MismatchesAmong(wanted, canon, got, keys');
    var value := Get(got, canon, x);
    var hm := HeaderMismatch(x, wanted[x], value);
    var mismatch := value != wanted[x];
    assert Failures(HeaderChecks(wanted, canon, got, order)) == hs' + (if mismatch then [hm] else []) by {
      HeaderFailuresSnoc(wanted, canon, got, order);
    }
    assert MismatchesAmong(wanted, canon, got, KeysOf(order)) == fs' + (if mismatch then {hm} else {}) by {
      KeysSnoc(order);
      MismatchesAmongInsert(wanted, canon, got, keys', x);
    }
    if mismatch {
      assert hm !in fs' by {
        KeysSnoc(order);
        if hm in fs' {
          MismatchesAmongNames(wanted, canon, got, keys', hm);
        }
      }
      ArrangementSnoc(hs', fs', hm);
    } else {
      assert hs' + [] == hs';
      assert fs' + {} == fs';
    }
  }

  /** The header checks record each mismatching expected header exactly once, and
      nothing else, whatever the iteration order. */
  lemma {:induction false} HeaderFailuresArrangeMismatches(
    wanted: map<string, string>, canon: Canonicalizer, got: Header, order: seq<string>)
    requires forall i :: 0 <= i < |order| ==> order[i] in wanted
    requires forall i, j :: 0 <= i < j < |order| ==> order[i] != order[j]
    ensures IsArrangement(Failures(HeaderChecks(wanted, canon, got, order)),
                          MismatchesAmong(wanted, canon, got, KeysOf(order)))
    decreases |order|
  {
    if order == [] {
      assert KeysOf(order) == {};
    } else {
      HeaderFailuresArrangeMismatches(wanted, canon, got, order[..|order| - 1]);
      HeaderArrangementSnoc(wanted, canon, got, order);
    }
  }

  /** For an iteration order of the whole map, the header failures are an arrangement of
      HeaderMismatches. */
  lemma HeaderFailuresForEnumeration(s: Spec, canon: Canonicalizer, ex: Exchange, order: seq<string>)
    requires IsEnumeration(order, s.expectHeaders.Keys)
    ensures IsArrangement(Failures(HeaderChecks(s.expectHeaders, canon, ex.header, order)), HeaderMismatches(s, canon, ex))
  {
    HeaderFailuresArrangeMismatches(s.expectHeaders, canon, ex.header, order);
    assert KeysOf(order) == s.expectHeaders.Keys;
  }

  /** The header checks all pass exactly when every expected header matches. */
  lemma HeaderChecksPassIff(s: Spec, canon: Canonicalizer, ex: Exchange, order: seq<string>)
    requires IsEnumeration(order, s.expectHeaders.Keys)
    ensures Failures(HeaderChecks(s.expectHeaders, canon, ex.header, order)) == []
        <==> forall k :: k in s.expectHeaders ==> Get(ex.header, canon, k) == s.expectHeaders[k]
  {
    var hc := HeaderChecks(s.expectHeaders, canon, ex.header, order);
    AllPassIffNoFailures(hc);
    HeaderChecksAt(s.expectHeaders, canon, ex.header, order);
    if exists k :: k in s.expectHeaders && Get(ex.header, canon, k) != s.expectHeaders[k] {
      var k :| k in s.expectHeaders && Get(ex.header, canon, k) != s.expectHeaders[k];
      var i :| 0 <= i < |order| && order[i] == k;
      assert !hc[i].Pass?;
    }
  }

  /** The run up to the grab, stage by stage in the order the code evaluates them. */
  lemma PreGrabStages(s: Spec, canon: Canonicalizer, ex: Exchange, order: seq<string>)
    requires forall i :: 0 <= i < |order| ==> order[i] in s.expectHeaders
    ensures var ff := s.fatalFailure;
      var hc := HeaderChecks(s.expectHeaders, canon, ex.header, order);
      && AfterHeaders(s, canon, ex, order) == Resume(Step(Start, StatusCheck(s, ex), ff), hc, ff)
      && Policy(PreGrabChecks(s, canon, ex, order), ff)
         == Step(Step(AfterHeaders(s, canon, ex, order), RawCheck(s, ex), ff), JsonCheck(s, ex), ff)
      && Failures(PreGrabChecks(s, canon, ex, order))
         == Failures([StatusCheck(s, ex)]) + Failures(hc) + Failures([RawCheck(s, ex)]) + Failures([JsonCheck(s, ex)])
  {
    var ff := s.fatalFailure;
    var hc := HeaderChecks(s.expectHeaders, canon, ex.header, order);
    var st, rw, js := StatusCheck(s, ex), RawCheck(s, ex), JsonCheck(s, ex);
    assert PreGrabChecks(s, canon, ex, order) == [st] + hc + [rw] + [js];
    assert [] + [st] == [st];
    ResumeSnoc(Start, [], st, ff);
    ResumeConcat(Start, [st], hc, ff);
    ResumeSnoc(Start, [st] + hc, rw, ff);
    ResumeSnoc(Start, [st] + hc + [rw], js, ff);
    FailuresConcat([st], hc);
    FailuresConcat([st] + hc, [rw]);
    FailuresConcat([st] + hc + [rw], [js]);
  }

  /** The run after the response arrived is the test case's policy applied to the
      assertions in evaluation order, after recording a read error; the grab target is
      decoded into exactly when the assertions before it left the run going. */
  lemma AssessIsPolicy(s: Spec, canon: Canonicalizer, ex: Exchange, order: seq<string>)
    requires forall i :: 0 <= i < |order| ==> order[i] in s.expectHeaders
    ensures var pre := Policy(PreGrabChecks(s, canon, ex, order), s.fatalFailure);
      var v := Step(pre, GrabCheck(s, ex), s.fatalFailure);
      Assess(s, canon, ex, order) == Assessment(ReadPart(ex) + v.reported, v.aborted, s.grab.Some? && !pre.aborted)
  {
    PreGrabStages(s, canon, ex, order);
  }

  /** A run evaluates exactly Checks under the test case's policy, after recording a
      read error, and decodes into the grab target exactly when it evaluated every
      check. */
  lemma ExecuteIsPolicy(s: Spec, canon: Canonicalizer, ex: Exchange, order: seq<string>)
    requires IsEnumeration(order, s.expectHeaders.Keys)
    requires ex.buildOk && ex.transportOk
    ensures var o := Execute(s, canon, ex, order);
      var v := Policy(Checks(s, canon, ex, order), s.fatalFailure);
      && o.reported == ReadPart(ex) + v.reported
      && o.aborted == v.aborted
      && (o.grabAttempted <==> s.grab.Some? && v.ran == |Checks(s, canon, ex, order)|)
  {
    var pre := PreGrabChecks(s, canon, ex, order);
    AssessIsPolicy(s, canon, ex, order);
    ResumeSnoc(Start, pre, GrabCheck(s, ex), s.fatalFailure);
    RanBound(Start, pre, s.fatalFailure);
  }

  /** Everything a run records is a read error or the failure of one of its checks. */
  lemma ReportedSources(s: Spec, canon: Canonicalizer, ex: Exchange, order: seq<string>, f: Failure)
    requires IsEnumeration(order, s.expectHeaders.Keys)
    requires ex.buildOk && ex.transportOk
    requires f in Execute(s, canon, ex, order).reported
    ensures || (f == ReadError && ex.readErr)
            || (f == StatusMismatch(s.expectCode, ex.status) && s.expectCode != 0 && ex.status != s.expectCode)
            || f in HeaderMismatches(s, canon, ex)
            || (s.expectRaw.Some? && f == RawMismatch(s.expectRaw.value, ex.body) && s.expectRaw.value != ex.body)
            || (f == JsonDecodeError && s.expectJson.Some? && !ex.decodeOk)
            || (f == JsonMismatch && s.expectJson.Some? && ex.decodeOk && !ex.diffEmpty)
            || (f == GrabDecodeError && s.grab.Some? && !ex.grabOk)
  {
    var ff := s.fatalFailure;
    var pre := PreGrabChecks(s, canon, ex, order);
    var checks := Checks(s, canon, ex, order);
    var hc := HeaderChecks(s.expectHeaders, canon, ex.header, order);
    var st, rw, js, gb := StatusCheck(s, ex), RawCheck(s, ex), JsonCheck(s, ex), GrabCheck(s, ex);
    var fs := Failures(checks);
    assert f in ReadPart(ex) || f in fs by {
      ExecuteIsPolicy(s, canon, ex, order);
      ReportedArePrefix(Start, checks, ff);
    }
    if f in fs {
      assert fs == Failures([st]) + Failures(hc) + Failures([rw]) + Failures([js]) + Failures([gb]) by {
        FailuresConcat(pre, [gb]);
        PreGrabStages(s, canon, ex, order);
      }
      if f in Failures(hc) {
        HeaderFailuresForEnumeration(s, canon, ex, order);
      } else if f in Failures([st]) {
        FailuresSingle(st);
      } else if f in Failures([rw]) {
        FailuresSingle(rw);
      } else if f in Failures([js]) {
        FailuresSingle(js);
      } else {
        assert f in Failures([gb]);
        FailuresSingle(gb);
      }
    }
  }

  /** Report-and-continue over the stage shape of a run: a check, a run of checks, and
      three more, where only the last two can be fatal. */
  lemma StagesAccumulate(read: seq<Failure>, st: Check, hc: seq<Check>, rw: Check, js: Check, gb: Check, grabbing: bool)
    requires !st.Fatal? && NoFatal(hc) && !rw.Fatal?
    ensures var a := Finish(read, Resume(Step(Start, st, false), hc, false), rw, js, gb, false, grabbing);
      && a.reported == read + (Failures([st]) + Failures(hc) + Failures([rw]) + Failures([js])
                               + (if js.Fatal? then [] else Failures([gb])))
      && a.aborted == (js.Fatal? || gb.Fatal?)
      && a.grabAttempted == (grabbing && !js.Fatal?)
  {
    var v1 := Step(Start, st, false);
    StepAccumulates(Start, st);
    var v2 := Resume(v1, hc, false);
    AccumulateAll(v1, hc);
    var v3 := Step(v2, rw, false);
    StepAccumulates(v2, rw);
    var v4 := Step(v3, js, false);
    StepAccumulates(v3, js);
    if !js.Fatal? {
      StepAccumulates(v4, gb);
    }
  }

  /** Whatever the policy, the later stages keep what the first check recorded. */
  lemma StagesKeepFirst(st: Check, hc: seq<Check>, rw: Check, js: Check, gb: Check, failFast: bool)
    ensures var v1 := Step(Start, st, failFast);
      v1.reported <= Step(Step(Step(Resume(v1, hc, failFast), rw, failFast), js, failFast), gb, failFast).reported
  {
    ReportedArePrefix(Step(Start, st, failFast), hc, failFast);
  }

  /** Report-and-continue, stage by stage: what each stage adds to the record. */
  lemma AccumulatingStages(s: Spec, canon: Canonicalizer, ex: Exchange, order: seq<string>)
    requires forall i :: 0 <= i < |order| ==> order[i] in s.expectHeaders
    requires !s.fatalFailure
    ensures var o := Assess(s, canon, ex, order);
      var jsonFatal := s.expectJson.Some? && !ex.decodeOk;
      var hs := Failures(HeaderChecks(s.expectHeaders, canon, ex.header, order));
      && o.reported == ReadPart(ex) + (StatusPart(s, ex) + hs + RawPart(s, ex) + JsonPart(s, ex) + GrabPart(s, ex))
      && (o.aborted <==> jsonFatal || (s.grab.Some? && !ex.grabOk))
      && (o.grabAttempted <==> s.grab.Some? && !jsonFatal)
  {
    var hc := HeaderChecks(s.expectHeaders, canon, ex.header, order);
    var st, rw, js, gb := StatusCheck(s, ex), RawCheck(s, ex), JsonCheck(s, ex), GrabCheck(s, ex);
    assert NoFatal(hc) by {
      HeaderChecksAt(s.expectHeaders, canon, ex.header, order);
    }
    assert Assess(s, canon, ex, order)
        == Finish(ReadPart(ex), Resume(Step(Start, st, false), hc, false), rw, js, gb, false, s.grab.Some?);
    StagesAccumulate(ReadPart(ex), st, hc, rw, js, gb, s.grab.Some?);
    PartsAreFailures(s, ex);
  }

  /** What each stage other than the headers records, as a sequence of failures. */
  lemma PartsAreFailures(s: Spec, ex: Exchange)
    ensures Failures([StatusCheck(s, ex)]) == StatusPart(s, ex)
    ensures Failures([RawCheck(s, ex)]) == RawPart(s, ex)
    ensures Failures([JsonCheck(s, ex)]) == JsonPart(s, ex)
    ensures (if JsonCheck(s, ex).Fatal? then [] else Failures([GrabCheck(s, ex)])) == GrabPart(s, ex)
  {
    FailuresSingle(StatusCheck(s, ex));
    FailuresSingle(RawCheck(s, ex));
    FailuresSingle(JsonCheck(s, ex));
    FailuresSingle(GrabCheck(s, ex));
  }

  /** Report-and-continue (no FatalFailure): every mismatch of status, headers, raw
      body and JSON diff is recorded exactly once, in stage order, after a read error if
      there was one; only a decode failure stops the run, and the grab target is
      decoded into unless the JSON decode already stopped it. */
  lemma AccumulatingRun(s: Spec, canon: Canonicalizer, ex: Exchange, order: seq<string>)
    requires IsEnumeration(order, s.expectHeaders.Keys)
    requires !s.fatalFailure && ex.buildOk && ex.transportOk
    ensures var o := Execute(s, canon, ex, order);
      var jsonFatal := s.expectJson.Some? && !ex.decodeOk;
      && (o.aborted <==> jsonFatal || (s.grab.Some? && !ex.grabOk))
      && (o.grabAttempted <==> s.grab.Some? && !jsonFatal)
      && exists hs :: IsArrangement(hs, HeaderMismatches(s, canon, ex)) && o.reported == AccumulatedReport(s, ex, hs)
  {
    var hs := Failures(HeaderChecks(s.expectHeaders, canon, ex.header, order));
    AccumulatingStages(s, canon, ex, order);
    var rd, st, rw, js, gb := ReadPart(ex), StatusPart(s, ex), RawPart(s, ex), JsonPart(s, ex), GrabPart(s, ex);
    AppendAssoc(rd, st + hs + rw + js, gb);
    AppendAssoc(rd, st + hs + rw, js);
    AppendAssoc(rd, st + hs, rw);
    AppendAssoc(rd, st, hs);
    HeaderFailuresForEnumeration(s, canon, ex, order);
    assert IsArrangement(hs, HeaderMismatches(s, canon, ex));
  }

  /** The stages before the grab pass exactly when PassesBeforeGrab holds, and all of
      them exactly when AllChecksPass does. */
  lemma ChecksPassIff(s: Spec, canon: Canonicalizer, ex: Exchange, order: seq<string>)
    requires IsEnumeration(order, s.expectHeaders.Keys)
    ensures AllPass(PreGrabChecks(s, canon, ex, order)) <==> PassesBeforeGrab(s, canon, ex)
    ensures AllPass(Checks(s, canon, ex, order)) <==> AllChecksPass(s, canon, ex)
  {
    var pre := PreGrabChecks(s, canon, ex, order);
    PreGrabStages(s, canon, ex, order);
    HeaderChecksPassIff(s, canon, ex, order);
    FailuresConcat(pre, [GrabCheck(s, ex)]);
    AllPassIffNoFailures(pre);
    AllPassIffNoFailures(Checks(s, canon, ex, order));
  }

  /** Fail-fast (FatalFailure): after a read error if there was one, the run records
      the failure of the first assertion in evaluation order that does not pass and
      nothing else; it stops exactly when some assertion does not pass, and the grab
      target is decoded into only when every earlier assertion passed. */
  lemma FailFastRun(s: Spec, canon: Canonicalizer, ex: Exchange, order: seq<string>)
    requires IsEnumeration(order, s.expectHeaders.Keys)
    requires s.fatalFailure && ex.buildOk && ex.transportOk
    ensures var o := Execute(s, canon, ex, order);
      var fs := Failures(Checks(s, canon, ex, order));
      && o.reported == ReadPart(ex) + (if fs == [] then [] else [fs[0]])
      && (o.aborted <==> !AllChecksPass(s, canon, ex))
      && |o.reported| == |ReadPart(ex)| + (if AllChecksPass(s, canon, ex) then 0 else 1)
      && (o.grabAttempted <==> s.grab.Some? && PassesBeforeGrab(s, canon, ex))
  {
    var o := Execute(s, canon, ex, order);
    var checks := Checks(s, canon, ex, order);
    var fs := Failures(checks);
    assert o.reported == ReadPart(ex) + (if fs == [] then [] else [fs[0]])
        && (o.aborted <==> !AllPass(checks)) by {
      ExecuteIsPolicy(s, canon, ex, order);
      FailFastFirstFailure(Start, checks);
    }
    assert AllPass(checks) <==> AllChecksPass(s, canon, ex) by {
      ChecksPassIff(s, canon, ex, order);
    }
    assert fs == [] <==> AllChecksPass(s, canon, ex) by {
      AllPassIffNoFailures(checks);
    }
    assert o.grabAttempted <==> s.grab.Some? && PassesBeforeGrab(s, canon, ex) by {
      AssessIsPolicy(s, canon, ex, order);
      FailFastFirstFailure(Start, PreGrabChecks(s, canon, ex, order));
      ChecksPassIff(s, canon, ex, order);
    }
  }

  /** The status check is recorded, whatever the policy, exactly when an expected code
      was set and the response's differs from it. */
  lemma StatusReportedIff(s: Spec, canon: Canonicalizer, ex: Exchange, order: seq<string>, want: int, got: int)
    requires IsEnumeration(order, s.expectHeaders.Keys)
    requires ex.buildOk && ex.transportOk
    ensures StatusMismatch(want, got) in Execute(s, canon, ex, order).reported
       <==> s.expectCode != 0 && want == s.expectCode && got == ex.status && got != want
  {
    var sm := StatusMismatch(want, got);
    var o := Execute(s, canon, ex, order);
    if sm in o.reported {
      ReportedSources(s, canon, ex, order, sm);
      if sm in HeaderMismatches(s, canon, ex) {
        MismatchesAmongNames(s.expectHeaders, canon, ex.header, s.expectHeaders.Keys, sm);
      }
    }
    if s.expectCode != 0 && want == s.expectCode && got == ex.status && got != want {
      var ff := s.fatalFailure;
      var hc := HeaderChecks(s.expectHeaders, canon, ex.header, order);
      var st, rw, js, gb := StatusCheck(s, ex), RawCheck(s, ex), JsonCheck(s, ex), GrabCheck(s, ex);
      StagesKeepFirst(st, hc, rw, js, gb, ff);
      assert Step(Start, st, ff).reported == [sm];
      assert o.reported == ReadPart(ex) + Step(Step(Step(Resume(Step(Start, st, ff), hc, ff), rw, ff), js, ff), gb, ff).reported;
      assert o.reported[|ReadPart(ex)|] == sm;
    }
  }

  /** A header mismatch is recorded only for an expected header whose first received
      value (or "" when absent) differs from it, and under report-and-continue every
      such header is recorded. */
  lemma HeaderReportedIff(s: Spec, canon: Canonicalizer, ex: Exchange, order: seq<string>, k: string, want: string, got: string)
    requires IsEnumeration(order, s.expectHeaders.Keys)
    requires ex.buildOk && ex.transportOk
    ensures HeaderMismatch(k, want, got) in Execute(s, canon, ex, order).reported
        ==> k in s.expectHeaders && want == s.expectHeaders[k] && got == Get(ex.header, canon, k) && got != want
    ensures !s.fatalFailure && k in s.expectHeaders && Get(ex.header, canon, k) != s.expectHeaders[k]
        ==> HeaderMismatch(k, s.expectHeaders[k], Get(ex.header, canon, k)) in Execute(s, canon, ex, order).reported
  {
    var hm := HeaderMismatch(k, want, got);
    if hm in Execute(s, canon, ex, order).reported {
      ReportedSources(s, canon, ex, order, hm);
      MismatchesAmongNames(s.expectHeaders, canon, ex.header, s.expectHeaders.Keys, hm);
    }
    if !s.fatalFailure && k in s.expectHeaders && Get(ex.header, canon, k) != s.expectHeaders[k] {
      AccumulatingRun(s, canon, ex, order);
      var hs :| IsArrangement(hs, HeaderMismatches(s, canon, ex))
             && Execute(s, canon, ex, order).reported == AccumulatedReport(s, ex, hs);
      assert HeaderMismatch(k, s.expectHeaders[k], Get(ex.header, canon, k)) in hs;
    }
  }

  /** Expecting "" of a header the response does not carry passes. */
  lemma EmptyExpectationMatchesAbsentHeader(s: Spec, canon: Canonicalizer, ex: Exchange, order: seq<string>, k: string)
    requires IsEnumeration(order, s.expectHeaders.Keys)
    requires ex.buildOk && ex.transportOk
    requires k in s.expectHeaders && s.expectHeaders[k] == "" && canon(k) !in ex.header
    ensures forall want, got :: HeaderMismatch(k, want, got) !in Execute(s, canon, ex, order).reported
  {
    forall want, got ensures HeaderMismatch(k, want, got) !in Execute(s, canon, ex, order).reported {
      HeaderReportedIff(s, canon, ex, order, k, want, got);
    }
  }

  /** Request-build and transport errors, and a failed decode of the response for the
      JSON comparison or the grab target, stop the run whatever the policy; after a
      failed JSON decode the grab target is not decoded into. */
  lemma FatalConditionsAbort(s: Spec, canon: Canonicalizer, ex: Exchange, order: seq<string>)
    requires IsEnumeration(order, s.expectHeaders.Keys)
    ensures var o := Execute(s, canon, ex, order);
      && (!ex.buildOk || !ex.transportOk ==> o.aborted && |o.reported| == 1 && !o.grabAttempted)
      && (ex.buildOk && ex.transportOk && s.expectJson.Some? && !ex.decodeOk ==> o.aborted && !o.grabAttempted)
      && (ex.buildOk && ex.transportOk && s.grab.Some? && !ex.grabOk ==> o.aborted)
  {
  }

  lemma AssessReadError(s: Spec, canon: Canonicalizer, ex: Exchange, order: seq<string>)
    requires forall i :: 0 <= i < |order| ==> order[i] in s.expectHeaders
    ensures var a := Assess(s, canon, ex.(readErr := false), order);
      Assess(s, canon, ex.(readErr := true), order) == a.(reported := [ReadError] + a.reported)
  {
    var e0, e1 := ex.(readErr := false), ex.(readErr := true);
    var h, rw, js, gb := AfterHeaders(s, canon, e0, order), RawCheck(s, e0), JsonCheck(s, e0), GrabCheck(s, e0);
    assert AfterHeaders(s, canon, e1, order) == h by {
      assert StatusCheck(s, e1) == StatusCheck(s, e0) && e1.header == e0.header;
    }
    assert RawCheck(s, e1) == rw && JsonCheck(s, e1) == js && GrabCheck(s, e1) == gb;
    FinishReadPrefix([ReadError], h, rw, js, gb, s.fatalFailure, s.grab.Some?);
  }

  /** A body read error is only reported: it adds one ReadError in front and changes
      nothing else, under either policy. */
  lemma ReadErrorOnlyReported(s: Spec, canon: Canonicalizer, ex: Exchange, order: seq<string>)
    requires IsEnumeration(order, s.expectHeaders.Keys)
    requires ex.buildOk && ex.transportOk
    ensures var o := Execute(s, canon, ex.(readErr := false), order);
      Execute(s, canon, ex.(readErr := true), order) == o.(reported := [ReadError] + o.reported)
  {
    AssessReadError(s, canon, ex, order);
  }

  /** The iteration order of the expected-header map does not change whether the run
      stops, whether the grab target is decoded into, or how many failures are
      recorded; under report-and-continue it does not change which are recorded. */
  lemma HeaderOrderIrrelevant(s: Spec, canon: Canonicalizer, ex: Exchange, order1: seq<string>, order2: seq<string>)
    requires IsEnumeration(order1, s.expectHeaders.Keys) && IsEnumeration(order2, s.expectHeaders.Keys)
    ensures var o1, o2 := Execute(s, canon, ex, order1), Execute(s, canon, ex, order2);
      && o1.aborted == o2.aborted
      && o1.grabAttempted == o2.grabAttempted
      && |o1.reported| == |o2.reported|
      && (!s.fatalFailure ==> forall f :: f in o1.reported <==> f in o2.reported)
  {
    if ex.buildOk && ex.transportOk {
      if s.fatalFailure {
        FailFastRun(s, canon, ex, order1);
        FailFastRun(s, canon, ex, order2);
      } else {
        AccumulatingRun(s, canon, ex, order1);
        AccumulatingRun(s, canon, ex, order2);
        var hs1 :| IsArrangement(hs1, HeaderMismatches(s, canon, ex))
                && Execute(s, canon, ex, order1).reported == AccumulatedReport(s, ex, hs1);
        var hs2 :| IsArrangement(hs2, HeaderMismatches(s, canon, ex))
                && Execute(s, canon, ex, order2).reported == AccumulatedReport(s, ex, hs2);
      }
    }
  }
}
