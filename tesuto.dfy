/**
 * The test case itself: HTTP.Test allocates a testCase, applies every option to it in
 * argument order, and the function it returns performs one run of the test case.
 */
module Tesuto {
  import opened Http
  import opened Reporting
  import opened Mutators
  import opened Options
  import opened Execution

  /** testCase: the state the options write and the run reads. */
  class TestCase {
    const verb: string
    const path: string
    var mutators: seq<Mutator>
    var input: Reader
    var jar: Option<Handle>
    var expectCode: int
    var expectRaw: Option<Bytes>
    var expectJson: Option<Handle>
    var cmpOpts: seq<CmpOption>
    var expectHeaders: map<string, string>
    var grab: Option<Handle>
    var fatalFailure: bool

    /** The current value of every field. */
    function Snapshot(): Spec
      reads this
    {
      Spec(verb, path, mutators, input, jar, expectCode, expectRaw, expectJson, cmpOpts,
           expectHeaders, grab, fatalFailure)
    }

    /** The literal in HTTP.Test: method, path, an empty expected-header map, and
        every other field at its zero value. */
    constructor (verb: string, path: string)
      ensures Snapshot() == Fresh(verb, path)
    {
      this.verb := verb;
      this.path := path;
      mutators := [];
      input := NilReader;
      jar := None;
      expectCode := 0;
      expectRaw := None;
      expectJson := None;
      cmpOpts := [];
      expectHeaders := map[];
      grab := None;
      fatalFailure := false;
    }

    /** opt(tc): one TestOption closure run on this test case. */
    method Apply(o: TestOption)
      modifies this
      ensures Snapshot() == Applied(old(Snapshot()), o)
    {
      match o
      case WithInput(reader) =>
        input := reader;
      case WithJSONInput(_) =>
        input := Marshalled(input);
        mutators := mutators + [ContentTypeDefault(JsonMediaType)];
      case WithFormInput(values) =>
        input := FormEncoded(values);
        mutators := mutators + [ContentTypeDefault(FormMediaType)];
      case WithHeader(name, value) =>
        mutators := mutators + [HeaderMutator(name, value)];
      case WithCookieJar(j) =>
        jar := j;
      case ExpectStatusCode(code) =>
        expectCode := code;
      case ExpectHeader(name, value) =>
        expectHeaders := expectHeaders[name := value];
      case ExpectRawResponse(body) =>
        expectRaw := body;
      case ExpectJSONResponse(output, compareOpts) =>
        expectJson := output;
        cmpOpts := compareOpts;
      case GrabJSONResponse(out) =>
        grab := out;
      case FatalFailure =>
        fatalFailure := true;
    }

    /** One run of the test function; `ex` says what the network and the decoders did
        and `order` is the order in which the expected-header map is iterated. */
    method Run(canon: Canonicalizer, ex: Exchange, order: seq<string>) returns (o: Outcome)
      requires IsEnumeration(order, expectHeaders.Keys)
      ensures o == Execute(Snapshot(), canon, ex, order)
    {
      if !ex.buildOk {
        return Outcome(None, [BuildError], true, false);
      }
      var req := new Request(verb, path, input);
      for i := 0 to |mutators|
        invariant req.header == Replay(map[], canon, mutators[..i])
      {
        assert mutators[..i + 1][..i] == mutators[..i];
        req.Mutate(canon, mutators[i]);
      }
      assert mutators[..|mutators|] == mutators;
      var built := Some(Built(req.verb, req.path, req.body, req.header, jar));
      if !ex.transportOk {
        return Outcome(built, [TransportError], true, false);
      }

      var a := Assert(canon, ex, order);
      return Outcome(built, a.reported, a.aborted, a.grabAttempted);
    }

    /** The assertions on a response that arrived, in the order the test function
        makes them; a failure reported through t.Fatal ends the run on the spot. */
    method Assert(canon: Canonicalizer, ex: Exchange, order: seq<string>) returns (a: Assessment)
      requires forall i :: 0 <= i < |order| ==> order[i] in expectHeaders
      ensures a == Assess(Snapshot(), canon, ex, order)
    {
      var reported: seq<Failure> := [];
      if ex.readErr {
        reported := reported + [ReadError];
      }
      var found, aborted := AssertHead(canon, ex, order);
      reported := reported + found;
      if aborted {
        return Assessment(reported, true, false);
      }
      a := AssertBody(Snapshot(), ex, AfterHeaders(Snapshot(), canon, ex, order), ReadPart(ex), reported);
    }

    /** The status check and the loop over the expected headers. */
    method AssertHead(canon: Canonicalizer, ex: Exchange, order: seq<string>) returns (found: seq<Failure>, aborted: bool)
      requires forall i :: 0 <= i < |order| ==> order[i] in expectHeaders
      ensures found == AfterHeaders(Snapshot(), canon, ex, order).reported
      ensures aborted == AfterHeaders(Snapshot(), canon, ex, order).aborted
    {
      var wanted, failFast := expectHeaders, fatalFailure;
      found, aborted := [], false;
      if expectCode != 0 && ex.status != expectCode {
        found := found + [StatusMismatch(expectCode, ex.status)];
        aborted := failFast;
      }
      ghost var v1 := Step(Start, StatusCheck(Snapshot(), ex), failFast);
      assert found == v1.reported && aborted == v1.aborted;
      found, aborted := CheckHeaders(wanted, canon, ex.header, order, failFast, v1, found, aborted);
    }
  }

  /** for k, v := range tc.expectHeaders, continuing the run v1: every mismatch is
      reported through fail, and a fail-fast failure ends the loop and the run. */
  method CheckHeaders(wanted: map<string, string>, canon: Canonicalizer, got: Header, order: seq<string>,
                      failFast: bool, ghost v1: Verdict, found0: seq<Failure>, aborted0: bool)
    returns (found: seq<Failure>, aborted: bool)
    requires forall i :: 0 <= i < |order| ==> order[i] in wanted
    requires found0 == v1.reported && aborted0 == v1.aborted
    ensures found == Resume(v1, HeaderChecks(wanted, canon, got, order), failFast).reported
    ensures aborted == Resume(v1, HeaderChecks(wanted, canon, got, order), failFast).aborted
  {
    found, aborted := found0, aborted0;
    var j := 0;
    while j < |order| && !aborted
      invariant 0 <= j <= |order|
      invariant found == HeaderPrefix(v1, wanted, canon, got, order, j, failFast).reported
      invariant aborted == HeaderPrefix(v1, wanted, canon, got, order, j, failFast).aborted
    {
      var k := order[j];
      var want := wanted[k];
      var value := Get(got, canon, k);
      if value != want {
        found := found + [HeaderMismatch(k, want, value)];
        aborted := failFast;
      }
      HeaderPrefixSnoc(v1, wanted, canon, got, order, j, failFast);
      j := j + 1;
    }
    HeaderPrefixExit(v1, wanted, canon, got, order, j, failFast);
  }

  /** The raw-body, JSON and grab assertions of the test case s, once the status and
      header checks left the run h going; `reported` is what the run recorded so far. */
  method AssertBody(s: Spec, ex: Exchange, ghost h: Verdict, ghost read: seq<Failure>, reported0: seq<Failure>)
    returns (a: Assessment)
    requires !h.aborted && reported0 == read + h.reported
    ensures a == Finish(read, h, RawCheck(s, ex), JsonCheck(s, ex), GrabCheck(s, ex), s.fatalFailure, s.grab.Some?)
  {
    var reported := reported0;
    if s.expectRaw.Some? && s.expectRaw.value != ex.body {
      reported := reported + [RawMismatch(s.expectRaw.value, ex.body)];
      if s.fatalFailure {
        return Assessment(reported, true, false);
      }
    }

    if s.expectJson.Some? {
      if !ex.decodeOk {
        reported := reported + [JsonDecodeError];
        return Assessment(reported, true, false);
      }
      if !ex.diffEmpty {
        reported := reported + [JsonMismatch];
        if s.fatalFailure {
          return Assessment(reported, true, false);
        }
      }
    }

    if s.grab.Some? && !ex.grabOk {
      reported := reported + [GrabDecodeError];
      return Assessment(reported, true, true);
    }
    return Assessment(reported, false, s.grab.Some?);
  }

  /** HTTP.Test: a fresh test case with every option applied in argument order. */
  method Test(verb: string, path: string, opts: seq<TestOption>) returns (tc: TestCase)
    ensures fresh(tc)
    ensures tc.Snapshot() == Build(Fresh(verb, path), opts)
  {
    tc := new TestCase(verb, path);
    for i := 0 to |opts|
      invariant tc.Snapshot() == Build(Fresh(verb, path), opts[..i])
    {
      assert opts[..i + 1][..i] == opts[..i];
      tc.Apply(opts[i]);
    }
    assert opts[..|opts|] == opts;
  }
}
