/**
 * The test-case specification and the options that configure it. A test case starts
 * from a fixed blank state; each option then overwrites the fields it owns, except
 * ExpectHeader, which inserts or overwrites one key, and the body-encoding and header
 * options, which append a request mutator.
 */
module Options {
  import opened Http
  import opened Mutators

  /** The comparison options a caller can hand to ExpectJSONResponse. Their meaning
      belongs to go-cmp and is not modelled; they are carried as they were given. */
  datatype CmpOption =
    | NotEmpty(path: string)
    | IgnoreField(path: string)
    | IgnoreUnexported(types: seq<Handle>)
    | EquateApproxTime(margin: int)
    | SortSlices(less: Handle)
    | OtherCmpOption(option: Handle)

  /** A TestOption; None stands for Go's nil. */
  datatype TestOption =
    | WithInput(reader: Reader)
    | WithJSONInput(input: Handle)
    | WithFormInput(values: FormValues)
    | WithHeader(name: string, value: string)
    | WithCookieJar(jar: Option<Handle>)
    | ExpectStatusCode(code: int)
    | ExpectHeader(name: string, value: string)
    | ExpectRawResponse(body: Option<Bytes>)
    | ExpectJSONResponse(output: Option<Handle>, compareOpts: seq<CmpOption>)
    | GrabJSONResponse(out: Option<Handle>)
    | FatalFailure

  /** The value of a testCase (the server it runs against is left out). */
  datatype Spec = Spec(
    verb: string,
    path: string,
    mutators: seq<Mutator>,
    input: Reader,
    jar: Option<Handle>,
    expectCode: int,
    expectRaw: Option<Bytes>,
    expectJson: Option<Handle>,
    cmpOpts: seq<CmpOption>,
    expectHeaders: map<string, string>,
    grab: Option<Handle>,
    fatalFailure: bool)

  /** The groups of fields that options write. */
  datatype Field =
    | InputField | MutatorsField | JarField | CodeField | HeadersField
    | RawField | JsonField | GrabField | FailFastField

  function Writes(o: TestOption): set<Field>
  {
    match o
    case WithInput(_) => {InputField}
    case WithJSONInput(_) => {InputField, MutatorsField}
    case WithFormInput(_) => {InputField, MutatorsField}
    case WithHeader(_, _) => {MutatorsField}
    case WithCookieJar(_) => {JarField}
    case ExpectStatusCode(_) => {CodeField}
    case ExpectHeader(_, _) => {HeadersField}
    case ExpectRawResponse(_) => {RawField}
    case ExpectJSONResponse(_, _) => {JsonField}
    case GrabJSONResponse(_) => {GrabField}
    case FatalFailure => {FailFastField}
  }

  /** s and t hold the same value in field group f. */
  predicate Agree(s: Spec, t: Spec, f: Field)
  {
    match f
    case InputField => s.input == t.input
    case MutatorsField => s.mutators == t.mutators
    case JarField => s.jar == t.jar
    case CodeField => s.expectCode == t.expectCode
    case HeadersField => s.expectHeaders == t.expectHeaders
    case RawField => s.expectRaw == t.expectRaw
    case JsonField => s.expectJson == t.expectJson && s.cmpOpts == t.cmpOpts
    case GrabField => s.grab == t.grab
    case FailFastField => s.fatalFailure == t.fatalFailure
  }

  /** The state a test case starts in. */
  function Fresh(verb: string, path: string): Spec
  {
    Spec(verb, path, [], NilReader, None, 0, None, None, [], map[], None, false)
  }

  /** The request mutator an option queues, if any. */
  function Queued(o: TestOption): seq<Mutator>
  {
    if o.WithJSONInput? then [ContentTypeDefault(JsonMediaType)]
    else if o.WithFormInput? then [ContentTypeDefault(FormMediaType)]
    else if o.WithHeader? then [HeaderMutator(o.name, o.value)]
    else []
  }

  /** Applying one option. WithJSONInput marshals the body the test case already holds,
      not its own argument, as the source does. */
  function Applied(s: Spec, o: TestOption): Spec
  {
    match o
    case WithInput(reader) => s.(input := reader)
    case WithJSONInput(_) =>
      s.(input := Marshalled(s.input), mutators := s.mutators + [ContentTypeDefault(JsonMediaType)])
    case WithFormInput(values) =>
      s.(input := FormEncoded(values), mutators := s.mutators + [ContentTypeDefault(FormMediaType)])
    case WithHeader(name, value) => s.(mutators := s.mutators + [HeaderMutator(name, value)])
    case WithCookieJar(jar) => s.(jar := jar)
    case ExpectStatusCode(code) => s.(expectCode := code)
    case ExpectHeader(name, value) => s.(expectHeaders := s.expectHeaders[name := value])
    case ExpectRawResponse(body) => s.(expectRaw := body)
    case ExpectJSONResponse(output, compareOpts) => s.(expectJson := output, cmpOpts := compareOpts)
    case GrabJSONResponse(out) => s.(grab := out)
    case FatalFailure => s.(fatalFailure := true)
  }

  /** An option changes only the field groups it writes, and the mutators only by
      appending what it queues. */
  lemma AppliedFrame(s: Spec, o: TestOption)
    ensures Applied(s, o).verb == s.verb && Applied(s, o).path == s.path
    ensures forall f :: f !in Writes(o) ==> Agree(s, Applied(s, o), f)
    ensures Applied(s, o).mutators == s.mutators + Queued(o)
  {
  }

  /** Applying the options left to right. */
  function Build(s: Spec, opts: seq<TestOption>): Spec
    decreases |opts|
  {
    if opts == [] then s
    else Applied(Build(s, opts[..|opts| - 1]), opts[|opts| - 1])
  }

  /** Reference definition: the mutators a list of options queues, in option order. */
  function QueuedAll(opts: seq<TestOption>): seq<Mutator>
    decreases |opts|
  {
    if opts == [] then [] else QueuedAll(opts[..|opts| - 1]) + Queued(opts[|opts| - 1])
  }

  /** Options are applied strictly in argument order: applying a + b is applying a, then b. */
  lemma {:induction false} BuildConcat(s: Spec, a: seq<TestOption>, b: seq<TestOption>)
    ensures Build(s, a + b) == Build(Build(s, a), b)
    decreases |b|
  {
    if b == [] {
      assert a + b == a;
    } else {
      assert (a + b)[..|a + b| - 1] == a + b[..|b| - 1];
      BuildConcat(s, a, b[..|b| - 1]);
    }
  }

  lemma QueuedAllSnoc(opts: seq<TestOption>, o: TestOption)
    ensures QueuedAll(opts + [o]) == QueuedAll(opts) + Queued(o)
  {
    assert (opts + [o])[..|opts|] == opts;
  }

  lemma {:induction false} QueuedAllConcat(a: seq<TestOption>, b: seq<TestOption>)
    ensures QueuedAll(a + b) == QueuedAll(a) + QueuedAll(b)
    decreases |b|
  {
    if b == [] {
      assert a + b == a;
    } else {
      var n := |b| - 1;
      assert a + b == (a + b[..n]) + [b[n]];
      assert b == b[..n] + [b[n]];
      QueuedAllSnoc(a + b[..n], b[n]);
      QueuedAllSnoc(b[..n], b[n]);
      QueuedAllConcat(a, b[..n]);
      AppendAssoc(QueuedAll(a), QueuedAll(b[..n]), Queued(b[n]));
    }
  }

  /** A field group that no option writes keeps its value; method and path never change. */
  lemma {:induction false} BuildFrame(s: Spec, opts: seq<TestOption>, f: Field)
    requires forall i :: 0 <= i < |opts| ==> f !in Writes(opts[i])
    ensures Build(s, opts).verb == s.verb && Build(s, opts).path == s.path
    ensures Agree(s, Build(s, opts), f)
    decreases |opts|
  {
    if opts != [] {
      var n := |opts| - 1;
      BuildFrame(s, opts[..n], f);
      AppliedFrame(Build(s, opts[..n]), opts[n]);
    }
  }

  /** Last writer wins: a field group holds what the last option writing it left there. */
  lemma LastWriterWins(s: Spec, opts: seq<TestOption>, j: nat, f: Field)
    requires j < |opts| && f in Writes(opts[j])
    requires forall i :: j < i < |opts| ==> f !in Writes(opts[i])
    ensures Agree(Build(s, opts[..j + 1]), Build(s, opts), f)
  {
    var head, tail := opts[..j + 1], opts[j + 1..];
    assert opts == head + tail;
    BuildConcat(s, head, tail);
    forall i | 0 <= i < |tail| ensures f !in Writes(tail[i]) {
      assert tail[i] == opts[j + 1 + i];
    }
    BuildFrame(Build(s, head), tail, f);
  }

  /** The expected status code is that of the last ExpectStatusCode. */
  lemma LastStatusCodeWins(s: Spec, opts: seq<TestOption>, j: nat)
    requires j < |opts| && opts[j].ExpectStatusCode?
    requires forall i :: j < i < |opts| ==> !opts[i].ExpectStatusCode?
    ensures Build(s, opts).expectCode == opts[j].code
  {
    forall i | j < i < |opts| ensures CodeField !in Writes(opts[i]) {
    }
    LastWriterWins(s, opts, j, CodeField);
    assert opts[..j + 1][..j] == opts[..j];
  }

  /** ExpectHeader(k, v) leaves k mapped to v unless a later ExpectHeader names k again. */
  lemma AppliedExpectHeaders(s: Spec, o: TestOption)
    ensures Applied(s, o).expectHeaders
         == if o.ExpectHeader? then s.expectHeaders[o.name := o.value] else s.expectHeaders
  {
  }

  lemma AppliedFailFast(s: Spec, o: TestOption)
    ensures Applied(s, o).fatalFailure == (s.fatalFailure || o.FatalFailure?)
  {
  }

  lemma {:induction false} ExpectHeaderLastWins(s: Spec, opts: seq<TestOption>, j: nat)
    requires j < |opts| && opts[j].ExpectHeader?
    requires forall i :: j < i < |opts| ==> !(opts[i].ExpectHeader? && opts[i].name == opts[j].name)
    ensures opts[j].name in Build(s, opts).expectHeaders
    ensures Build(s, opts).expectHeaders[opts[j].name] == opts[j].value
    decreases |opts|
  {
    var n := |opts| - 1;
    if j < n {
      ExpectHeaderLastWins(s, opts[..n], j);
    }
    AppliedExpectHeaders(Build(s, opts[..n]), opts[n]);
  }

  /** An expected header that no ExpectHeader names keeps its entry (or its absence). */
  lemma {:induction false} ExpectHeaderOtherKeys(s: Spec, opts: seq<TestOption>, k: string)
    requires forall i :: 0 <= i < |opts| ==> !(opts[i].ExpectHeader? && opts[i].name == k)
    ensures k in Build(s, opts).expectHeaders <==> k in s.expectHeaders
    ensures k in s.expectHeaders ==> Build(s, opts).expectHeaders[k] == s.expectHeaders[k]
    decreases |opts|
  {
    if opts != [] {
      var n := |opts| - 1;
      ExpectHeaderOtherKeys(s, opts[..n], k);
      AppliedExpectHeaders(Build(s, opts[..n]), opts[n]);
    }
  }

  /** The mutator list only grows: it is the starting list followed by what each option
      queued, in option order, and every earlier state's list is a prefix of it. */
  lemma {:induction false} MutatorsAppendOnly(s: Spec, opts: seq<TestOption>)
    ensures Build(s, opts).mutators == s.mutators + QueuedAll(opts)
    ensures forall m :: 0 <= m <= |opts| ==> Build(s, opts[..m]).mutators <= Build(s, opts).mutators
    decreases |opts|
  {
    if opts != [] {
      var n := |opts| - 1;
      MutatorsAppendOnly(s, opts[..n]);
      AppliedFrame(Build(s, opts[..n]), opts[n]);
      AppendAssoc(s.mutators, QueuedAll(opts[..n]), Queued(opts[n]));
      forall m | 0 <= m <= |opts| ensures Build(s, opts[..m]).mutators <= Build(s, opts).mutators {
        if m <= n {
          assert opts[..n][..m] == opts[..m];
        } else {
          assert opts[..m] == opts;
        }
      }
    }
  }

  /** Fail-fast is on exactly when it was on at the start or some option is FatalFailure;
      nothing turns it off. */
  lemma {:induction false} FailFastSticky(s: Spec, opts: seq<TestOption>)
    ensures Build(s, opts).fatalFailure <==> s.fatalFailure || exists i :: 0 <= i < |opts| && opts[i].FatalFailure?
    decreases |opts|
  {
    if opts != [] {
      var n := |opts| - 1;
      var prev := opts[..n];
      FailFastSticky(s, prev);
      AppliedFailFast(Build(s, prev), opts[n]);
      assert (exists i :: 0 <= i < |opts| && opts[i].FatalFailure?)
         <==> (exists i :: 0 <= i < |prev| && prev[i].FatalFailure?) || opts[n].FatalFailure? by {
        if exists i :: 0 <= i < |opts| && opts[i].FatalFailure? {
          var i :| 0 <= i < |opts| && opts[i].FatalFailure?;
          if i < n {
            assert prev[i].FatalFailure?;
          }
        }
        if exists i :: 0 <= i < |prev| && prev[i].FatalFailure? {
          var i :| 0 <= i < |prev| && prev[i].FatalFailure?;
          assert opts[i] == prev[i];
        }
      }
    }
  }

  /** WithJSONInput's argument never reaches the test case: the body becomes the JSON
      encoding of the previous body, whatever value was passed. */
  lemma JsonInputIgnoresArgument(s: Spec, a: Handle, b: Handle)
    ensures Applied(s, WithJSONInput(a)) == Applied(s, WithJSONInput(b))
    ensures Applied(s, WithJSONInput(a)).input == Marshalled(s.input)
  {
  }

  /** The options whose queued mutator sets the request's Content-Type. */
  predicate SetsRequestContentType(canon: Canonicalizer, o: TestOption)
  {
    o.WithJSONInput? || o.WithFormInput? || (o.WithHeader? && canon(o.name) == ContentType)
  }

  function RequestContentType(o: TestOption): string
  {
    match o
    case WithJSONInput(_) => JsonMediaType
    case WithFormInput(_) => FormMediaType
    case WithHeader(_, value) => value
    case _ => ""
  }

  lemma {:induction false} QueuedAllSetsNoContentType(canon: Canonicalizer, opts: seq<TestOption>)
    requires forall i :: 0 <= i < |opts| ==> !SetsRequestContentType(canon, opts[i])
    ensures forall i :: 0 <= i < |QueuedAll(opts)| ==> !SetsContentType(canon, QueuedAll(opts)[i])
    decreases |opts|
  {
    if opts != [] {
      QueuedAllSetsNoContentType(canon, opts[..|opts| - 1]);
    }
  }

  /** End to end: the request built from a fresh test case carries as its only
      Content-Type the one the last Content-Type-setting option asked for. */
  lemma BuiltContentTypeIsLastSetter(canon: Canonicalizer, verb: string, path: string, opts: seq<TestOption>, j: nat)
    requires j < |opts| && SetsRequestContentType(canon, opts[j])
    requires forall i :: j < i < |opts| ==> !SetsRequestContentType(canon, opts[i])
    ensures Values(Replay(map[], canon, Build(Fresh(verb, path), opts).mutators), ContentType)
         == [RequestContentType(opts[j])]
  {
    var head, oj, tail := opts[..j], opts[j], opts[j + 1..];
    var muts := Build(Fresh(verb, path), opts).mutators;
    assert muts == QueuedAll(head) + Queued(oj) + QueuedAll(tail) by {
      SplitAt(opts, j);
      MutatorsAppendOnly(Fresh(verb, path), opts);
      QueuedAllConcat(head + [oj], tail);
      QueuedAllSnoc(head, oj);
      assert [] + QueuedAll(opts) == QueuedAll(opts);
    }
    var h1 := Replay(map[], canon, QueuedAll(head));
    var h2 := Replay(h1, canon, Queued(oj));
    assert Values(h2, ContentType) == [RequestContentType(oj)] by {
      assert Queued(oj)[..0] == [];
    }
    assert Values(Replay(h2, canon, QueuedAll(tail)), ContentType) == Values(h2, ContentType) by {
      forall i | 0 <= i < |tail| ensures !SetsRequestContentType(canon, tail[i]) {
        assert tail[i] == opts[j + 1 + i];
      }
      QueuedAllSetsNoContentType(canon, tail);
      ContentTypeKeptWithoutSetter(h2, canon, QueuedAll(tail));
    }
    ReplayConcat(map[], canon, QueuedAll(head), Queued(oj));
    ReplayConcat(map[], canon, QueuedAll(head) + Queued(oj), QueuedAll(tail));
  }

  /** End to end: without such an option the request carries no Content-Type at all. */
  lemma BuiltContentTypeAbsentWithoutSetter(canon: Canonicalizer, verb: string, path: string, opts: seq<TestOption>)
    requires forall i :: 0 <= i < |opts| ==> !SetsRequestContentType(canon, opts[i])
    ensures Values(Replay(map[], canon, Build(Fresh(verb, path), opts).mutators), ContentType) == []
  {
    var muts := Build(Fresh(verb, path), opts).mutators;
    MutatorsAppendOnly(Fresh(verb, path), opts);
    assert muts == QueuedAll(opts);
    QueuedAllSetsNoContentType(canon, opts);
    ContentTypeKeptWithoutSetter(map[], canon, muts);
  }
}
