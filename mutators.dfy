/**
 * Request mutators: the closures that WithJSONInput, WithFormInput and WithHeader
 * queue on a test case, replayed on the outbound request's header map in the order
 * they were queued, just before the request is sent.
 */
module Mutators {
  import opened Http

  const JsonMediaType: string := "application/json"
  const FormMediaType: string := "application/x-www-form-urlencoded"

  datatype Mutator =
      /** r.Header.Set("Content-Type", mediaType): the default an encoding option queues. */
    | ContentTypeDefault(mediaType: string)
      /** The closure WithHeader queues: Set when name canonicalises to Content-Type, Add otherwise. */
    | HeaderMutator(name: string, value: string)

  predicate SetsContentType(canon: Canonicalizer, m: Mutator)
  {
    m.ContentTypeDefault? || canon(m.name) == ContentType
  }

  function ContentTypeOf(m: Mutator): string
  {
    match m
    case ContentTypeDefault(t) => t
    case HeaderMutator(_, v) => v
  }

  /** Running one mutator on a header map. */
  function ApplyMutator(h: Header, canon: Canonicalizer, m: Mutator): Header
  {
    match m
    case ContentTypeDefault(t) => Set(h, canon, ContentType, t)
    case HeaderMutator(name, value) =>
      if canon(name) == ContentType then Set(h, canon, name, value) else Add(h, canon, name, value)
  }

  /** Running the mutators in order, each exactly once. */
  function Replay(h: Header, canon: Canonicalizer, muts: seq<Mutator>): Header
    decreases |muts|
  {
    if muts == [] then h
    else ApplyMutator(Replay(h, canon, muts[..|muts| - 1]), canon, muts[|muts| - 1])
  }

  /** Reference definition: the values that the WithHeader mutators in muts add under a
      key other than Content-Type, in queue order. */
  function Appended(canon: Canonicalizer, muts: seq<Mutator>, key: string): seq<string>
    decreases |muts|
  {
    if muts == [] then []
    else
      var m := muts[|muts| - 1];
      Appended(canon, muts[..|muts| - 1], key)
        + (if m.HeaderMutator? && canon(m.name) == key then [m.value] else [])
  }

  /** Replaying two queues one after the other is replaying their concatenation. */
  lemma {:induction false} ReplayConcat(h: Header, canon: Canonicalizer, a: seq<Mutator>, b: seq<Mutator>)
    ensures Replay(h, canon, a + b) == Replay(Replay(h, canon, a), canon, b)
    decreases |b|
  {
    if b == [] {
      assert a + b == a;
    } else {
      assert (a + b)[..|a + b| - 1] == a + b[..|b| - 1];
      ReplayConcat(h, canon, a, b[..|b| - 1]);
    }
  }

  /** Content-Type ends up holding exactly the value of the last mutator that sets it. */
  lemma {:induction false} ContentTypeLastWins(h: Header, canon: Canonicalizer, muts: seq<Mutator>, j: nat)
    requires j < |muts| && SetsContentType(canon, muts[j])
    requires forall i :: j < i < |muts| ==> !SetsContentType(canon, muts[i])
    ensures Values(Replay(h, canon, muts), ContentType) == [ContentTypeOf(muts[j])]
    decreases |muts|
  {
    var n := |muts| - 1;
    if j < n {
      ContentTypeLastWins(h, canon, muts[..n], j);
    }
  }

  /** Without a mutator that sets it, Content-Type keeps the values it had. */
  lemma {:induction false} ContentTypeKeptWithoutSetter(h: Header, canon: Canonicalizer, muts: seq<Mutator>)
    requires forall i :: 0 <= i < |muts| ==> !SetsContentType(canon, muts[i])
    ensures Values(Replay(h, canon, muts), ContentType) == Values(h, ContentType)
    decreases |muts|
  {
    if muts != [] {
      ContentTypeKeptWithoutSetter(h, canon, muts[..|muts| - 1]);
    }
  }

  /** Under any other key, every WithHeader value is appended after the earlier ones,
      none is lost and none reordered. */
  lemma {:induction false} OtherHeadersAccumulate(h: Header, canon: Canonicalizer, muts: seq<Mutator>, key: string)
    requires key != ContentType
    ensures Values(Replay(h, canon, muts), key) == Values(h, key) + Appended(canon, muts, key)
    decreases |muts|
  {
    if muts != [] {
      OtherHeadersAccumulate(h, canon, muts[..|muts| - 1], key);
    }
  }

  /** Replay only ever writes canonical keys. */
  lemma {:induction false} ReplayKeepsKeysCanonical(h: Header, canon: Canonicalizer, muts: seq<Mutator>)
    requires Canonical(h, canon)
    ensures Canonical(Replay(h, canon, muts), canon)
    decreases |muts|
  {
    if muts != [] {
      ReplayKeepsKeysCanonical(h, canon, muts[..|muts| - 1]);
    }
  }

  /** The outbound request as http.NewRequest built it, with a header map that the
      mutators change in place. */
  class Request {
    const verb: string
    const path: string
    const body: Reader
    var header: Header

    constructor (verb: string, path: string, body: Reader)
      ensures this.verb == verb && this.path == path && this.body == body
      ensures header == map[]
    {
      this.verb := verb;
      this.path := path;
      this.body := body;
      header := map[];
    }

    /** mut(req) */
    method Mutate(canon: Canonicalizer, m: Mutator)
      modifies this
      ensures header == ApplyMutator(old(header), canon, m)
    {
      match m
      case ContentTypeDefault(t) =>
        header := Set(header, canon, ContentType, t);
      case HeaderMutator(name, value) =>
        if canon(name) == ContentType {
          header := Set(header, canon, name, value);
          return;
        }
        header := Add(header, canon, name, value);
    }
  }
}
