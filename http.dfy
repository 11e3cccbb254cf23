/**
 * The parts of net/http and io that the test-case pipeline touches, kept abstract:
 * header maps with Header.Set, Header.Add and Header.Get, header-key
 * canonicalisation, and request bodies.
 */
module Http {

  datatype Option<T> = None | Some(value: T)

  /** Expected and received bodies are byte strings. */
  type Bytes = seq<bv8>

  /** The identity of a Go value that the model does not look into: a template value,
      a pointer to decode into, a cookie jar, a comparison function. */
  type Handle = nat

  /** url.Values: a key to its list of values. */
  type FormValues = map<string, seq<string>>

  /** http.Header: a key to the list of its values. */
  type Header = map<string, seq<string>>

  const ContentType: string := "Content-Type"

  function Identity(key: string): string { key }

  /** What http.CanonicalHeaderKey is relied on for: it is idempotent and leaves
      "Content-Type" as it is. Its actual rules are not modelled. */
  ghost predicate IsCanonicalizer(canon: string -> string)
  {
    && canon(ContentType) == ContentType
    && forall key :: canon(canon(key)) == canon(key)
  }

  /** Any function with those two properties stands for http.CanonicalHeaderKey. */
  type Canonicalizer = canon: string -> string | IsCanonicalizer(canon) witness Identity

  /** An io.Reader as a request body. Encodings the model does not interpret stay
      terms: Marshalled(r) reads the bytes of json.Marshal(r), FormEncoded(v) reads
      the text of v.Encode(). */
  datatype Reader =
    | NilReader
    | Stream(id: Handle)
    | Marshalled(of: Reader)
    | FormEncoded(values: FormValues)

  /** The values stored under key; none when the key is absent. */
  function Values(h: Header, key: string): seq<string>
  {
    if key in h then h[key] else []
  }

  /** Every key of h is already in canonical form. */
  ghost predicate Canonical(h: Header, canon: Canonicalizer)
  {
    forall key :: key in h ==> canon(key) == key
  }

  /** Header.Get: the first value under the canonical form of name, "" if there is none. */
  function Get(h: Header, canon: Canonicalizer, name: string): string
  {
    var vs := Values(h, canon(name));
    if vs == [] then "" else vs[0]
  }

  /** Header.Set: the canonical key of name now holds exactly [value]. */
  function Set(h: Header, canon: Canonicalizer, name: string, value: string): (r: Header)
    ensures r.Keys == h.Keys + {canon(name)}
    ensures Values(r, canon(name)) == [value]
    ensures forall key :: key != canon(name) ==> Values(r, key) == Values(h, key)
  {
    h[canon(name) := [value]]
  }

  /** Header.Add: value is appended after the values already under the canonical key. */
  function Add(h: Header, canon: Canonicalizer, name: string, value: string): (r: Header)
    ensures r.Keys == h.Keys + {canon(name)}
    ensures Values(r, canon(name)) == Values(h, canon(name)) + [value]
    ensures forall key :: key != canon(name) ==> Values(r, key) == Values(h, key)
  {
    h[canon(name) := Values(h, canon(name)) + [value]]
  }

  lemma AppendAssoc<T>(x: seq<T>, y: seq<T>, z: seq<T>)
    ensures (x + y) + z == x + (y + z)
  {
  }

  /** A sequence is the part before position j, the element at j, and the rest. */
  lemma SplitAt<T>(s: seq<T>, j: nat)
    requires j < |s|
    ensures s == s[..j] + [s[j]] + s[j + 1..]
  {
  }
}
