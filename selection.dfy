/**
 * Looking at a report one path, one method or one parameter at a time: the
 * sub-sequence of failures that mention it, in report order.
 */
module Selection {

  import opened OpenApi
  import opened Verifier

  datatype Selector = OfPath(path: string) | OfMethod(httpMethod: string) | OfParameter(key: ParamKey)

  predicate Selects(s: Selector, f: VerificationFailure)
  {
    match s
    case OfPath(p) => f.path == p
    case OfMethod(m) => !f.MissingPath? && f.httpMethod == m
    case OfParameter(k) => IsParameterFailure(f) && FailureKey(f) == k
  }

  /** The failures of fs that s selects, in their order in fs. */
  function Select(fs: seq<VerificationFailure>, s: Selector): (r: seq<VerificationFailure>)
    ensures forall f :: f in r <==> f in fs && Selects(s, f)
    ensures |r| <= |fs|
  {
    if fs == [] then []
    else (if Selects(s, fs[0]) then [fs[0]] else []) + Select(fs[1..], s)
  }

  lemma {:induction false} SelectConcat(a: seq<VerificationFailure>, b: seq<VerificationFailure>, s: Selector)
    ensures Select(a + b, s) == Select(a, s) + Select(b, s)
  {
    if a == [] {
      assert a + b == b;
    } else {
      assert (a + b)[0] == a[0];
      assert (a + b)[1..] == a[1..] + b;
      SelectConcat(a[1..], b, s);
    }
  }

  lemma {:induction false} SelectAll(fs: seq<VerificationFailure>, s: Selector)
    requires forall f :: f in fs ==> Selects(s, f)
    ensures Select(fs, s) == fs
  {
    if fs != [] {
      SelectAll(fs[1..], s);
    }
  }

  lemma SelectNone(fs: seq<VerificationFailure>, s: Selector)
    requires forall f :: f in fs ==> !Selects(s, f)
    ensures Select(fs, s) == []
  {
  }

  /** Selecting keeps every copy of a selected failure. */
  lemma {:induction false} SelectCount(fs: seq<VerificationFailure>, s: Selector, x: VerificationFailure)
    requires Selects(s, x)
    ensures multiset(Select(fs, s))[x] == multiset(fs)[x]
  {
    if fs != [] {
      assert fs == [fs[0]] + fs[1..];
      SelectCount(fs[1..], s, x);
    }
  }
}
