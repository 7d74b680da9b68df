/**
 * The backward-compatibility diff engine. Given a candidate document and a
 * contract document, it walks the contract's paths, then each contract path
 * item's methods, then each shared operation's parameters, and reports every
 * divergence that would break a client written against the contract.
 */
module Verifier {

  import opened Wrappers
  import opened OpenApi

  // ---------------------------------------------------------------------------
  // Values produced by a verification run
  // ---------------------------------------------------------------------------

  /** The contract-relevant snapshot of a parameter; equality is field by field. */
  datatype ParameterConstraints = ParameterConstraints(
    jsonType: JsonObjectType,
    isRequired: bool,
    maximum: Option<real>,
    maxItems: int,
    maxLength: Option<int>)

  /** One reported divergence of the candidate from the contract. */
  datatype VerificationFailure =
    | MissingPath(path: string)
    | MissingHttpMethod(path: string, httpMethod: string)
    | MissingParameter(path: string, httpMethod: string, parameterName: string, parameterKind: ParameterKind)
    | ExcessRequiredParameter(path: string, httpMethod: string, parameterName: string, parameterKind: ParameterKind)
    | IncompatibleParameter(path: string, httpMethod: string, parameterName: string, parameterKind: ParameterKind,
                            contractConstraints: ParameterConstraints, candidateConstraints: ParameterConstraints)

  /** Where in the documents the traversal currently is; the method is empty until one is chosen. */
  datatype VerificationContext = VerificationContext(path: string, httpMethod: string)

  /** A failure reported for operation (path, method), that is, anything but MissingPath. */
  predicate AtOperation(f: VerificationFailure, path: string, httpMethod: string)
  {
    !f.MissingPath? && f.path == path && f.httpMethod == httpMethod
  }

  predicate IsParameterFailure(f: VerificationFailure)
  {
    f.MissingParameter? || f.ExcessRequiredParameter? || f.IncompatibleParameter?
  }

  /** The (Name, Kind) key a parameter-level failure is about. */
  function FailureKey(f: VerificationFailure): ParamKey
    requires IsParameterFailure(f)
  {
    (f.parameterName, f.parameterKind)
  }

  // ---------------------------------------------------------------------------
  // Constraint extraction and comparison
  // ---------------------------------------------------------------------------

  /** The five constraint fields of two parameters agree. */
  predicate SameConstraints(p: Parameter, q: Parameter)
  {
    && p.jsonType == q.jsonType
    && p.isRequired == q.isRequired
    && p.maximum == q.maximum
    && p.maxItems == q.maxItems
    && p.maxLength == q.maxLength
  }

  /** The snapshot constructor that takes a parameter: it copies the five fields verbatim. */
  function ConstraintsOf(p: Parameter): (c: ParameterConstraints)
    ensures c.jsonType == p.jsonType && c.isRequired == p.isRequired && c.maximum == p.maximum
    ensures c.maxItems == p.maxItems && c.maxLength == p.maxLength
  {
    ParameterConstraints(p.jsonType, p.isRequired, p.maximum, p.maxItems, p.maxLength)
  }

  /**
   * Compares the snapshots of a candidate parameter and of the contract
   * parameter with the same key. A mismatch is reported under the contract
   * parameter's name and kind, with the contract snapshot first.
   */
  function VerifyParameterCompatibility(cx: VerificationContext, candidate: Parameter, contract: Parameter)
    : (r: seq<VerificationFailure>)
    ensures |r| <= 1
    ensures r == [] <==> SameConstraints(candidate, contract)
    ensures r != [] ==>
              r[0] == IncompatibleParameter(cx.path, cx.httpMethod, contract.name, contract.kind,
                                            ConstraintsOf(contract), ConstraintsOf(candidate))
  {
    var candStub := ConstraintsOf(candidate);
    var contStub := ConstraintsOf(contract);
    if candStub != contStub then
      [IncompatibleParameter(cx.path, cx.httpMethod, contract.name, contract.kind, contStub, candStub)]
    else
      []
  }

  // ---------------------------------------------------------------------------
  // The three parameter passes
  // ---------------------------------------------------------------------------

  /** First pass: the contract's keys that the candidate lacks, in contract order. */
  function MissingParameters(cx: VerificationContext, candidate: seq<Parameter>, contract: seq<Parameter>)
    : (r: seq<VerificationFailure>)
    ensures forall f :: f in r ==>
              && f.MissingParameter? && AtOperation(f, cx.path, cx.httpMethod)
              && HasParameter(contract, FailureKey(f)) && !HasParameter(candidate, FailureKey(f))
  {
    if contract == [] then []
    else
      var p := contract[0];
      var rest := MissingParameters(cx, candidate, contract[1..]);
      assert forall k :: HasParameter(contract[1..], k) ==> HasParameter(contract, k) by {
        assert forall i :: 0 <= i < |contract[1..]| ==> contract[1..][i] == contract[i + 1];
      }
      (if HasParameter(candidate, Key(p)) then [] else [MissingParameter(cx.path, cx.httpMethod, p.name, p.kind)])
      + rest
  }

  /** A parameter with key k in ps is required. */
  predicate HasRequiredParameter(ps: seq<Parameter>, k: ParamKey)
  {
    exists i :: 0 <= i < |ps| && Key(ps[i]) == k && ps[i].isRequired
  }

  /** Second pass: the candidate's keys that the contract lacks, kept only when required, in candidate order. */
  function ExcessRequiredParameters(cx: VerificationContext, candidate: seq<Parameter>, contract: seq<Parameter>)
    : (r: seq<VerificationFailure>)
    ensures forall f :: f in r ==>
              && f.ExcessRequiredParameter? && AtOperation(f, cx.path, cx.httpMethod)
              && HasRequiredParameter(candidate, FailureKey(f)) && !HasParameter(contract, FailureKey(f))
  {
    if candidate == [] then []
    else
      var p := candidate[0];
      var rest := ExcessRequiredParameters(cx, candidate[1..], contract);
      assert forall k :: HasRequiredParameter(candidate[1..], k) ==> HasRequiredParameter(candidate, k) by {
        assert forall i :: 0 <= i < |candidate[1..]| ==> candidate[1..][i] == candidate[i + 1];
      }
      assert HasRequiredParameter(candidate, Key(p)) <== p.isRequired by {
        assert candidate[0] == p;
      }
      (if !HasParameter(contract, Key(p)) && p.isRequired
       then [ExcessRequiredParameter(cx.path, cx.httpMethod, p.name, p.kind)] else [])
      + rest
  }

  /**
   * Third pass: the inner join of the two dictionaries, with the candidate's as
   * the outer sequence, so its results come in candidate order.
   */
  function IncompatibleParameters(cx: VerificationContext, candidate: seq<Parameter>, contract: seq<Parameter>)
    : (r: seq<VerificationFailure>)
    ensures forall f :: f in r ==>
              && f.IncompatibleParameter? && AtOperation(f, cx.path, cx.httpMethod)
              && HasParameter(candidate, FailureKey(f)) && HasParameter(contract, FailureKey(f))
              && f.contractConstraints != f.candidateConstraints
  {
    if candidate == [] then []
    else
      var p := candidate[0];
      var rest := IncompatibleParameters(cx, candidate[1..], contract);
      assert forall k :: HasParameter(candidate[1..], k) ==> HasParameter(candidate, k) by {
        assert forall i :: 0 <= i < |candidate[1..]| ==> candidate[1..][i] == candidate[i + 1];
      }
      assert HasParameter(candidate, Key(p)) by {
        assert Key(candidate[0]) == Key(p);
      }
      var here := match FindParameter(contract, Key(p))
                  case Some(q) => VerifyParameterCompatibility(cx, p, q)
                  case None => [];
      here + rest
  }

  /**
   * All three passes over one pair of operations, concatenated without early
   * exit. Building the two (Name, Kind) dictionaries requires distinct keys.
   */
  function VerifyParameters(cx: VerificationContext, candidateOperation: Operation, contractOperation: Operation)
    : (r: seq<VerificationFailure>)
    requires DistinctParameterKeys(candidateOperation.parameters)
    requires DistinctParameterKeys(contractOperation.parameters)
    ensures forall f :: f in r ==> IsParameterFailure(f) && AtOperation(f, cx.path, cx.httpMethod)
  {
    var candidate := candidateOperation.parameters;
    var contract := contractOperation.parameters;
    MissingParameters(cx, candidate, contract)
    + ExcessRequiredParameters(cx, candidate, contract)
    + IncompatibleParameters(cx, candidate, contract)
  }

  /**
   * The checks of one shared operation. Only the parameter check is wired in;
   * the request-body and response checks are not part of this model.
   */
  function VerifyOperation(cx: VerificationContext, candidateOperation: Operation, contractOperation: Operation)
    : (r: seq<VerificationFailure>)
    requires DistinctParameterKeys(candidateOperation.parameters)
    requires DistinctParameterKeys(contractOperation.parameters)
    ensures forall f :: f in r ==> IsParameterFailure(f) && AtOperation(f, cx.path, cx.httpMethod)
  {
    VerifyParameters(cx, candidateOperation, contractOperation)
  }

  // ---------------------------------------------------------------------------
  // Operations of one path
  // ---------------------------------------------------------------------------

  /** The parameter dictionaries of a contract operation and its candidate counterpart, if any, can be built. */
  predicate OperationComparable(candidate: PathItem, entry: (string, Operation))
  {
    match Lookup(candidate, entry.0)
    case Some(op) => DistinctParameterKeys(op.parameters) && DistinctParameterKeys(entry.1.parameters)
    case None => true
  }

  predicate PathItemComparable(candidate: PathItem, contract: PathItem)
  {
    forall i :: 0 <= i < |contract| ==> OperationComparable(candidate, contract[i])
  }

  /** What one contract method contributes: MissingHttpMethod, or the checks of the shared operation. */
  function OperationEntryFailures(cx: VerificationContext, candidate: PathItem, entry: (string, Operation))
    : (r: seq<VerificationFailure>)
    requires OperationComparable(candidate, entry)
    ensures forall f :: f in r ==> AtOperation(f, cx.path, entry.0)
    ensures Lookup(candidate, entry.0).None? <==> r == [MissingHttpMethod(cx.path, entry.0)]
  {
    var cx' := cx.(httpMethod := entry.0);
    match Lookup(candidate, entry.0)
    case Some(candidateOperation) =>
      var r := VerifyOperation(cx', candidateOperation, entry.1);
      assert MissingHttpMethod(cx.path, entry.0) !in r;
      r
    case None => [MissingHttpMethod(cx'.path, cx'.httpMethod)]
  }

  /** The failures of a contract path item's methods, in the contract's method order. */
  function PathItemFailures(cx: VerificationContext, candidate: PathItem, contract: PathItem)
    : (r: seq<VerificationFailure>)
    requires PathItemComparable(candidate, contract)
  {
    if contract == [] then []
    else
      PathItemComparableTail(candidate, contract);
      var here := OperationEntryFailures(cx, candidate, contract[0]);
      var rest := PathItemFailures(cx, candidate, contract[1..]);
      here + rest
  }

  /** Every failure of a path item is about that path and one of the contract path item's methods. */
  lemma {:induction false} PathItemFailuresLocated(cx: VerificationContext, candidate: PathItem, contract: PathItem)
    requires PathItemComparable(candidate, contract)
    ensures forall f :: f in PathItemFailures(cx, candidate, contract) ==>
              !f.MissingPath? && f.path == cx.path && HasKey(contract, f.httpMethod)
  {
    if contract != [] {
      assert forall i :: 0 <= i < |contract[1..]| ==> contract[1..][i] == contract[i + 1];
      PathItemFailuresLocated(cx, candidate, contract[1..]);
      forall f | f in PathItemFailures(cx, candidate, contract)
        ensures !f.MissingPath? && f.path == cx.path && HasKey(contract, f.httpMethod)
      {
        if f in OperationEntryFailures(cx, candidate, contract[0]) {
          assert contract[0].0 == f.httpMethod;
        } else {
          var i :| 0 <= i < |contract[1..]| && contract[1..][i].0 == f.httpMethod;
          assert contract[i + 1].0 == f.httpMethod;
        }
      }
    }
  }

  /** Appending a method to the contract path item appends its failures. */
  lemma {:induction false} PathItemFailuresSnoc(cx: VerificationContext, candidate: PathItem, contract: PathItem,
                                                entry: (string, Operation))
    requires PathItemComparable(candidate, contract) && OperationComparable(candidate, entry)
    ensures PathItemComparable(candidate, contract + [entry])
    ensures PathItemFailures(cx, candidate, contract + [entry])
            == PathItemFailures(cx, candidate, contract) + OperationEntryFailures(cx, candidate, entry)
  {
    var longer := contract + [entry];
    PathItemComparableSnoc(candidate, contract, entry);
    if contract == [] {
      assert longer[0] == entry && longer[1..] == [];
    } else {
      var tail := contract[1..];
      PathItemComparableTail(candidate, contract);
      assert longer[0] == contract[0] && longer[1..] == tail + [entry];
      PathItemFailuresSnoc(cx, candidate, tail, entry);
    }
  }

  lemma PathItemComparableSnoc(candidate: PathItem, contract: PathItem, entry: (string, Operation))
    requires PathItemComparable(candidate, contract) && OperationComparable(candidate, entry)
    ensures PathItemComparable(candidate, contract + [entry])
  {
    var longer := contract + [entry];
    assert forall i :: 0 <= i < |contract| ==> longer[i] == contract[i];
    assert longer[|contract|] == entry;
  }

  lemma PathItemComparableTail(candidate: PathItem, contract: PathItem)
    requires contract != [] && PathItemComparable(candidate, contract)
    ensures OperationComparable(candidate, contract[0]) && PathItemComparable(candidate, contract[1..])
  {
    assert forall i :: 0 <= i < |contract[1..]| ==> contract[1..][i] == contract[i + 1];
  }

  /** A contract method either is missing from the candidate or contributes the checks of the shared operation. */
  lemma OperationEntryCases(cx: VerificationContext, candidate: PathItem, entry: (string, Operation))
    requires OperationComparable(candidate, entry)
    ensures Lookup(candidate, entry.0).Some? ==>
              var op := Lookup(candidate, entry.0).value;
              DistinctParameterKeys(op.parameters) && DistinctParameterKeys(entry.1.parameters)
              && OperationEntryFailures(cx, candidate, entry) == VerifyOperation(cx.(httpMethod := entry.0), op, entry.1)
    ensures Lookup(candidate, entry.0).None? ==>
              OperationEntryFailures(cx, candidate, entry) == [MissingHttpMethod(cx.path, entry.0)]
  {
  }

  /** Operation-level pass of one path, enumerating the contract path item's methods. */
  method VerifyOperations(cx: VerificationContext, candidate: PathItem, contract: PathItem)
    returns (failures: seq<VerificationFailure>)
    requires PathItemComparable(candidate, contract)
    ensures failures == PathItemFailures(cx, candidate, contract)
  {
    var ctx := cx;
    failures := [];
    var i := 0;
    while i < |contract|
      invariant 0 <= i <= |contract|
      invariant ctx == cx.(httpMethod := ctx.httpMethod)
      invariant failures == PathItemFailures(cx, candidate, contract[..i])
    {
      var (httpMethod, contractOperation) := contract[i];
      ctx := ctx.(httpMethod := httpMethod);
      var found := Lookup(candidate, httpMethod);
      var operationFailures;
      match found {
        case Some(candidateOperation) =>
          assert DistinctParameterKeys(candidateOperation.parameters)
                 && DistinctParameterKeys(contractOperation.parameters) by {
            OperationEntryCases(cx, candidate, contract[i]);
          }
          operationFailures := VerifyOperation(ctx, candidateOperation, contractOperation);
        case None =>
          operationFailures := [MissingHttpMethod(ctx.path, ctx.httpMethod)];
      }
      assert failures + operationFailures == PathItemFailures(cx, candidate, contract[..i + 1]) by {
        OperationEntryCases(cx, candidate, contract[i]);
        assert contract[..i + 1] == contract[..i] + [contract[i]];
        PathItemFailuresSnoc(cx, candidate, contract[..i], contract[i]);
      }
      failures := failures + operationFailures;
      i := i + 1;
    }
    assert contract[..i] == contract;
  }

  // ---------------------------------------------------------------------------
  // Paths of the document
  // ---------------------------------------------------------------------------

  predicate PathComparable(candidate: Document, entry: (string, PathItem))
  {
    match Lookup(candidate.paths, entry.0)
    case Some(item) => PathItemComparable(item, entry.1)
    case None => true
  }

  /**
   * Every operation that the traversal compares has distinct parameter keys,
   * so that all the parameter dictionaries it builds can be built.
   */
  predicate PathsComparable(candidate: Document, contract: Paths)
  {
    forall i :: 0 <= i < |contract| ==> PathComparable(candidate, contract[i])
  }

  /** What one contract path contributes: MissingPath, or the failures of its methods. */
  function PathEntryFailures(candidate: Document, entry: (string, PathItem)): (r: seq<VerificationFailure>)
    requires PathComparable(candidate, entry)
    ensures Lookup(candidate.paths, entry.0).None? <==> r == [MissingPath(entry.0)]
  {
    match Lookup(candidate.paths, entry.0)
    case Some(candPathItem) =>
      PathItemFailuresLocated(VerificationContext(entry.0, ""), candPathItem, entry.1);
      PathItemFailures(VerificationContext(entry.0, ""), candPathItem, entry.1)
    case None => [MissingPath(entry.0)]
  }

  /** Every failure a contract path contributes is about that path. */
  lemma PathEntryFailuresLocated(candidate: Document, entry: (string, PathItem))
    requires PathComparable(candidate, entry)
    ensures forall f :: f in PathEntryFailures(candidate, entry) ==> f.path == entry.0
  {
    match Lookup(candidate.paths, entry.0)
    case Some(candPathItem) => PathItemFailuresLocated(VerificationContext(entry.0, ""), candPathItem, entry.1);
    case None =>
  }

  /** The failures of the contract's paths, in the contract's path order. */
  function PathsFailures(candidate: Document, contract: Paths): (r: seq<VerificationFailure>)
    requires PathsComparable(candidate, contract)
  {
    if contract == [] then []
    else
      PathsComparableTail(candidate, contract);
      var here := PathEntryFailures(candidate, contract[0]);
      var rest := PathsFailures(candidate, contract[1..]);
      here + rest
  }

  /** Every failure of the traversal is about one of the contract's paths. */
  lemma {:induction false} PathsFailuresLocated(candidate: Document, contract: Paths)
    requires PathsComparable(candidate, contract)
    ensures forall f :: f in PathsFailures(candidate, contract) ==> HasKey(contract, f.path)
  {
    if contract != [] {
      assert forall i :: 0 <= i < |contract[1..]| ==> contract[1..][i] == contract[i + 1];
      PathsFailuresLocated(candidate, contract[1..]);
      PathEntryFailuresLocated(candidate, contract[0]);
      forall f | f in PathsFailures(candidate, contract) ensures HasKey(contract, f.path) {
        if f in PathEntryFailures(candidate, contract[0]) {
          assert contract[0].0 == f.path;
        } else {
          var i :| 0 <= i < |contract[1..]| && contract[1..][i].0 == f.path;
          assert contract[i + 1].0 == f.path;
        }
      }
    }
  }

  /** Appending a path to the contract appends its failures. */
  lemma {:induction false} PathsFailuresSnoc(candidate: Document, contract: Paths, entry: (string, PathItem))
    requires PathsComparable(candidate, contract) && PathComparable(candidate, entry)
    ensures PathsComparable(candidate, contract + [entry])
    ensures PathsFailures(candidate, contract + [entry])
            == PathsFailures(candidate, contract) + PathEntryFailures(candidate, entry)
  {
    var longer := contract + [entry];
    PathsComparableSnoc(candidate, contract, entry);
    if contract == [] {
      assert longer[0] == entry && longer[1..] == [];
    } else {
      var tail := contract[1..];
      PathsComparableTail(candidate, contract);
      assert longer[0] == contract[0] && longer[1..] == tail + [entry];
      PathsFailuresSnoc(candidate, tail, entry);
    }
  }

  lemma PathsComparableSnoc(candidate: Document, contract: Paths, entry: (string, PathItem))
    requires PathsComparable(candidate, contract) && PathComparable(candidate, entry)
    ensures PathsComparable(candidate, contract + [entry])
  {
    var longer := contract + [entry];
    assert forall i :: 0 <= i < |contract| ==> longer[i] == contract[i];
    assert longer[|contract|] == entry;
  }

  lemma PathsComparableTail(candidate: Document, contract: Paths)
    requires contract != [] && PathsComparable(candidate, contract)
    ensures PathComparable(candidate, contract[0]) && PathsComparable(candidate, contract[1..])
  {
    assert forall i :: 0 <= i < |contract[1..]| ==> contract[1..][i] == contract[i + 1];
  }

  /** A contract path either is missing from the candidate or contributes the failures of its methods. */
  lemma PathEntryCases(candidate: Document, entry: (string, PathItem))
    requires PathComparable(candidate, entry)
    ensures Lookup(candidate.paths, entry.0).Some? ==>
              var item := Lookup(candidate.paths, entry.0).value;
              PathItemComparable(item, entry.1)
              && PathEntryFailures(candidate, entry) == PathItemFailures(VerificationContext(entry.0, ""), item, entry.1)
    ensures Lookup(candidate.paths, entry.0).None? ==> PathEntryFailures(candidate, entry) == [MissingPath(entry.0)]
  {
  }

  /** The entry point: enumerate the contract's paths and report the failures of each. */
  method Verify(candidate: Document, contract: Document) returns (failures: seq<VerificationFailure>)
    requires PathsComparable(candidate, contract.paths)
    ensures failures == PathsFailures(candidate, contract.paths)
  {
    failures := [];
    var i := 0;
    while i < |contract.paths|
      invariant 0 <= i <= |contract.paths|
      invariant failures == PathsFailures(candidate, contract.paths[..i])
    {
      var (path, contractPathItem) := contract.paths[i];
      var found := Lookup(candidate.paths, path);
      var pathFailures;
      match found {
        case Some(candPathItem) =>
          assert PathItemComparable(candPathItem, contractPathItem) by {
            PathEntryCases(candidate, contract.paths[i]);
          }
          pathFailures := VerifyOperations(VerificationContext(path, ""), candPathItem, contractPathItem);
        case None =>
          pathFailures := [MissingPath(path)];
      }
      assert failures + pathFailures == PathsFailures(candidate, contract.paths[..i + 1]) by {
        PathEntryCases(candidate, contract.paths[i]);
        assert contract.paths[..i + 1] == contract.paths[..i] + [contract.paths[i]];
        PathsFailuresSnoc(candidate, contract.paths[..i], contract.paths[i]);
      }
      failures := failures + pathFailures;
      i := i + 1;
    }
    assert contract.paths[..i] == contract.paths;
  }
}
