/**
 * What the parameter-level pass reports, stated key by key against an
 * independent reference verdict, and in what order it reports it.
 */
module ParameterProperties {

  import opened Wrappers
  import opened OpenApi
  import opened Verifier
  import opened Selection

  /** Two snapshots are equal exactly when the five constraint fields agree. */
  lemma ConstraintsEqualIff(p: Parameter, q: Parameter)
    ensures ConstraintsOf(p) == ConstraintsOf(q) <==> SameConstraints(p, q)
  {
  }

  /**
   * The reference verdict for one (Name, Kind) key of one operation: missing
   * from the candidate, added to it (reported only when required), or present
   * in both (reported only when the constraints differ).
   */
  function KeyVerdict(cx: VerificationContext, candidate: seq<Parameter>, contract: seq<Parameter>, key: ParamKey)
    : seq<VerificationFailure>
  {
    match (FindParameter(candidate, key), FindParameter(contract, key))
    case (None, None) => []
    case (None, Some(_)) => [MissingParameter(cx.path, cx.httpMethod, key.0, key.1)]
    case (Some(p), None) =>
      if p.isRequired then [ExcessRequiredParameter(cx.path, cx.httpMethod, key.0, key.1)] else []
    case (Some(p), Some(q)) =>
      if SameConstraints(p, q) then []
      else [IncompatibleParameter(cx.path, cx.httpMethod, key.0, key.1, ConstraintsOf(q), ConstraintsOf(p))]
  }

  lemma {:induction false} MissingByKey(cx: VerificationContext, candidate: seq<Parameter>, contract: seq<Parameter>,
                                        key: ParamKey)
    requires DistinctParameterKeys(contract)
    ensures Select(MissingParameters(cx, candidate, contract), OfParameter(key))
            == if HasParameter(contract, key) && !HasParameter(candidate, key)
               then [MissingParameter(cx.path, cx.httpMethod, key.0, key.1)] else []
  {
    if contract != [] {
      var p := contract[0];
      var tail := contract[1..];
      assert forall i :: 0 <= i < |tail| ==> tail[i] == contract[i + 1];
      var head := if HasParameter(candidate, Key(p)) then [] else [MissingParameter(cx.path, cx.httpMethod, p.name, p.kind)];
      var rest := MissingParameters(cx, candidate, tail);
      assert MissingParameters(cx, candidate, contract) == head + rest;
      SelectConcat(head, rest, OfParameter(key));
      MissingByKey(cx, candidate, tail, key);
      assert HasParameter(contract, key) <==> Key(p) == key || HasParameter(tail, key);
      if Key(p) == key {
        assert !HasParameter(tail, key);
      } else {
        assert Select(head, OfParameter(key)) == [];
      }
    }
  }

  lemma {:induction false} ExcessByKey(cx: VerificationContext, candidate: seq<Parameter>, contract: seq<Parameter>,
                                       key: ParamKey)
    requires DistinctParameterKeys(candidate)
    ensures Select(ExcessRequiredParameters(cx, candidate, contract), OfParameter(key))
            == match FindParameter(candidate, key)
               case Some(p) =>
                 if p.isRequired && !HasParameter(contract, key)
                 then [ExcessRequiredParameter(cx.path, cx.httpMethod, key.0, key.1)] else []
               case None => []
  {
    if candidate != [] {
      var p := candidate[0];
      var tail := candidate[1..];
      assert forall i :: 0 <= i < |tail| ==> tail[i] == candidate[i + 1];
      var head := if !HasParameter(contract, Key(p)) && p.isRequired
                  then [ExcessRequiredParameter(cx.path, cx.httpMethod, p.name, p.kind)] else [];
      var rest := ExcessRequiredParameters(cx, tail, contract);
      assert ExcessRequiredParameters(cx, candidate, contract) == head + rest;
      SelectConcat(head, rest, OfParameter(key));
      ExcessByKey(cx, tail, contract, key);
      if Key(p) == key {
        assert !HasParameter(tail, key);
        assert FindParameter(candidate, key) == Some(p);
      } else {
        assert Select(head, OfParameter(key)) == [];
        assert FindParameter(candidate, key) == FindParameter(tail, key);
      }
    }
  }

  lemma {:induction false} IncompatibleByKey(cx: VerificationContext, candidate: seq<Parameter>,
                                             contract: seq<Parameter>, key: ParamKey)
    requires DistinctParameterKeys(candidate)
    ensures Select(IncompatibleParameters(cx, candidate, contract), OfParameter(key))
            == match (FindParameter(candidate, key), FindParameter(contract, key))
               case (Some(p), Some(q)) => VerifyParameterCompatibility(cx, p, q)
               case _ => []
  {
    if candidate != [] {
      var p := candidate[0];
      var tail := candidate[1..];
      assert forall i :: 0 <= i < |tail| ==> tail[i] == candidate[i + 1];
      var head := match FindParameter(contract, Key(p))
                  case Some(q) => VerifyParameterCompatibility(cx, p, q)
                  case None => [];
      var rest := IncompatibleParameters(cx, tail, contract);
      assert IncompatibleParameters(cx, candidate, contract) == head + rest;
      SelectConcat(head, rest, OfParameter(key));
      IncompatibleByKey(cx, tail, contract, key);
      if Key(p) == key {
        assert !HasParameter(tail, key);
        assert FindParameter(candidate, key) == Some(p);
        SelectAll(head, OfParameter(key));
      } else {
        assert Select(head, OfParameter(key)) == [];
        assert FindParameter(candidate, key) == FindParameter(tail, key);
      }
    }
  }

  /**
   * For every (Name, Kind) key, the failures the parameter pass reports about
   * that key are exactly the reference verdict: at most one, of the right
   * variant, with the contract snapshot first.
   */
  lemma ParameterVerdict(cx: VerificationContext, candidateOperation: Operation, contractOperation: Operation,
                         key: ParamKey)
    requires DistinctParameterKeys(candidateOperation.parameters)
    requires DistinctParameterKeys(contractOperation.parameters)
    ensures Select(VerifyParameters(cx, candidateOperation, contractOperation), OfParameter(key))
            == KeyVerdict(cx, candidateOperation.parameters, contractOperation.parameters, key)
  {
    var candidate := candidateOperation.parameters;
    var contract := contractOperation.parameters;
    var m := MissingParameters(cx, candidate, contract);
    var e := ExcessRequiredParameters(cx, candidate, contract);
    var i := IncompatibleParameters(cx, candidate, contract);
    var s := OfParameter(key);
    assert Select(VerifyParameters(cx, candidateOperation, contractOperation), s)
           == Select(m, s) + Select(e, s) + Select(i, s) by {
      SelectConcat(m + e, i, s);
      SelectConcat(m, e, s);
    }
    MissingByKey(cx, candidate, contract, key);
    ExcessByKey(cx, candidate, contract, key);
    IncompatibleByKey(cx, candidate, contract, key);
  }

  /** A contract key the candidate lacks is reported exactly once as missing, and no other key is. */
  lemma MissingParameterReportedOnce(cx: VerificationContext, candidateOperation: Operation,
                                     contractOperation: Operation, name: string, kind: ParameterKind)
    requires DistinctParameterKeys(candidateOperation.parameters)
    requires DistinctParameterKeys(contractOperation.parameters)
    ensures multiset(VerifyParameters(cx, candidateOperation, contractOperation))
              [MissingParameter(cx.path, cx.httpMethod, name, kind)]
            == if HasParameter(contractOperation.parameters, (name, kind))
                  && !HasParameter(candidateOperation.parameters, (name, kind))
               then 1 else 0
  {
    var f := MissingParameter(cx.path, cx.httpMethod, name, kind);
    ParameterVerdict(cx, candidateOperation, contractOperation, (name, kind));
    SelectCount(VerifyParameters(cx, candidateOperation, contractOperation), OfParameter((name, kind)), f);
  }

  /** A key only the candidate has is reported exactly once when its parameter is required, and never otherwise. */
  lemma ExcessRequiredParameterIffRequired(cx: VerificationContext, candidateOperation: Operation,
                                           contractOperation: Operation, name: string, kind: ParameterKind)
    requires DistinctParameterKeys(candidateOperation.parameters)
    requires DistinctParameterKeys(contractOperation.parameters)
    ensures multiset(VerifyParameters(cx, candidateOperation, contractOperation))
              [ExcessRequiredParameter(cx.path, cx.httpMethod, name, kind)]
            == if HasRequiredParameter(candidateOperation.parameters, (name, kind))
                  && !HasParameter(contractOperation.parameters, (name, kind))
               then 1 else 0
  {
    var candidate := candidateOperation.parameters;
    var f := ExcessRequiredParameter(cx.path, cx.httpMethod, name, kind);
    ParameterVerdict(cx, candidateOperation, contractOperation, (name, kind));
    SelectCount(VerifyParameters(cx, candidateOperation, contractOperation), OfParameter((name, kind)), f);
    if HasRequiredParameter(candidate, (name, kind)) {
      var i :| 0 <= i < |candidate| && Key(candidate[i]) == (name, kind) && candidate[i].isRequired;
      FindParameterUnique(candidate, (name, kind), i);
    } else if FindParameter(candidate, (name, kind)).Some? {
      var p := FindParameter(candidate, (name, kind)).value;
      var i :| 0 <= i < |candidate| && candidate[i] == p;
      assert !p.isRequired;
    }
  }

  /**
   * A key both operations have is reported, exactly once and carrying the
   * contract snapshot then the candidate snapshot, iff one of the five
   * constraint fields differs; nothing else is reported about that key.
   */
  lemma IncompatibleParameterIffConstraintsDiffer(cx: VerificationContext, candidateOperation: Operation,
                                                  contractOperation: Operation, i: nat, j: nat)
    requires DistinctParameterKeys(candidateOperation.parameters)
    requires DistinctParameterKeys(contractOperation.parameters)
    requires i < |candidateOperation.parameters| && j < |contractOperation.parameters|
    requires Key(candidateOperation.parameters[i]) == Key(contractOperation.parameters[j])
    ensures var p, q := candidateOperation.parameters[i], contractOperation.parameters[j];
            Select(VerifyParameters(cx, candidateOperation, contractOperation), OfParameter(Key(q)))
            == if SameConstraints(p, q) then []
               else [IncompatibleParameter(cx.path, cx.httpMethod, q.name, q.kind, ConstraintsOf(q), ConstraintsOf(p))]
  {
    var p, q := candidateOperation.parameters[i], contractOperation.parameters[j];
    ParameterVerdict(cx, candidateOperation, contractOperation, Key(q));
    FindParameterUnique(candidateOperation.parameters, Key(q), i);
    FindParameterUnique(contractOperation.parameters, Key(q), j);
  }

  // ---------------------------------------------------------------------------
  // Order of the report
  // ---------------------------------------------------------------------------

  /** The pass a parameter-level failure comes from. */
  function Pass(f: VerificationFailure): nat
  {
    match f
    case MissingParameter(_, _, _, _) => 0
    case ExcessRequiredParameter(_, _, _, _) => 1
    case IncompatibleParameter(_, _, _, _, _, _) => 2
    case _ => 3
  }

  /** Within one operation, all missing failures come first, then excess-required ones, then incompatible ones. */
  lemma ParameterPassesInOrder(cx: VerificationContext, candidateOperation: Operation, contractOperation: Operation)
    requires DistinctParameterKeys(candidateOperation.parameters)
    requires DistinctParameterKeys(contractOperation.parameters)
    ensures var r := VerifyParameters(cx, candidateOperation, contractOperation);
            forall i, j :: 0 <= i < j < |r| ==> Pass(r[i]) <= Pass(r[j])
  {
    var candidate := candidateOperation.parameters;
    var contract := contractOperation.parameters;
    var m := MissingParameters(cx, candidate, contract);
    var e := ExcessRequiredParameters(cx, candidate, contract);
    var c := IncompatibleParameters(cx, candidate, contract);
    var r := m + e + c;
    forall i | 0 <= i < |r|
      ensures Pass(r[i]) == if i < |m| then 0 else if i < |m| + |e| then 1 else 2
    {
      if i < |m| {
        assert r[i] == m[i] && m[i] in m;
      } else if i < |m| + |e| {
        assert r[i] == e[i - |m|] && e[i - |m|] in e;
      } else {
        assert r[i] == c[i - |m| - |e|] && c[i - |m| - |e|] in c;
      }
    }
  }

  /** a is a (not necessarily contiguous) subsequence of b. */
  predicate IsSubsequence<T(==)>(a: seq<T>, b: seq<T>)
    decreases |b|
  {
    a == [] || (b != [] && ((a[0] == b[0] && IsSubsequence(a[1..], b[1..])) || IsSubsequence(a, b[1..])))
  }

  /** The (Name, Kind) keys of a sequence of parameter-level failures. */
  function FailureKeys(fs: seq<VerificationFailure>): (ks: seq<ParamKey>)
    requires forall f :: f in fs ==> IsParameterFailure(f)
    ensures |ks| == |fs|
    ensures forall i :: 0 <= i < |fs| ==> ks[i] == FailureKey(fs[i])
  {
    if fs == [] then [] else [FailureKey(fs[0])] + FailureKeys(fs[1..])
  }

  /** A block reporting at most the first key, followed by a block following the remaining keys in order. */
  lemma {:induction false} ConsFollowsOrder(ps: seq<Parameter>, head: seq<VerificationFailure>,
                                            rest: seq<VerificationFailure>)
    requires ps != []
    requires |head| <= 1 && forall f :: f in head ==> IsParameterFailure(f) && FailureKey(f) == Key(ps[0])
    requires forall f :: f in rest ==> IsParameterFailure(f)
    requires IsSubsequence(FailureKeys(rest), ParameterKeys(ps[1..]))
    ensures IsSubsequence(FailureKeys(head + rest), ParameterKeys(ps))
  {
    var ks := ParameterKeys(ps);
    assert ks[1..] == ParameterKeys(ps[1..]);
    if head == [] {
      assert head + rest == rest;
    } else {
      assert head[0] in head;
      assert FailureKeys(head + rest)[1..] == FailureKeys(rest);
    }
  }

  /** The missing pass follows the enumeration order of the contract's parameters. */
  lemma {:induction false} MissingInContractOrder(cx: VerificationContext, candidate: seq<Parameter>,
                                                  contract: seq<Parameter>)
    ensures IsSubsequence(FailureKeys(MissingParameters(cx, candidate, contract)), ParameterKeys(contract))
  {
    if contract != [] {
      var p := contract[0];
      var head := if HasParameter(candidate, Key(p)) then [] else [MissingParameter(cx.path, cx.httpMethod, p.name, p.kind)];
      MissingInContractOrder(cx, candidate, contract[1..]);
      ConsFollowsOrder(contract, head, MissingParameters(cx, candidate, contract[1..]));
    }
  }

  /** The excess-required pass follows the enumeration order of the candidate's parameters. */
  lemma {:induction false} ExcessInCandidateOrder(cx: VerificationContext, candidate: seq<Parameter>,
                                                  contract: seq<Parameter>)
    ensures IsSubsequence(FailureKeys(ExcessRequiredParameters(cx, candidate, contract)), ParameterKeys(candidate))
  {
    if candidate != [] {
      var p := candidate[0];
      var head := if !HasParameter(contract, Key(p)) && p.isRequired
                  then [ExcessRequiredParameter(cx.path, cx.httpMethod, p.name, p.kind)] else [];
      ExcessInCandidateOrder(cx, candidate[1..], contract);
      ConsFollowsOrder(candidate, head, ExcessRequiredParameters(cx, candidate[1..], contract));
    }
  }

  /** The incompatible pass follows the enumeration order of the candidate's parameters (the outer side of the join). */
  lemma {:induction false} IncompatibleInCandidateOrder(cx: VerificationContext, candidate: seq<Parameter>,
                                                        contract: seq<Parameter>)
    ensures IsSubsequence(FailureKeys(IncompatibleParameters(cx, candidate, contract)), ParameterKeys(candidate))
  {
    if candidate != [] {
      var p := candidate[0];
      var head := match FindParameter(contract, Key(p))
                  case Some(q) => VerifyParameterCompatibility(cx, p, q)
                  case None => [];
      IncompatibleInCandidateOrder(cx, candidate[1..], contract);
      ConsFollowsOrder(candidate, head, IncompatibleParameters(cx, candidate[1..], contract));
    }
  }

  /** Comparing an operation with itself reports nothing. */
  lemma SelfParametersCompatible(cx: VerificationContext, operation: Operation)
    requires DistinctParameterKeys(operation.parameters)
    ensures VerifyParameters(cx, operation, operation) == []
  {
    var r := VerifyParameters(cx, operation, operation);
    if r != [] {
      var f := r[0];
      assert f in r;
      var key := FailureKey(f);
      ParameterVerdict(cx, operation, operation, key);
    }
  }
}
