/**
 * What the path and method traversal reports: the failures about one path (or
 * one method of a path) are exactly what that contract entry contributes, they
 * come out in the contract's order, and what only the candidate has is never
 * reported.
 */
module TraversalProperties {

  import opened Wrappers
  import opened OpenApi
  import opened Verifier
  import opened Selection
  import opened ParameterProperties

  // ---------------------------------------------------------------------------
  // Grouping in a given order
  // ---------------------------------------------------------------------------

  /**
   * Walking along keys, every tag is the current key or a later one: the tags
   * come in contiguous groups, one per key, in the order of keys.
   */
  predicate OrderedAlong<T(==)>(keys: seq<T>, tags: seq<T>)
    decreases |keys|, |tags|
  {
    tags == [] || (keys != [] && ((tags[0] == keys[0] && OrderedAlong(keys, tags[1..])) || OrderedAlong(keys[1..], tags)))
  }

  /** A group tagged with the first key, followed by tags walking along the remaining keys. */
  lemma {:induction false} OrderedAlongBlock<T>(k: T, keys: seq<T>, block: seq<T>, tags: seq<T>)
    requires forall i :: 0 <= i < |block| ==> block[i] == k
    requires OrderedAlong(keys, tags)
    ensures OrderedAlong([k] + keys, block + tags)
  {
    if block == [] {
      assert block + tags == tags;
      assert ([k] + keys)[1..] == keys;
    } else {
      assert (block + tags)[1..] == block[1..] + tags;
      OrderedAlongBlock(k, keys, block[1..], tags);
    }
  }

  function PathsOf(fs: seq<VerificationFailure>): (ps: seq<string>)
    ensures |ps| == |fs| && forall i :: 0 <= i < |fs| ==> ps[i] == fs[i].path
  {
    if fs == [] then [] else [fs[0].path] + PathsOf(fs[1..])
  }

  /** The method a failure is about; a MissingPath names none. */
  function MethodOf(f: VerificationFailure): string
  {
    if f.MissingPath? then "" else f.httpMethod
  }

  function MethodsOf(fs: seq<VerificationFailure>): (ms: seq<string>)
    ensures |ms| == |fs| && forall i :: 0 <= i < |fs| ==> ms[i] == MethodOf(fs[i])
  {
    if fs == [] then [] else [MethodOf(fs[0])] + MethodsOf(fs[1..])
  }

  lemma PathsOfConcat(a: seq<VerificationFailure>, b: seq<VerificationFailure>)
    ensures PathsOf(a + b) == PathsOf(a) + PathsOf(b)
  {
  }

  lemma MethodsOfConcat(a: seq<VerificationFailure>, b: seq<VerificationFailure>)
    ensures MethodsOf(a + b) == MethodsOf(a) + MethodsOf(b)
  {
  }

  // ---------------------------------------------------------------------------
  // Methods of one path
  // ---------------------------------------------------------------------------

  /** The failures about one contract method are exactly what that method's entry contributes. */
  lemma {:induction false} MethodSlice(cx: VerificationContext, candidate: PathItem, contract: PathItem, k: nat)
    requires PathItemComparable(candidate, contract) && DistinctKeys(contract) && k < |contract|
    ensures Select(PathItemFailures(cx, candidate, contract), OfMethod(contract[k].0))
            == OperationEntryFailures(cx, candidate, contract[k])
  {
    var tail := contract[1..];
    assert forall i :: 0 <= i < |tail| ==> tail[i] == contract[i + 1];
    var here := OperationEntryFailures(cx, candidate, contract[0]);
    var rest := PathItemFailures(cx, candidate, tail);
    assert PathItemFailures(cx, candidate, contract) == here + rest;
    PathItemFailuresLocated(cx, candidate, tail);
    SelectConcat(here, rest, OfMethod(contract[k].0));
    if k == 0 {
      SelectAll(here, OfMethod(contract[0].0));
      assert !HasKey(tail, contract[0].0);
      SelectNone(rest, OfMethod(contract[0].0));
    } else {
      assert contract[k].0 != contract[0].0;
      SelectNone(here, OfMethod(contract[k].0));
      MethodSlice(cx, candidate, tail, k - 1);
    }
  }

  /** Failures come out grouped by method, in the contract path item's method order. */
  lemma {:induction false} MethodsInContractOrder(cx: VerificationContext, candidate: PathItem, contract: PathItem)
    requires PathItemComparable(candidate, contract)
    ensures OrderedAlong(KeysOf(contract), MethodsOf(PathItemFailures(cx, candidate, contract)))
  {
    if contract != [] {
      var tail := contract[1..];
      assert forall i :: 0 <= i < |tail| ==> tail[i] == contract[i + 1];
      var here := OperationEntryFailures(cx, candidate, contract[0]);
      var rest := PathItemFailures(cx, candidate, tail);
      assert PathItemFailures(cx, candidate, contract) == here + rest;
      MethodsInContractOrder(cx, candidate, tail);
      MethodsOfConcat(here, rest);
      assert KeysOf(contract) == [contract[0].0] + KeysOf(tail);
      forall i | 0 <= i < |here| ensures MethodsOf(here)[i] == contract[0].0 {
        assert here[i] in here;
      }
      OrderedAlongBlock(contract[0].0, KeysOf(tail), MethodsOf(here), MethodsOf(rest));
    }
  }

  /** Methods only the candidate has do not change the failures of a path. */
  lemma {:induction false} AddedMethodsChangeNothing(cx: VerificationContext, candidate: PathItem, extra: PathItem,
                                                     contract: PathItem)
    requires PathItemComparable(candidate, contract)
    requires forall i :: 0 <= i < |extra| ==> !HasKey(contract, extra[i].0)
    ensures PathItemComparable(candidate + extra, contract)
    ensures PathItemFailures(cx, candidate + extra, contract) == PathItemFailures(cx, candidate, contract)
  {
    forall i | 0 <= i < |contract|
      ensures Lookup(candidate + extra, contract[i].0) == Lookup(candidate, contract[i].0)
    {
      assert HasKey(contract, contract[i].0);
      LookupAppend(candidate, extra, contract[i].0);
    }
    if contract != [] {
      var tail := contract[1..];
      assert forall i :: 0 <= i < |tail| ==> tail[i] == contract[i + 1];
      assert forall k :: HasKey(tail, k) ==> HasKey(contract, k);
      AddedMethodsChangeNothing(cx, candidate, extra, tail);
    }
  }

  // ---------------------------------------------------------------------------
  // Paths of the document
  // ---------------------------------------------------------------------------

  /** The failures about one contract path are exactly what that path's entry contributes. */
  lemma {:induction false} PathSlice(candidate: Document, contract: Paths, k: nat)
    requires PathsComparable(candidate, contract) && DistinctKeys(contract) && k < |contract|
    ensures Select(PathsFailures(candidate, contract), OfPath(contract[k].0))
            == PathEntryFailures(candidate, contract[k])
  {
    var tail := contract[1..];
    assert forall i :: 0 <= i < |tail| ==> tail[i] == contract[i + 1];
    var here := PathEntryFailures(candidate, contract[0]);
    var rest := PathsFailures(candidate, tail);
    assert PathsFailures(candidate, contract) == here + rest;
    PathsFailuresLocated(candidate, tail);
    PathEntryFailuresLocated(candidate, contract[0]);
    SelectConcat(here, rest, OfPath(contract[k].0));
    if k == 0 {
      SelectAll(here, OfPath(contract[0].0));
      assert !HasKey(tail, contract[0].0);
      SelectNone(rest, OfPath(contract[0].0));
    } else {
      assert contract[k].0 != contract[0].0;
      SelectNone(here, OfPath(contract[k].0));
      PathSlice(candidate, tail, k - 1);
    }
  }

  /** Failures come out grouped by path, in the contract's path order. */
  lemma {:induction false} PathsInContractOrder(candidate: Document, contract: Paths)
    requires PathsComparable(candidate, contract)
    ensures OrderedAlong(KeysOf(contract), PathsOf(PathsFailures(candidate, contract)))
  {
    if contract != [] {
      var tail := contract[1..];
      assert forall i :: 0 <= i < |tail| ==> tail[i] == contract[i + 1];
      var here := PathEntryFailures(candidate, contract[0]);
      var rest := PathsFailures(candidate, tail);
      assert PathsFailures(candidate, contract) == here + rest;
      PathsInContractOrder(candidate, tail);
      PathEntryFailuresLocated(candidate, contract[0]);
      PathsOfConcat(here, rest);
      assert KeysOf(contract) == [contract[0].0] + KeysOf(tail);
      forall i | 0 <= i < |here| ensures PathsOf(here)[i] == contract[0].0 {
        assert here[i] in here;
      }
      OrderedAlongBlock(contract[0].0, KeysOf(tail), PathsOf(here), PathsOf(rest));
    }
  }

  /** Paths only the candidate has do not change the report. */
  lemma {:induction false} AddedPathsChangeNothing(candidate: Document, extra: Paths, contract: Paths)
    requires PathsComparable(candidate, contract)
    requires forall i :: 0 <= i < |extra| ==> !HasKey(contract, extra[i].0)
    ensures PathsComparable(Document(candidate.paths + extra), contract)
    ensures PathsFailures(Document(candidate.paths + extra), contract) == PathsFailures(candidate, contract)
  {
    forall i | 0 <= i < |contract|
      ensures Lookup(candidate.paths + extra, contract[i].0) == Lookup(candidate.paths, contract[i].0)
    {
      assert HasKey(contract, contract[i].0);
      LookupAppend(candidate.paths, extra, contract[i].0);
    }
    if contract != [] {
      var tail := contract[1..];
      assert forall i :: 0 <= i < |tail| ==> tail[i] == contract[i + 1];
      assert forall k :: HasKey(tail, k) ==> HasKey(contract, k);
      AddedPathsChangeNothing(candidate, extra, tail);
    }
  }

  /** Looking up a key that the appended entries do not hold. */
  lemma {:induction false} LookupAppend<K, V>(entries: seq<(K, V)>, extra: seq<(K, V)>, k: K)
    requires !HasKey(extra, k)
    ensures Lookup(entries + extra, k) == Lookup(entries, k)
  {
    if entries == [] {
      assert entries + extra == extra;
    } else {
      assert (entries + extra)[0] == entries[0];
      assert (entries + extra)[1..] == entries[1..] + extra;
      LookupAppend(entries[1..], extra, k);
    }
  }

  // ---------------------------------------------------------------------------
  // The report of a whole verification run
  // ---------------------------------------------------------------------------

  /** A contract path the candidate lacks is reported once as MissingPath, and nothing else is reported about it. */
  lemma MissingPathReportedOnce(candidate: Document, contract: Document, k: nat)
    requires PathsComparable(candidate, contract.paths) && DistinctKeys(contract.paths)
    requires k < |contract.paths| && !HasKey(candidate.paths, contract.paths[k].0)
    ensures Select(PathsFailures(candidate, contract.paths), OfPath(contract.paths[k].0))
            == [MissingPath(contract.paths[k].0)]
  {
    PathSlice(candidate, contract.paths, k);
  }

  /** MissingPath(p) is reported iff p is a contract path the candidate lacks. */
  lemma MissingPathIff(candidate: Document, contract: Document, path: string)
    requires PathsComparable(candidate, contract.paths) && DistinctKeys(contract.paths)
    ensures MissingPath(path) in PathsFailures(candidate, contract.paths)
            <==> HasKey(contract.paths, path) && !HasKey(candidate.paths, path)
  {
    var r := PathsFailures(candidate, contract.paths);
    if HasKey(contract.paths, path) {
      var k :| 0 <= k < |contract.paths| && contract.paths[k].0 == path;
      PathSlice(candidate, contract.paths, k);
      assert MissingPath(path) in r <==> MissingPath(path) in Select(r, OfPath(path));
      match Lookup(candidate.paths, path)
      case Some(candPathItem) =>
        PathItemFailuresLocated(VerificationContext(path, ""), candPathItem, contract.paths[k].1);
      case None =>
    } else {
      PathsFailuresLocated(candidate, contract.paths);
    }
  }

  /** A path only the candidate has is never mentioned by any failure. */
  lemma AddedPathNeverReported(candidate: Document, contract: Document, path: string)
    requires PathsComparable(candidate, contract.paths) && !HasKey(contract.paths, path)
    ensures Select(PathsFailures(candidate, contract.paths), OfPath(path)) == []
  {
    PathsFailuresLocated(candidate, contract.paths);
    SelectNone(PathsFailures(candidate, contract.paths), OfPath(path));
  }

  /**
   * On a shared path, a contract method the candidate lacks is reported once as
   * MissingHttpMethod, and no parameter-level failure is reported for it.
   */
  lemma MissingMethodReportedOnce(candidate: Document, contract: Document, path: string, httpMethod: string,
                                  candPathItem: PathItem, contractPathItem: PathItem)
    requires PathsComparable(candidate, contract.paths) && DistinctKeys(contract.paths)
    requires Lookup(contract.paths, path) == Some(contractPathItem) && DistinctKeys(contractPathItem)
    requires Lookup(candidate.paths, path) == Some(candPathItem)
    requires HasKey(contractPathItem, httpMethod) && !HasKey(candPathItem, httpMethod)
    ensures Select(Select(PathsFailures(candidate, contract.paths), OfPath(path)), OfMethod(httpMethod))
            == [MissingHttpMethod(path, httpMethod)]
  {
    LookupEntry(contract.paths, path);
    var k :| 0 <= k < |contract.paths| && contract.paths[k] == (path, contractPathItem);
    PathSlice(candidate, contract.paths, k);
    var j :| 0 <= j < |contractPathItem| && contractPathItem[j].0 == httpMethod;
    MethodSlice(VerificationContext(path, ""), candPathItem, contractPathItem, j);
  }

  /** On a shared path, a method only the candidate has is never mentioned by any failure. */
  lemma AddedMethodNeverReported(candidate: Document, contract: Document, path: string, httpMethod: string,
                                 contractPathItem: PathItem)
    requires PathsComparable(candidate, contract.paths) && DistinctKeys(contract.paths)
    requires Lookup(contract.paths, path) == Some(contractPathItem) && HasKey(candidate.paths, path)
    requires !HasKey(contractPathItem, httpMethod)
    ensures Select(Select(PathsFailures(candidate, contract.paths), OfPath(path)), OfMethod(httpMethod)) == []
  {
    LookupEntry(contract.paths, path);
    var k :| 0 <= k < |contract.paths| && contract.paths[k] == (path, contractPathItem);
    PathSlice(candidate, contract.paths, k);
    var candPathItem := Lookup(candidate.paths, path).value;
    PathItemFailuresLocated(VerificationContext(path, ""), candPathItem, contractPathItem);
    var slice := Select(PathsFailures(candidate, contract.paths), OfPath(path));
    SelectNone(slice, OfMethod(httpMethod));
  }

  /**
   * On a shared path and method, the failures reported about one (Name, Kind)
   * key are exactly the reference verdict for that key.
   */
  lemma ParameterVerdictInDocument(candidate: Document, contract: Document, path: string, httpMethod: string,
                                   candPathItem: PathItem, contractPathItem: PathItem,
                                   candidateOperation: Operation, contractOperation: Operation, key: ParamKey)
    requires PathsComparable(candidate, contract.paths) && DistinctKeys(contract.paths)
    requires Lookup(contract.paths, path) == Some(contractPathItem) && DistinctKeys(contractPathItem)
    requires Lookup(candidate.paths, path) == Some(candPathItem)
    requires Lookup(contractPathItem, httpMethod) == Some(contractOperation)
    requires Lookup(candPathItem, httpMethod) == Some(candidateOperation)
    ensures Select(Select(Select(PathsFailures(candidate, contract.paths), OfPath(path)), OfMethod(httpMethod)),
                   OfParameter(key))
            == KeyVerdict(VerificationContext(path, httpMethod), candidateOperation.parameters,
                          contractOperation.parameters, key)
  {
    LookupEntry(contract.paths, path);
    var k :| 0 <= k < |contract.paths| && contract.paths[k] == (path, contractPathItem);
    PathSlice(candidate, contract.paths, k);
    LookupEntry(contractPathItem, httpMethod);
    var j :| 0 <= j < |contractPathItem| && contractPathItem[j] == (httpMethod, contractOperation);
    assert PathItemComparable(candPathItem, contractPathItem);
    assert OperationComparable(candPathItem, contractPathItem[j]);
    MethodSlice(VerificationContext(path, ""), candPathItem, contractPathItem, j);
    ParameterVerdict(VerificationContext(path, httpMethod), candidateOperation, contractOperation, key);
  }

  // ---------------------------------------------------------------------------
  // Unchanged contracts
  // ---------------------------------------------------------------------------

  /** A candidate path item holding every contract operation unchanged (and perhaps more) yields nothing. */
  lemma {:induction false} UnchangedMethodsCompatible(cx: VerificationContext, candidate: PathItem, contract: PathItem)
    requires forall i :: 0 <= i < |contract| ==>
               Lookup(candidate, contract[i].0) == Some(contract[i].1) && DistinctParameterKeys(contract[i].1.parameters)
    ensures PathItemComparable(candidate, contract) && PathItemFailures(cx, candidate, contract) == []
  {
    if contract != [] {
      var tail := contract[1..];
      assert forall i :: 0 <= i < |tail| ==> tail[i] == contract[i + 1];
      UnchangedMethodsCompatible(cx, candidate, tail);
      SelfParametersCompatible(cx.(httpMethod := contract[0].0), contract[0].1);
    }
  }

  /** Every path item and operation of a document is a well-formed dictionary. */
  predicate WellFormedDocument(d: Document)
  {
    && DistinctKeys(d.paths)
    && (forall i :: 0 <= i < |d.paths| ==> DistinctKeys(d.paths[i].1))
    && (forall i, j :: 0 <= i < |d.paths| && 0 <= j < |d.paths[i].1| ==>
          DistinctParameterKeys(d.paths[i].1[j].1.parameters))
  }

  /** A candidate holding every contract path unchanged (and perhaps more) yields nothing. */
  lemma {:induction false} UnchangedPathsCompatible(candidate: Document, contract: Paths)
    requires forall i :: 0 <= i < |contract| ==>
               && Lookup(candidate.paths, contract[i].0) == Some(contract[i].1)
               && DistinctKeys(contract[i].1)
               && (forall j :: 0 <= j < |contract[i].1| ==> DistinctParameterKeys(contract[i].1[j].1.parameters))
    ensures PathsComparable(candidate, contract) && PathsFailures(candidate, contract) == []
  {
    if contract != [] {
      var tail := contract[1..];
      assert forall i :: 0 <= i < |tail| ==> tail[i] == contract[i + 1];
      UnchangedPathsCompatible(candidate, tail);
      var item := contract[0].1;
      forall i | 0 <= i < |item| ensures Lookup(item, item[i].0) == Some(item[i].1) {
        LookupEntry(item, item[i].0);
      }
      UnchangedMethodsCompatible(VerificationContext(contract[0].0, ""), item, item);
    }
  }

  /** Comparing a well-formed document with itself reports nothing. */
  lemma SelfCompatible(d: Document)
    requires WellFormedDocument(d)
    ensures PathsComparable(d, d.paths) && PathsFailures(d, d.paths) == []
  {
    forall i | 0 <= i < |d.paths| ensures Lookup(d.paths, d.paths[i].0) == Some(d.paths[i].1) {
      LookupEntry(d.paths, d.paths[i].0);
    }
    UnchangedPathsCompatible(d, d.paths);
  }
}
