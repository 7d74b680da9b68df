# OpenAPI contract verification — a Dafny model of the diff engine

The repository checks that a *candidate* OpenAPI document is backward compatible
with a *contract* document. Its core, `Verifier`, walks the two already-parsed
documents in four levels and reports every divergence as a value of a closed set
of failure variants:

- **paths** — for every contract path, in the contract's order, the candidate
  either lacks it (`MissingPath`) or the path's methods are checked;
- **methods** — for every method of the contract path item, in the contract's
  order, the candidate either lacks it (`MissingHttpMethod`) or the shared
  operation is checked;
- **parameters** — the parameters of both operations are put into dictionaries
  keyed by (Name, Kind), and three passes run one after the other: contract keys
  the candidate lacks (`MissingParameter`, contract order), candidate keys the
  contract lacks whose parameter is required (`ExcessRequiredParameter`,
  candidate order), and keys both have whose constraints differ
  (`IncompatibleParameter`, candidate order — the join's outer side);
- **constraints** — a parameter's Type, IsRequired, Maximum, MaxItems and
  MaxLength are copied into a `ParameterConstraints` snapshot, and two
  snapshots are compatible only when they are equal field by field.

The Dafny project has seven modules:

| module | file | contents |
|---|---|---|
| `Wrappers` | `wrappers.dfy` | `Option` |
| `OpenApi` | `openapi.dfy` | documents, path items, operations, parameters as ordered association lists; dictionary lookup (`TryGetValue`) |
| `Verifier` | `verifier.dfy` | failures, constraint snapshots, the parameter passes as functions, the traversal as the loop methods `Verify` and `VerifyOperations`, each proved equal to a recursive specification function |
| `Selection` | `selection.dfy` | the failures of a report that concern one path, one method or one (Name, Kind) key |
| `ParameterProperties` | `parameter_properties.dfy` | per-key reference verdict, counts, and order of the parameter passes |
| `TraversalProperties` | `traversal_properties.dfy` | what the report says about each path and method, its order, and the self-comparison of a document |
| `Scenarios` | `scenarios.dfy` | the repository's path and method test cases, stated on the model |

Every dictionary of the source is a sequence of (key, value) pairs with
distinct keys, listed in the dictionary's enumeration order, so the report's
order is a statable property. .NET leaves that order unspecified; for these
dictionaries, which are built once and never shrink, it is insertion order in
practice, and that is the order the model uses. `ToDictionary` throws when two
parameters of one operation share a (Name, Kind) key. Overwriting the entry
(last write wins) would behave differently; the model rules that input out with
the precondition `DistinctParameterKeys` on both operations of every compared
pair (`PathsComparable` on a whole run).

## Model

| member | source | states |
|---|---|---|
| OpenApi.Lookup | src/OasContractVerification/Verifier.cs:12 | dictionary lookup (`TryGetValue`) finds a value exactly when some entry has the key |
| OpenApi.LookupEntry | src/OasContractVerification/Verifier.cs:31 | the value found is stored under the key, and with distinct keys it is the value of every entry under that key |
| OpenApi.FindParameter | src/OasContractVerification/Verifier.cs:66 | indexing the (Name, Kind) parameter dictionary finds a parameter exactly when one has the key, and the one found is in the list with that key |
| OpenApi.FindParameterUnique | src/OasContractVerification/Verifier.cs:57-58 | with distinct keys, the parameter found under a key is the list's only parameter with that key |
| Verifier.ConstraintsOf | src/OasContractVerification/Verifier.cs:120-127 | the snapshot taken from a parameter copies its Type, IsRequired, Maximum, MaxItems and MaxLength verbatim |
| ParameterProperties.ConstraintsEqualIff | src/OasContractVerification/Verifier.cs:129-142 | two snapshots are equal (record value equality) iff all five constraint fields of the parameters agree |
| Verifier.VerifyParameterCompatibility | src/OasContractVerification/Verifier.cs:80-89 | at most one failure; none iff the five fields agree; otherwise an IncompatibleParameter under the contract parameter's name and kind carrying the contract snapshot first, the candidate snapshot second |
| Verifier.MissingParameters | src/OasContractVerification/Verifier.cs:60-62 | every failure of the first pass is a MissingParameter at the current operation for a key the contract has and the candidate lacks |
| Verifier.ExcessRequiredParameters | src/OasContractVerification/Verifier.cs:64-68 | every failure of the second pass is an ExcessRequiredParameter at the current operation for a required candidate key the contract lacks |
| Verifier.IncompatibleParameters | src/OasContractVerification/Verifier.cs:70-72 | every failure of the third pass is an IncompatibleParameter at the current operation for a key both sides have, with differing snapshots |
| Verifier.VerifyParameters | src/OasContractVerification/Verifier.cs:55-78 | needs distinct (Name, Kind) keys on both operations (the dictionaries are built); every failure is parameter-level and at the current path and method |
| Verifier.VerifyOperation | src/OasContractVerification/Verifier.cs:44-53 | the checks of a shared operation report only parameter-level failures at that operation |
| Verifier.OperationEntryFailures | src/OasContractVerification/Verifier.cs:30-40 | a contract method contributes only failures at (path, method), and contributes exactly [MissingHttpMethod(path, method)] iff the candidate lacks the method |
| Verifier.PathItemFailuresLocated | src/OasContractVerification/Verifier.cs:26-42 | every failure of a path item is at the current path and names one of the contract path item's methods; none is a MissingPath |
| Verifier.PathItemFailuresSnoc | src/OasContractVerification/Verifier.cs:28-41 | appending a method to the contract path item appends exactly that method's failures after the others |
| Verifier.VerifyOperations | src/OasContractVerification/Verifier.cs:26-42 | the loop over contract methods, with the context reassigned each iteration, returns exactly `PathItemFailures`, the recursive definition over the contract's methods that the method-level lemmas are about |
| Verifier.PathEntryFailures | src/OasContractVerification/Verifier.cs:12-22 | a contract path contributes exactly [MissingPath(path)] iff the candidate lacks the path |
| Verifier.PathEntryFailuresLocated | src/OasContractVerification/Verifier.cs:12-17 | every failure a contract path contributes is about that path |
| Verifier.PathsFailuresLocated | src/OasContractVerification/Verifier.cs:10-23 | every failure of a run is about one of the contract's paths |
| Verifier.PathsFailuresSnoc | src/OasContractVerification/Verifier.cs:10-23 | appending a path to the contract appends exactly that path's failures after the others |
| Verifier.Verify | src/OasContractVerification/Verifier.cs:8-24 | the loop over contract paths returns exactly `PathsFailures`, the recursive definition over the contract's paths that the document-level lemmas are about |
| ParameterProperties.MissingByKey | src/OasContractVerification/Verifier.cs:60-62 | the first pass reports about a key exactly one MissingParameter if the contract has it and the candidate lacks it, and nothing otherwise |
| ParameterProperties.ExcessByKey | src/OasContractVerification/Verifier.cs:64-68 | the second pass reports about a key exactly one ExcessRequiredParameter if the candidate's parameter with that key is required and the contract lacks the key, and nothing otherwise |
| ParameterProperties.IncompatibleByKey | src/OasContractVerification/Verifier.cs:70-72 | the third pass reports about a key exactly the compatibility verdict of the two parameters with that key if both sides have it, and nothing otherwise |
| ParameterProperties.ParameterVerdict | src/OasContractVerification/Verifier.cs:55-78 | for every (Name, Kind) key, the parameter failures about that key are exactly an independent reference verdict: missing, excess only when required, incompatible only when the snapshots differ, else nothing |
| ParameterProperties.MissingParameterReportedOnce | src/OasContractVerification/Verifier.cs:60-62 | MissingParameter(path, method, name, kind) occurs exactly once if the contract has (name, kind) and the candidate lacks it, and never otherwise — a name or a kind mismatch both count as missing |
| ParameterProperties.ExcessRequiredParameterIffRequired | src/OasContractVerification/Verifier.cs:64-68 | ExcessRequiredParameter occurs exactly once iff the candidate-only key's parameter is required; an optional addition is never reported |
| ParameterProperties.IncompatibleParameterIffConstraintsDiffer | src/OasContractVerification/Verifier.cs:70-88 | for a key both operations have, the failures about it are one IncompatibleParameter (contract snapshot first) iff a constraint field differs, and none otherwise — a larger bound on the candidate is still reported |
| ParameterProperties.ParameterPassesInOrder | src/OasContractVerification/Verifier.cs:74-77 | within one operation all missing failures precede all excess-required ones, which precede all incompatible ones |
| ParameterProperties.MissingInContractOrder | src/OasContractVerification/Verifier.cs:60-62 | the keys of the missing failures are a subsequence of the contract's keys in dictionary order |
| ParameterProperties.ExcessInCandidateOrder | src/OasContractVerification/Verifier.cs:64-68 | the keys of the excess-required failures are a subsequence of the candidate's keys in dictionary order |
| ParameterProperties.IncompatibleInCandidateOrder | src/OasContractVerification/Verifier.cs:70-72 | the keys of the incompatible failures are a subsequence of the candidate's keys, the outer side of the join |
| ParameterProperties.SelfParametersCompatible | src/OasContractVerification/Verifier.cs:55-78 | an operation with distinct keys compared with itself reports nothing |
| TraversalProperties.MethodSlice | src/OasContractVerification/Verifier.cs:28-40 | with distinct method keys, the failures of a path item about one contract method are exactly what that method's entry contributes |
| TraversalProperties.MethodsInContractOrder | src/OasContractVerification/Verifier.cs:28-41 | failures of a path item come in contiguous groups by method, in the contract path item's method order |
| TraversalProperties.AddedMethodsChangeNothing | src/OasContractVerification/Verifier.cs:28-31 | adding methods the contract lacks to the candidate path item leaves its failures unchanged |
| TraversalProperties.PathSlice | src/OasContractVerification/Verifier.cs:10-22 | with distinct path keys, the failures about one contract path are exactly what that path's entry contributes |
| TraversalProperties.PathsInContractOrder | src/OasContractVerification/Verifier.cs:10-23 | failures come in contiguous groups by path, in the contract's path order |
| TraversalProperties.AddedPathsChangeNothing | src/OasContractVerification/Verifier.cs:10-12 | adding paths the contract lacks to the candidate leaves the report unchanged |
| TraversalProperties.MissingPathReportedOnce | src/OasContractVerification/Verifier.cs:19-22 | a contract path the candidate lacks yields exactly [MissingPath(path)] and no other failure mentions that path |
| TraversalProperties.MissingPathIff | src/OasContractVerification/Verifier.cs:10-22 | MissingPath(p) is reported iff p is a contract path and the candidate lacks it |
| TraversalProperties.AddedPathNeverReported | src/OasContractVerification/Verifier.cs:10-12 | no failure mentions a path that only the candidate has |
| TraversalProperties.MissingMethodReportedOnce | src/OasContractVerification/Verifier.cs:31-40 | on a shared path, a contract method the candidate lacks yields exactly [MissingHttpMethod(path, method)] and no parameter failure for that method |
| TraversalProperties.AddedMethodNeverReported | src/OasContractVerification/Verifier.cs:28-31 | on a shared path, no failure mentions a method only the candidate has |
| TraversalProperties.ParameterVerdictInDocument | src/OasContractVerification/Verifier.cs:8-78 | on a shared path and method, the failures of the whole run about one (Name, Kind) key are exactly the reference verdict for that key |
| TraversalProperties.UnchangedMethodsCompatible | src/OasContractVerification/Verifier.cs:26-42 | a candidate path item holding every contract operation unchanged, and perhaps more, yields no failure |
| TraversalProperties.UnchangedPathsCompatible | src/OasContractVerification/Verifier.cs:8-24 | a candidate holding every contract path item unchanged, and perhaps more, yields no failure |
| TraversalProperties.SelfCompatible | src/OasContractVerification/Verifier.cs:8-24 | a well-formed document compared with itself yields the empty report |
| Scenarios.MissingPathFails | test/OasContractVerification.Tests/VerifierTests.cs:20-37 | contract {/api/foo, /api/bar} against candidate {/api/bar, /api/baz} reports exactly [MissingPath("/api/foo")] |
| Scenarios.MissingHttpMethodFails | test/OasContractVerification.Tests/VerifierTests.cs:39-62 | contract methods {get, put} against candidate methods {get, post} on /api/foo report exactly [MissingHttpMethod("/api/foo", "put")] |

## Left out

- Parsing and the NSwag/NJsonSchema document model: documents are plain datatypes holding only what the comparison reads; no file loading and no `$ref` resolution.
- `VerifyRequestBody` and `VerifyResponse` (Verifier.cs:91-99): they throw and are never called, because their `Concat` calls are commented out (lines 48-51); `VerifyOperation` is the parameter check alone.
- Lazy `IEnumerable`/`yield`: every level returns an eager sequence; content and order are what is modelled.
- Duplicate (Name, Kind) keys in one operation: `ToDictionary` throws; the model excludes such input by a precondition instead of modelling the exception.
- Key comparers of the libraries' dictionaries: keys are compared by exact equality.
- `ParameterKind` has the members of `OpenApiParameterKind` (Undefined, Path, Query, Header, Cookie, Body, FormData, ModelBinding); the comparison uses a kind only through equality.
- `JsonObjectType` is a flags enumeration; the model has its single members only (`None` renamed `Unspecified`), not their combinations.
- `decimal` Maximum is a `real`; it is only compared for equality, so scale and precision are not modelled.
- The parameter test scenarios (VerifierTests.cs:64-209) are covered by the general lemmas of `ParameterProperties` rather than by concrete instances.
- The "superset is compatible" relaxation mentioned as a possibility in the tests (VerifierTests.cs:173-179) is not implemented by the source and not modelled.
- The two `NotImplementedException` tests (VerifierTests.cs:211-221) have no behaviour to model.
