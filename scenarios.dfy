/**
 * The repository's own test scenarios, stated on the model: concrete contract
 * and candidate documents and the exact report they produce.
 */
module Scenarios {

  import opened OpenApi
  import opened Verifier

  /** Contract {/api/foo, /api/bar}, candidate {/api/bar, /api/baz}: only /api/foo is reported. */
  lemma MissingPathFails()
    ensures var contract := Document([("/api/foo", []), ("/api/bar", [])]);
            var candidate := Document([("/api/bar", []), ("/api/baz", [])]);
            PathsComparable(candidate, contract.paths)
            && PathsFailures(candidate, contract.paths) == [MissingPath("/api/foo")]
  {
  }

  /** Contract methods {get, put}, candidate methods {get, post}: only put is reported. */
  lemma MissingHttpMethodFails()
    ensures var contract := Document([("/api/foo", [("get", Operation([])), ("put", Operation([]))])]);
            var candidate := Document([("/api/foo", [("get", Operation([])), ("post", Operation([]))])]);
            PathsComparable(candidate, contract.paths)
            && PathsFailures(candidate, contract.paths) == [MissingHttpMethod("/api/foo", "put")]
  {
  }
}
