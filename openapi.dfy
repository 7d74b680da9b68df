/**
 * The part of the OpenAPI document model that the verifier reads: documents map
 * paths to path items, path items map HTTP methods to operations, and operations
 * carry parameters. The dictionaries of the document model are ordered
 * association lists here, because the verifier reports failures in the order in
 * which it enumerates them.
 */
module OpenApi {

  import opened Wrappers

  /** Where a parameter travels in an HTTP request. Undefined is the enum's default value. */
  datatype ParameterKind = Undefined | Path | Query | Header | Cookie | Body | FormData | ModelBinding

  /** The JSON schema type of a parameter. Unspecified stands for the enum's default value (named None there). */
  datatype JsonObjectType =
    | Unspecified | Array | Boolean | Integer | Null | Number | Object | String | File

  /**
   * A parameter of an operation. The decimal Maximum is only ever compared for
   * equality, so a real number stands for it.
   */
  datatype Parameter = Parameter(
    name: string,
    kind: ParameterKind,
    jsonType: JsonObjectType,
    isRequired: bool,
    maximum: Option<real>,
    maxItems: int,
    maxLength: Option<int>)

  /** The verifier identifies a parameter by its name together with its kind. */
  type ParamKey = (string, ParameterKind)

  function Key(p: Parameter): ParamKey
  {
    (p.name, p.kind)
  }

  datatype Operation = Operation(parameters: seq<Parameter>)

  /** HTTP method name to operation, in enumeration order. */
  type PathItem = seq<(string, Operation)>

  /** Path to path item, in enumeration order. */
  type Paths = seq<(string, PathItem)>

  datatype Document = Document(paths: Paths)

  // ---------------------------------------------------------------------------
  // Association lists (the dictionaries of the document model)
  // ---------------------------------------------------------------------------

  predicate HasKey<K(==), V>(entries: seq<(K, V)>, k: K)
  {
    exists i :: 0 <= i < |entries| && entries[i].0 == k
  }

  /** A dictionary never holds two entries with the same key. */
  predicate DistinctKeys<K(==), V>(entries: seq<(K, V)>)
  {
    forall i, j :: 0 <= i < j < |entries| ==> entries[i].0 != entries[j].0
  }

  /** Dictionary lookup (TryGetValue): the value stored under k, if any. */
  function Lookup<K(==), V>(entries: seq<(K, V)>, k: K): (r: Option<V>)
    ensures r.Some? <==> HasKey(entries, k)
  {
    if entries == [] then None
    else if entries[0].0 == k then Some(entries[0].1)
    else
      var r := Lookup(entries[1..], k);
      assert forall i :: 1 <= i < |entries| ==> entries[i] == entries[1..][i - 1];
      r
  }

  /**
   * What a successful lookup returns: the value of an entry stored under k,
   * and, when the keys are distinct, the value of every entry stored under k.
   */
  lemma {:induction false} LookupEntry<K, V>(entries: seq<(K, V)>, k: K)
    ensures Lookup(entries, k).Some? ==> exists i :: 0 <= i < |entries| && entries[i] == (k, Lookup(entries, k).value)
    ensures DistinctKeys(entries) ==>
              forall i :: 0 <= i < |entries| && entries[i].0 == k ==> Lookup(entries, k) == Some(entries[i].1)
  {
    if entries != [] && entries[0].0 != k {
      LookupEntry(entries[1..], k);
      assert forall i :: 1 <= i < |entries| ==> entries[i] == entries[1..][i - 1];
    }
  }

  // ---------------------------------------------------------------------------
  // Parameter lists, keyed by (Name, Kind)
  // ---------------------------------------------------------------------------

  predicate HasParameter(ps: seq<Parameter>, k: ParamKey)
  {
    exists i :: 0 <= i < |ps| && Key(ps[i]) == k
  }

  /**
   * Building the (Name, Kind) dictionary of an operation's parameters succeeds
   * only when no key repeats; otherwise the dictionary constructor throws.
   */
  predicate DistinctParameterKeys(ps: seq<Parameter>)
  {
    forall i, j :: 0 <= i < j < |ps| ==> Key(ps[i]) != Key(ps[j])
  }

  /** Dictionary lookup in the (Name, Kind) dictionary of a parameter list. */
  function FindParameter(ps: seq<Parameter>, k: ParamKey): (r: Option<Parameter>)
    ensures r.Some? <==> HasParameter(ps, k)
    ensures r.Some? ==> r.value in ps && Key(r.value) == k
  {
    if ps == [] then None
    else if Key(ps[0]) == k then Some(ps[0])
    else
      var r := FindParameter(ps[1..], k);
      assert forall i :: 1 <= i < |ps| ==> ps[i] == ps[1..][i - 1];
      r
  }

  /** With distinct keys, the parameter found under k is every parameter of the list whose key is k. */
  lemma {:induction false} FindParameterUnique(ps: seq<Parameter>, k: ParamKey, i: nat)
    requires DistinctParameterKeys(ps) && i < |ps| && Key(ps[i]) == k
    ensures FindParameter(ps, k) == Some(ps[i])
  {
    if Key(ps[0]) != k {
      assert forall a :: 0 <= a < |ps[1..]| ==> ps[1..][a] == ps[a + 1];
      FindParameterUnique(ps[1..], k, i - 1);
    }
  }

  /** The keys of the (Name, Kind) dictionary of a parameter list, in enumeration order. */
  function ParameterKeys(ps: seq<Parameter>): (ks: seq<ParamKey>)
    ensures |ks| == |ps|
    ensures forall i :: 0 <= i < |ps| ==> ks[i] == Key(ps[i])
  {
    if ps == [] then [] else [Key(ps[0])] + ParameterKeys(ps[1..])
  }

  /** The keys of a dictionary, in enumeration order. */
  function KeysOf<K, V>(entries: seq<(K, V)>): (ks: seq<K>)
    ensures |ks| == |entries|
    ensures forall i :: 0 <= i < |entries| ==> ks[i] == entries[i].0
  {
    if entries == [] then [] else [entries[0].0] + KeysOf(entries[1..])
  }
}
