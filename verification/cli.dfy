/**
 * The `optimize` command of the command-line client: it checks the shape of
 * a loaded symbols document (first failing check wins) and, when the document
 * is acceptable, wraps it unchanged into the request payload.
 */
module Cli {
  import opened Results
  import opened Values

  /** The four messages the command prints before giving up. */
  datatype DocError =
    | InvalidFormat   // not a non-empty mapping
    | MissingKeys     // neither 'tsetmc' nor 'crypto' present
    | TsetmcNotList   // 'tsetmc' present but not a list
    | CryptoNotList   // 'crypto' present but not a list

  /** The two source classes the document may list symbols for. */
  predicate KnownKey(k: string)
  {
    k == Tsetmc || k == Crypto
  }

  /** The optimisation methods the `--method` option admits. */
  datatype Method = Gmv | Msr

  function MethodName(m: Method): string
  {
    match m
    case Gmv => "gmv"
    case Msr => "msr"
  }

  /** The body of the POST request sent to the portfolio service. */
  datatype Payload = Payload(symbols: Value, riskFreeRate: real, methodName: string, budget: int)

  /**
   * Declarative description of the documents the command lets through:
   * a non-empty mapping that names at least one source class, where every
   * source class it names maps to a list. Other keys and list contents are free.
   */
  ghost predicate Acceptable(doc: Value)
  {
    && doc.Dict?
    && doc.entries != map[]
    && (exists k :: k in doc.entries && KnownKey(k))
    && (forall k :: k in doc.entries && KnownKey(k) ==> doc.entries[k].List?)
  }

  /** A present key whose value is not a list. */
  predicate PresentNotList(entries: map<string, Value>, key: string)
  {
    key in entries && !entries[key].List?
  }

  /** The structure checks, in the order the command runs them. */
  function Validate(doc: Value): (r: Result<map<string, Value>, DocError>)
    ensures r.Ok? <==> Acceptable(doc)
    ensures r.Ok? ==> doc == Dict(r.value)
    ensures r == Err(InvalidFormat) <==> !doc.Dict? || doc.entries == map[]
    ensures r == Err(MissingKeys) <==>
              doc.Dict? && doc.entries != map[] && forall k :: k in doc.entries ==> !KnownKey(k)
    ensures r == Err(TsetmcNotList) <==>
              doc.Dict? && doc.entries != map[] && PresentNotList(doc.entries, Tsetmc)
    ensures r == Err(CryptoNotList) <==>
              && doc.Dict? && doc.entries != map[]
              && !PresentNotList(doc.entries, Tsetmc)
              && PresentNotList(doc.entries, Crypto)
  {
    if !Truthy(doc) || !doc.Dict? then Err(InvalidFormat)
    else if Tsetmc !in doc.entries && Crypto !in doc.entries then Err(MissingKeys)
    else if PresentNotList(doc.entries, Tsetmc) then Err(TsetmcNotList)
    else if PresentNotList(doc.entries, Crypto) then Err(CryptoNotList)
    else Ok(doc.entries)
  }

  /**
   * The command up to the request: validation, then the payload that carries
   * the document exactly as loaded next to the three options.
   */
  function BuildRequest(doc: Value, m: Method, riskFreeRate: real, budget: int): (r: Result<Payload, DocError>)
    ensures r.Ok? <==> Acceptable(doc)
    ensures r.Err? ==> Validate(doc) == Err(r.error)
    ensures r.Ok? ==> r.value.symbols == doc
    ensures r.Ok? ==> r.value.methodName == MethodName(m)
    ensures r.Ok? ==> r.value.riskFreeRate == riskFreeRate && r.value.budget == budget
  {
    match Validate(doc)
    case Err(e) => Err(e)
    case Ok(_) => Ok(Payload(doc, riskFreeRate, MethodName(m), budget))
  }

  /** When both source classes are malformed, the 'tsetmc' message is the one printed. */
  lemma TsetmcCheckedFirst(entries: map<string, Value>)
    requires PresentNotList(entries, Tsetmc) && PresentNotList(entries, Crypto)
    ensures Validate(Dict(entries)) == Err(TsetmcNotList)
  {
  }

  /** Keys other than 'tsetmc' and 'crypto' never change the verdict on a non-empty mapping. */
  lemma ExtraKeysNotInspected(entries: map<string, Value>, k: string, v: Value)
    requires entries != map[]
    requires !KnownKey(k)
    ensures Validate(Dict(entries[k := v])).Ok? == Validate(Dict(entries)).Ok?
    ensures Validate(Dict(entries)).Err? ==>
              Validate(Dict(entries[k := v])) == Validate(Dict(entries))
  {
  }

  /** What a known key's list holds is never looked at. */
  lemma ListContentsNotInspected(entries: map<string, Value>, k: string, items: seq<Value>)
    requires KnownKey(k) && k in entries && entries[k].List?
    ensures Validate(Dict(entries[k := List(items)])).Ok? == Validate(Dict(entries)).Ok?
  {
  }
}
