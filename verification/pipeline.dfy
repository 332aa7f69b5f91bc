/**
 * How the pieces meet: the command-line client's payload carries the
 * document to the service, whose `symbols` mapping goes to `history` and
 * whose method name goes to `portfolio`.
 */
module Pipeline {
  import opened Results
  import opened Values
  import Cli
  import History
  import Quant

  /**
   * A document the client accepts may list only 'crypto' symbols; its
   * mapping then makes `history` fail on the missing 'tsetmc' key.
   */
  lemma CryptoOnlyDocumentFailsHistory(entries: map<string, Value>, fetched: seq<History.TickerData>)
    requires Cli.Validate(Dict(entries)).Ok?
    requires Tsetmc !in entries
    ensures Crypto in entries && entries[Crypto].List?
    ensures History.History(entries, fetched) == Err(History.MissingTsetmc)
  {
  }

  /** The two method names the client can send select the two objectives. */
  lemma ClientMethodSelectsObjective(m: Cli.Method, mu: seq<real>, riskFreeRate: real)
    ensures Quant.SelectObjective(Cli.MethodName(m), mu, riskFreeRate).NegativeSharpe? <==> m == Cli.Msr
  {
  }
}
