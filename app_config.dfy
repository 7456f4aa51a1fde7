/** The process-wide configuration of backend/src/core/app-config.ts. */
module AppConfig {

  /** The coin values the machine accepts and pays out, smallest first. */
  const SUPPORTED_COINS: seq<int> := [5, 10, 20, 50, 100]

  /** Every supported coin is a positive multiple of the smallest one. */
  lemma SupportedCoinsAreMultiplesOfFive(c: int)
    requires c in SUPPORTED_COINS
    ensures c >= 5 && c % 5 == 0
  {
  }
}
