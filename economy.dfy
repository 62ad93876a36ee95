/// The `Economy` class of src/systems/Economy.js: the player's resource totals.
/// Its on-screen counters are not part of this model.
module EconomySystem {
  import opened Ledger

  class Economy {
    var resources: Totals

    constructor ()
      ensures resources == InitialTotals
    {
      resources := InitialTotals;
    }

    /// Books `amount` of `kind` (forest as wood); a kind the totals do not hold is
    /// ignored.
    method AddResource(kind: string, amount: real)
      modifies this
      ensures resources == Credit(old(resources), kind, amount)
    {
      var key := LedgerKey(kind);
      if key in resources {
        resources := resources[key := resources[key] + amount];
      }
    }
  }
}
