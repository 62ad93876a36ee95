/// The resource totals kept by src/systems/Economy.js (`addResource`) and, in a
/// duplicate, by src/MainScene.js (`depositResource`): a counter per key, where a
/// deposit of `forest` is booked as `wood` and a deposit under a key the totals
/// do not hold is ignored.
module Ledger {

  /// JavaScript numbers: `Economy.addResource` floors a total only to display
  /// it, so totals may be fractional.
  type Totals = map<string, real>

  /// `{ food: 200, stone: 150, gold: 100, wood: 200 }`.
  const InitialTotals: Totals := map["food" := 200.0, "stone" := 150.0, "gold" := 100.0, "wood" := 200.0]

  /// The key a deposited type is booked under.
  function LedgerKey(kind: string): string {
    if kind == "forest" then "wood" else kind
  }

  /// Whether a deposit of `kind` reaches the totals.
  predicate Books(m: Totals, kind: string) {
    LedgerKey(kind) in m
  }

  /// The totals after depositing `amount` of `kind`: the booked key, if the totals
  /// hold it, grows by exactly `amount`; every other total stays; no key appears
  /// or disappears.
  function Credit(m: Totals, kind: string, amount: real): (r: Totals)
    ensures r.Keys == m.Keys
    ensures forall k :: k in m && k != LedgerKey(kind) ==> r[k] == m[k]
    ensures Books(m, kind) ==> r[LedgerKey(kind)] == m[LedgerKey(kind)] + amount
  {
    var key := LedgerKey(kind);
    if key in m then m[key := m[key] + amount] else m
  }

  /// The initial totals hold exactly the four resource keys, so every sequence of
  /// deposits keeps exactly those four.
  lemma InitialKeys()
    ensures InitialTotals.Keys == {"food", "stone", "gold", "wood"}
    ensures InitialTotals["food"] == 200.0 && InitialTotals["stone"] == 150.0
    ensures InitialTotals["gold"] == 100.0 && InitialTotals["wood"] == 200.0
  {
  }

  /// Depositing forest credits wood.
  lemma ForestIsWood(m: Totals, amount: real)
    requires "wood" in m
    ensures Credit(m, "forest", amount) == Credit(m, "wood", amount)
    ensures Credit(m, "forest", amount)["wood"] == m["wood"] + amount
  {
  }

  /// A deposit under a key the totals do not hold changes nothing.
  lemma UnknownKeyIgnored(m: Totals, kind: string, amount: real)
    requires !Books(m, kind)
    ensures Credit(m, kind, amount) == m
  {
  }

  /// Two deposits of one kind add up, and deposits of different kinds commute:
  /// the totals depend only on what was deposited, not in which order.
  lemma CreditsAdd(m: Totals, kind: string, a: real, b: real)
    ensures Credit(Credit(m, kind, a), kind, b) == Credit(m, kind, a + b)
  {
  }

  lemma CreditsCommute(m: Totals, k1: string, a: real, k2: string, b: real)
    ensures Credit(Credit(m, k1, a), k2, b) == Credit(Credit(m, k2, b), k1, a)
  {
    var l := Credit(Credit(m, k1, a), k2, b);
    var r := Credit(Credit(m, k2, b), k1, a);
    assert forall k :: k in l ==> l[k] == r[k];
  }
}
