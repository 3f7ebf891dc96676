/**
 The names of a reservation: the identifier its client holds, and the two keys under
 which its entries are made in the ledger.
 */
module ReservationIds {
  import opened Wrappers
  import opened Text

  /// `{tenant}:{id}`
  function WireId(tenant: string, id: string): string {
    tenant + ":" + id
  }

  /// The tenant and the id; anything but two non-empty parts is refused.
  function SplitWireId(wire: string): Option<(string, string)> {
    match Find(wire, ':')
    case None => None
    case Some(n) =>
      var tenant, id := wire[..n], wire[n + 1..];
      if tenant == "" || id == "" || ':' in id then None else Some((tenant, id))
  }

  /// Splitting undoes composing exactly for non-empty parts without a colon: a wire id
  /// that splits names one tenant and one ticket, and no other pair shares it.
  lemma WireIdRoundTrip(tenant: string, id: string)
    ensures SplitWireId(WireId(tenant, id)) == Some((tenant, id))
            <==> tenant != "" && id != "" && ':' !in tenant && ':' !in id
  {
    var wire := WireId(tenant, id);
    if ':' !in tenant {
      FindAfterPrefix(tenant, ':', id);
      assert wire[..|tenant|] == tenant && wire[|tenant| + 1..] == id;
    }
  }

  /// Whatever splits was composed from its parts.
  lemma SplitIsInjective(wire: string)
    requires SplitWireId(wire).Some?
    ensures var (tenant, id) := SplitWireId(wire).value; WireId(tenant, id) == wire
  {
    var n := Find(wire, ':').value;
    assert wire == wire[..n] + [wire[n]] + wire[n + 1..];
  }

  function SettlementKey(id: string): string { id + "#final" }

  function LateChargeKey(id: string): string { id + "#late" }

  /// Ledger keys never meet: one key belongs to one ticket and to one of its two entries.
  lemma LedgerKeysAreDistinct(a: string, b: string)
    ensures SettlementKey(a) == SettlementKey(b) <==> a == b
    ensures LateChargeKey(a) == LateChargeKey(b) <==> a == b
    ensures SettlementKey(a) != LateChargeKey(b)
  {
    assert SettlementKey(a)[..|SettlementKey(a)| - 6] == a && SettlementKey(b)[..|SettlementKey(b)| - 6] == b;
    assert LateChargeKey(a)[..|LateChargeKey(a)| - 5] == a && LateChargeKey(b)[..|LateChargeKey(b)| - 5] == b;
    assert SettlementKey(a)[|SettlementKey(a)| - 1] == 'l';
    assert LateChargeKey(b)[|LateChargeKey(b)| - 1] == 'e';
  }
}
