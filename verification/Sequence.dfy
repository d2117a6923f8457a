/** Tenant-wide correlatives: a stored counter per document type, formatted as PREFIX-00001. */
module Sequence {
  import opened Decimals
  import opened Tables

  type Counters = map<(TenantId, string), nat>

  const FR_DOCUMENT_TYPE := "FAULT_REP"
  const FR_PREFIX := "RF"
  const FR_PAD_WIDTH := 5

  function LastNumber(counters: Counters, tenant: TenantId, documentType: string): nat {
    if (tenant, documentType) in counters then counters[(tenant, documentType)] else 0
  }

  /** The counter upsert: created at 1, incremented afterwards. */
  function Incremented(counters: Counters, tenant: TenantId, documentType: string): Counters {
    counters[(tenant, documentType) := LastNumber(counters, tenant, documentType) + 1]
  }

  function Format(prefix: string, separator: string, number: nat, padWidth: nat): string {
    prefix + separator + PadStart(Decimal(number), padWidth)
  }

  method GetNextCorrelative(db: Database, tenant: TenantId, documentType: string, prefix: string,
                            padWidth: nat := 5, separator: string := "-")
    returns (correlative: string)
    modifies db`counters
    ensures db.counters == Incremented(old(db.counters), tenant, documentType)
    ensures correlative == Format(prefix, separator, LastNumber(old(db.counters), tenant, documentType) + 1, padWidth)
  {
    var key := (tenant, documentType);
    if key in db.counters {
      db.counters := db.counters[key := db.counters[key] + 1];
    } else {
      db.counters := db.counters[key := 1];
    }
    correlative := prefix + separator + PadStart(Decimal(db.counters[key]), padWidth);
  }

  /** The fault report correlative of a number: RF-00001, ..., RF-99999, RF-100000, ... */
  function RfCorrelative(number: nat): string {
    Format(FR_PREFIX, "-", number, FR_PAD_WIDTH)
  }

  lemma RfSpelled(number: nat)
    ensures RfCorrelative(number) == "RF-" + PadStart(Decimal(number), 5)
  {
    assert "RF" + "-" == "RF-";
  }

  /** Correlatives of different numbers differ, also past the width where padding stops. */
  lemma FormatInjective(prefix: string, separator: string, a: nat, b: nat, padWidth: nat)
    requires Format(prefix, separator, a, padWidth) == Format(prefix, separator, b, padWidth)
    ensures a == b
  {
    var head := |prefix + separator|;
    assert Format(prefix, separator, a, padWidth)[head..] == PadStart(Decimal(a), padWidth);
    assert Format(prefix, separator, b, padWidth)[head..] == PadStart(Decimal(b), padWidth);
    PaddedReadsBack(a, padWidth);
    PaddedReadsBack(b, padWidth);
  }
}
