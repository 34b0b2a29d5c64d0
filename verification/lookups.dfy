/** The two code lookups of `create_dimension_tables`: `Series.map(dict)` with
    a fixed dictionary from integer codes to display names. A code the
    dictionary does not hold, a missing cell and a cell that is not an integer
    all map to a missing value; pandas raises nothing for them. */
module Lookups {
  import opened Wrappers
  import opened Frame

  /** `rate_code_type`: the TLC rate codes. */
  const RateCodeTypes: map<int, string> := map[
    1 := "Standard rate",
    2 := "JFK",
    3 := "Newark",
    4 := "Nassau or Westchester",
    5 := "Negotiated fare",
    6 := "Group ride"
  ]

  /** `payment_type_name`: the TLC payment types. */
  const PaymentTypeNames: map<int, string> := map[
    1 := "Credit card",
    2 := "Cash",
    3 := "No charge",
    4 := "Dispute",
    5 := "Unknown",
    6 := "Voided trip"
  ]

  /** `cell` mapped through `names`. */
  function Label(names: map<int, string>, cell: Cell): (r: Cell)
    ensures r.Some? <==> cell.Some? && cell.value.Int? && cell.value.n in names
    ensures r.Some? ==> r.value.Text? && r.value.s == names[cell.value.n]
  {
    match cell
    case Some(Int(k)) => if k in names then Some(Text(names[k])) else None
    case _ => None
  }

  /** No two codes share a name. */
  predicate InjectiveNames(names: map<int, string>) {
    forall a, b :: a in names && b in names && a != b ==> names[a] != names[b]
  }

  /** The code whose name is `s`, if any: the inverse lookup. */
  function CodeOf(names: map<int, string>, s: string): (r: Option<int>)
    requires InjectiveNames(names)
    ensures r.Some? <==> exists k :: k in names && names[k] == s
    ensures r.Some? ==> r.value in names && names[r.value] == s
  {
    if exists k :: k in names && names[k] == s then
      var k :| k in names && names[k] == s;
      Some(k)
    else None
  }

  /** Both dictionaries give every code its own name. */
  lemma LookupTablesInjective()
    ensures InjectiveNames(RateCodeTypes) && InjectiveNames(PaymentTypeNames)
  {
  }

  /** A label determines the cell it came from, and the inverse lookup
      recovers the code. */
  lemma LabelRoundTrip(names: map<int, string>, cell: Cell, other: Cell)
    requires InjectiveNames(names)
    requires Label(names, cell).Some?
    ensures CodeOf(names, Label(names, cell).value.s) == Some(cell.value.n)
    ensures Label(names, other) == Label(names, cell) ==> other == cell
  {
    var s := Label(names, cell).value.s;
    assert names[cell.value.n] == s;
    if Label(names, other) == Label(names, cell) {
      assert names[other.value.n] == s;
    }
  }

  /** Codes one to six are the named rate codes and payment types; every other
      integer, a missing cell and a non-integer cell map to a missing value. */
  lemma KnownCodes()
    ensures forall k :: k in RateCodeTypes <==> 1 <= k <= 6
    ensures forall k :: k in PaymentTypeNames <==> 1 <= k <= 6
    ensures Label(RateCodeTypes, Some(Int(2))) == Some(Text("JFK"))
    ensures Label(RateCodeTypes, Some(Int(6))) == Some(Text("Group ride"))
    ensures Label(PaymentTypeNames, Some(Int(1))) == Some(Text("Credit card"))
    ensures Label(PaymentTypeNames, Some(Int(6))) == Some(Text("Voided trip"))
    ensures forall k :: (k < 1 || 6 < k) ==> Label(RateCodeTypes, Some(Int(k))) == None
    ensures forall k :: (k < 1 || 6 < k) ==> Label(PaymentTypeNames, Some(Int(k))) == None
    ensures Label(RateCodeTypes, None) == None && Label(PaymentTypeNames, None) == None
    ensures forall s :: Label(RateCodeTypes, Some(Text(s))) == None
    ensures forall s :: Label(PaymentTypeNames, Some(Text(s))) == None
  {
  }
}
