/** The "Days Remaining" column of the dose list: how many days the stock of
    a medication instance lasts at each of its doses. */
module Dosing {
  import opened Wrappers
  import opened Records
  import opened Database

  /** What the dose list shows as days remaining. `DivisionByZero` stands
      for the `ZeroDivisionError` that a regular dose of zero raises. */
  datatype DaysRemaining = NotApplicable | Days(value: real) | DivisionByZero

  /** The days of supply at one dose: not applicable for an as-needed ("PRN")
      dose or a dose taken zero times a day; otherwise the stock on hand
      (quantity × strength) divided by the amount used per day
      (dose × frequency). */
  function DaysOfSupply(quantity: real, strength: real, dose: Dose): (r: DaysRemaining)
    ensures r.NotApplicable? <==> dose.regularOrPrn == "PRN" || dose.frequencyPerDay == 0.0
    ensures r.DivisionByZero? <==> !r.NotApplicable? && dose.dose == 0.0
    ensures r.Days? ==> r.value * (dose.dose * dose.frequencyPerDay) == quantity * strength
  {
    if dose.regularOrPrn != "PRN" && dose.frequencyPerDay != 0.0 then
      if dose.dose * dose.frequencyPerDay == 0.0 then DivisionByZero
      else Days((quantity * strength) / (dose.dose * dose.frequencyPerDay))
    else NotApplicable
  }

  /** The dose list reads the instance's quantity into a variable named for
      the strength and the strength into one named for the quantity; as
      only their product is used, the swap does not change the result. */
  lemma SwappedStockLabels(quantity: real, strength: real, dose: Dose)
    ensures DaysOfSupply(strength, quantity, dose) == DaysOfSupply(quantity, strength, dose)
  {
  }

  /** For a regular dose with a positive daily use, non-negative stock lasts
      a non-negative number of days, and more stock never lasts fewer days. */
  lemma DaysOfSupplyMonotone(quantity: real, more: real, strength: real, dose: Dose)
    requires 0.0 <= quantity <= more && 0.0 <= strength
    requires dose.regularOrPrn != "PRN" && dose.dose > 0.0 && dose.frequencyPerDay > 0.0
    ensures DaysOfSupply(quantity, strength, dose).Days?
    ensures 0.0 <= DaysOfSupply(quantity, strength, dose).value <= DaysOfSupply(more, strength, dose).value
  {
    var perDay := dose.dose * dose.frequencyPerDay;
    assert perDay > 0.0;
    assert 0.0 <= quantity * strength <= more * strength;
  }

  /** A 500-unit batch of 28 mg tablets taken at 250 mg twice a day lasts 28 days. */
  lemma TwiceDailyExample()
    ensures DaysOfSupply(500.0, 28.0, Dose(1, 250.0, "mg", 2.0, "Regular", 1)) == Days(28.0)
  {
  }

  /** A dose left at the slider's default of 0, with the regularity box
      left empty (which is not "PRN"), raises `ZeroDivisionError`. */
  lemma ZeroDoseRaises(quantity: real, strength: real, frequency: real)
    requires frequency != 0.0
    ensures DaysOfSupply(quantity, strength, Dose(1, 0.0, "mg", frequency, "", 1)) == DivisionByZero
  {
    assert "" != "PRN";
  }

  /** `populate_medication_instance_dose_listbox`: the days remaining at
      each dose of the instance, in the order of its doses. A regular dose
      of zero raises `ZeroDivisionError`, which ends the loop: the doses
      before it are listed and the result then ends with `DivisionByZero`.
      `None` when the instance does not exist, where reading its quantity
      and strength raises. */
  method DoseDaysRemaining(db: DatabaseManager, instanceId: int) returns (r: Option<seq<DaysRemaining>>)
    ensures r.None? <==> db.QuantityAndStrength(instanceId).None?
    ensures r.Some? ==>
              var stock := db.QuantityAndStrength(instanceId).value;
              var doses := db.DosesOf(instanceId);
              && |r.value| <= |doses|
              && (forall k :: 0 <= k < |r.value| ==> r.value[k] == DaysOfSupply(stock.0, stock.1, doses[k]))
              && (forall k :: 0 <= k < |r.value| - 1 ==> !r.value[k].DivisionByZero?)
              && (|r.value| < |doses| ==> |r.value| > 0 && r.value[|r.value| - 1].DivisionByZero?)
  {
    var stock := db.QuantityAndStrength(instanceId);
    if stock.None? {
      return None;
    }
    var currentStrength := stock.value.0;
    var currentQuantity := stock.value.1;
    var doses := db.DosesOf(instanceId);
    var days: seq<DaysRemaining> := [];
    for i := 0 to |doses|
      invariant |days| == i
      invariant forall k :: 0 <= k < i ==> days[k] == DaysOfSupply(stock.value.0, stock.value.1, doses[k])
      invariant forall k :: 0 <= k < i ==> !days[k].DivisionByZero?
    {
      SwappedStockLabels(currentStrength, currentQuantity, doses[i]);
      var remaining := DaysOfSupply(currentStrength, currentQuantity, doses[i]);
      days := days + [remaining];
      if remaining.DivisionByZero? {
        break;
      }
    }
    r := Some(days);
  }
}
