/** The decisions the windows make before they touch the store: which
    resident a listbox selection means, whether typed names are accepted,
    and whether a typed stock level is written. Widgets, message boxes and
    window navigation are not modelled; each handler returns what it would
    report instead. */
module Windows {
  import opened Wrappers
  import opened Text
  import opened Records
  import opened Sequences
  import opened Database

  /** One row of the resident listbox: "first last - dob". */
  function ResidentLabel(r: Resident): string {
    r.firstName + " " + r.lastName + " - " + r.dob
  }

  /** `populate_resident_listbox`: one label per resident, in table order. */
  function ResidentListbox(residents: seq<Resident>): (rows: seq<string>)
    ensures |rows| == |residents|
    ensures forall i :: 0 <= i < |rows| ==> rows[i] == ResidentLabel(residents[i])
  {
    seq(|residents|, i requires 0 <= i < |residents| => ResidentLabel(residents[i]))
  }

  /** `resident_selection`: the id and label of the selected listbox row,
      the id being the row index plus one; `None` for the `IndexError` an
      empty selection raises. The listbox only ever reports indices of its
      own rows. */
  function ResidentSelection(selection: seq<int>, listbox: seq<string>): (r: Option<(int, string)>)
    requires forall k :: 0 <= k < |selection| ==> 0 <= selection[k] < |listbox|
    ensures r.None? <==> |selection| == 0
    ensures r.Some? ==> r.value.0 == selection[0] + 1
    ensures r.Some? ==> 1 <= r.value.0 <= |listbox| && r.value.1 == listbox[r.value.0 - 1]
  {
    if |selection| == 0 then None
    else
      var id := selection[0] + 1;
      Some((id, listbox[id - 1]))
  }

  /** With ids assigned 1, 2, 3, ..., selecting row `i` of the resident
      listbox selects the resident stored at that row: the id found is
      that resident's id and the label shown is that resident's label. */
  lemma SelectionIsResident(residents: seq<Resident>, i: int)
    requires ConsecutiveIds(residents, ResidentKey)
    requires 0 <= i < |residents|
    ensures var r := ResidentSelection([i], ResidentListbox(residents));
      && r.Some?
      && Lookup(residents, ResidentKey, r.value.0) == Some(residents[i])
      && r.value.1 == ResidentLabel(residents[i])
  {
    LookupConsecutive(residents, ResidentKey, i + 1);
  }

  /** `AddResidentWindow.add_resident_to_database`: the resident is stored
      only when both names are alphabetic; otherwise nothing changes and the
      window reports an error. */
  method AddResidentToDatabase(db: DatabaseManager, firstName: string, lastName: string, dob: string)
    returns (added: bool)
    requires db.Valid()
    modifies db
    ensures db.Valid()
    ensures added <==> IsAlpha(firstName) && IsAlpha(lastName)
    ensures db.residents == if added then old(db.residents) + [Resident(|old(db.residents)| + 1, firstName, lastName, dob)]
                            else old(db.residents)
    ensures db.medications == old(db.medications) && db.instances == old(db.instances) && db.doses == old(db.doses)
  {
    if IsAlpha(firstName) && IsAlpha(lastName) {
      var _ := db.AddResident(firstName, lastName, dob);
      added := true;
    } else {
      added := false;
    }
  }

  /** `AddMedicationWindow.add_medication_to_database`: the medication is
      stored for the selected resident, with default notes, only when both
      its names are alphabetic; otherwise nothing changes. */
  method AddMedicationToDatabase(db: DatabaseManager, name: string, otherName: string, residentId: int)
    returns (added: bool)
    requires db.Valid()
    modifies db
    ensures db.Valid()
    ensures added <==> IsAlpha(name) && IsAlpha(otherName)
    ensures db.medications == if added
                              then old(db.medications) + [Medication(|old(db.medications)| + 1, name, otherName, residentId, DefaultNotes)]
                              else old(db.medications)
    ensures db.residents == old(db.residents) && db.instances == old(db.instances) && db.doses == old(db.doses)
  {
    if IsAlpha(name) && IsAlpha(otherName) {
      var _ := db.AddMedication(name, otherName, residentId);
      added := true;
    } else {
      added := false;
    }
  }

  /** A name with a space, an apostrophe or a hyphen in it, or an empty
      one, is refused; double-barrelled names of real residents are among
      them. */
  lemma RefusedNames()
    ensures !IsAlpha("") && !IsAlpha("Mary Ann") && !IsAlpha("O'Neil") && !IsAlpha("Smith-Jones")
    ensures IsAlpha("Smith")
  {
    assert "Mary Ann"[4] == ' ';
    assert "O'Neil"[1] == '\'';
    assert "Smith-Jones"[5] == '-';
  }

  /** What `modify_instance_stock_level` reports. */
  datatype StockOutcome = NoInstanceSelected | NotANumber | QuantityUpdated(quantity: real)

  /** The selected instance id as Python tests it: `''` (nothing selected)
      and `0` are false. */
  predicate Selected(selection: Option<int>) {
    selection.Some? && selection.value != 0
  }

  /** The outcome of `modify_instance_stock_level` for the selected instance
      and the typed text: no selection first, then text that `float` refuses,
      otherwise the number read, negative or not. */
  function StockOutcomeOf(selection: Option<int>, field: string): (r: StockOutcome)
    ensures r == NoInstanceSelected <==> !Selected(selection)
    ensures r == NotANumber <==> Selected(selection) && ParseNumber(field).None?
    ensures r.QuantityUpdated? <==> Selected(selection) && ParseNumber(field).Some?
    ensures r.QuantityUpdated? ==> r.quantity == ParseNumber(field).value
  {
    if !Selected(selection) then NoInstanceSelected
    else match ParseNumber(field)
      case None => NotANumber
      case Some(q) => QuantityUpdated(q)
  }

  /** The instance table after `modify_instance_stock_level`: the selected
      row's quantity overwritten on success, the table as it was otherwise. */
  function AfterStockUpdate(rows: seq<MedicationInstance>, selection: Option<int>, field: string)
    : (r: seq<MedicationInstance>)
    ensures !StockOutcomeOf(selection, field).QuantityUpdated? ==> r == rows
  {
    match StockOutcomeOf(selection, field)
    case QuantityUpdated(q) => WithQuantity(rows, selection.value, q)
    case _ => rows
  }

  /** With ids assigned 1, 2, 3, ..., a successful update changes the
      quantity of the selected row and nothing else; every other outcome
      changes nothing at all. */
  lemma StockUpdateChangesOneRow(rows: seq<MedicationInstance>, selection: Option<int>, field: string)
    requires ConsecutiveIds(rows, InstanceKey)
    ensures var after := AfterStockUpdate(rows, selection, field);
      match StockOutcomeOf(selection, field)
      case QuantityUpdated(q) =>
        after == if 1 <= selection.value <= |rows| then rows[selection.value - 1 := rows[selection.value - 1].(quantity := q)]
                 else rows
      case _ => after == rows
  {
    if StockOutcomeOf(selection, field).QuantityUpdated? {
      WithQuantityChangesOneRow(rows, selection.value, StockOutcomeOf(selection, field).quantity);
    }
  }

  /** Entering the same stock level twice leaves the table as entering it once. */
  lemma StockUpdateIdempotent(rows: seq<MedicationInstance>, selection: Option<int>, field: string)
    ensures AfterStockUpdate(AfterStockUpdate(rows, selection, field), selection, field)
         == AfterStockUpdate(rows, selection, field)
  {
    if StockOutcomeOf(selection, field).QuantityUpdated? {
      WithQuantityIdempotent(rows, selection.value, StockOutcomeOf(selection, field).quantity);
    }
  }

  /** A minus sign followed by digits is accepted as a stock level: the
      quantity becomes negative. */
  lemma NegativeStockAccepted(rows: seq<MedicationInstance>, id: int, field: string)
    requires id != 0
    requires |field| > 1 && field[0] == '-' && forall j :: 1 <= j < |field| ==> IsDigit(field[j])
    ensures AllDigits(field[1..])
    ensures StockOutcomeOf(Some(id), field) == QuantityUpdated(-(DigitsValue(field[1..]) as real))
    ensures AfterStockUpdate(rows, Some(id), field) == WithQuantity(rows, id, -(DigitsValue(field[1..]) as real))
  {
    ParseNegative(field);
  }

  /** Text without a digit, such as "ten", is refused and nothing is written
      (the inf and nan spellings `float` accepts are not part of this model). */
  lemma WordStockRefused(rows: seq<MedicationInstance>, id: int, field: string)
    requires id != 0
    requires forall j :: 0 <= j < |field| ==> !IsDigit(field[j])
    ensures StockOutcomeOf(Some(id), field) == NotANumber
    ensures AfterStockUpdate(rows, Some(id), field) == rows
  {
    ParseNeedsDigit(field);
  }

  /** `modify_instance_stock_level`: with an instance selected, checks the
      typed text with `float` and, if it is a number, writes it as that
      instance's quantity. */
  method ModifyInstanceStockLevel(db: DatabaseManager, selection: Option<int>, field: string)
    returns (outcome: StockOutcome)
    requires db.Valid()
    modifies db
    ensures db.Valid()
    ensures outcome == StockOutcomeOf(selection, field)
    ensures db.instances == AfterStockUpdate(old(db.instances), selection, field)
    ensures db.residents == old(db.residents) && db.medications == old(db.medications) && db.doses == old(db.doses)
  {
    if selection.Some? && selection.value != 0 {
      var number := ParseNumber(field);
      if number.Some? {
        db.ModifyInstanceQuantity(number.value, selection.value);
        outcome := QuantityUpdated(number.value);
      } else {
        outcome := NotANumber;
      }
    } else {
      outcome := NoInstanceSelected;
    }
  }
}
