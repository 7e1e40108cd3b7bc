/** The medication store, `DatabaseManager`: four append-only tables with
    two fields updated in place (a medication's notes, an instance's
    quantity), and the owner-id queries that read them back. SQLite is
    modelled by sequences of rows in insertion (rowid) order. */
module Database {
  import opened Wrappers
  import opened Sequences
  import opened Records
  import Text

  /** Row `i` of a table has id `i + 1`: SQLite's choice for an INTEGER
      PRIMARY KEY when rows are only ever appended. */
  ghost predicate ConsecutiveIds<T>(rows: seq<T>, key: T -> int) {
    forall i :: 0 <= i < |rows| ==> key(rows[i]) == i + 1
  }

  /** `UPDATE medication SET notes=? WHERE id=?`. */
  function WithNotes(rows: seq<Medication>, id: int, notes: string): (r: seq<Medication>)
    ensures |r| == |rows|
    ensures forall i :: 0 <= i < |r| ==> r[i] == rows[i].(notes := r[i].notes)
    ensures forall i :: 0 <= i < |r| ==> r[i].notes == if rows[i].id == id then notes else rows[i].notes
  {
    seq(|rows|, i requires 0 <= i < |rows| => if rows[i].id == id then rows[i].(notes := notes) else rows[i])
  }

  /** `UPDATE medication_info SET quantity=? WHERE id=?`. */
  function WithQuantity(rows: seq<MedicationInstance>, id: int, quantity: real): (r: seq<MedicationInstance>)
    ensures |r| == |rows|
    ensures forall i :: 0 <= i < |r| ==> r[i] == rows[i].(quantity := r[i].quantity)
    ensures forall i :: 0 <= i < |r| ==> r[i].quantity == if rows[i].id == id then quantity else rows[i].quantity
  {
    seq(|rows|, i requires 0 <= i < |rows| => if rows[i].id == id then rows[i].(quantity := quantity) else rows[i])
  }

  /** With consecutive ids the notes update rewrites exactly one row, the
      one at index `id - 1`, and in it only the notes; a missing id changes
      nothing. */
  lemma WithNotesChangesOneRow(rows: seq<Medication>, id: int, notes: string)
    requires ConsecutiveIds(rows, MedicationKey)
    ensures WithNotes(rows, id, notes) ==
      if 1 <= id <= |rows| then rows[id - 1 := rows[id - 1].(notes := notes)] else rows
  {
    var r := WithNotes(rows, id, notes);
    forall i | 0 <= i < |rows|
      ensures r[i] == if i == id - 1 then rows[i].(notes := notes) else rows[i]
    {
      assert MedicationKey(rows[i]) == i + 1;
    }
  }

  /** Reading a medication's notes after writing them gives what was
      written; every other medication reads as before. */
  lemma NotesReadBack(rows: seq<Medication>, id: int, notes: string, other: int)
    requires ConsecutiveIds(rows, MedicationKey)
    requires 1 <= id <= |rows|
    requires other != id
    ensures Lookup(WithNotes(rows, id, notes), MedicationKey, id) == Some(rows[id - 1].(notes := notes))
    ensures Lookup(WithNotes(rows, id, notes), MedicationKey, other) == Lookup(rows, MedicationKey, other)
  {
    var r := WithNotes(rows, id, notes);
    WithNotesChangesOneRow(rows, id, notes);
    assert ConsecutiveIds(r, MedicationKey) by {
      forall i | 0 <= i < |r| ensures MedicationKey(r[i]) == i + 1 {
        assert MedicationKey(rows[i]) == i + 1;
      }
    }
    LookupConsecutive(r, MedicationKey, id);
    LookupConsecutive(r, MedicationKey, other);
    LookupConsecutive(rows, MedicationKey, other);
  }

  /** With consecutive ids the quantity update rewrites exactly one row, the
      one at index `id - 1`, and in it only the quantity; a missing id
      changes nothing. */
  lemma WithQuantityChangesOneRow(rows: seq<MedicationInstance>, id: int, quantity: real)
    requires ConsecutiveIds(rows, InstanceKey)
    ensures WithQuantity(rows, id, quantity) ==
      if 1 <= id <= |rows| then rows[id - 1 := rows[id - 1].(quantity := quantity)] else rows
  {
    var r := WithQuantity(rows, id, quantity);
    forall i | 0 <= i < |rows|
      ensures r[i] == if i == id - 1 then rows[i].(quantity := quantity) else rows[i]
    {
      assert InstanceKey(rows[i]) == i + 1;
    }
  }

  /** Writing the same quantity twice leaves the table as one write did. */
  lemma WithQuantityIdempotent(rows: seq<MedicationInstance>, id: int, quantity: real)
    ensures WithQuantity(WithQuantity(rows, id, quantity), id, quantity) == WithQuantity(rows, id, quantity)
  {
    var once := WithQuantity(rows, id, quantity);
    var twice := WithQuantity(once, id, quantity);
    forall i | 0 <= i < |rows| ensures twice[i] == once[i] {
    }
  }

  /** The expiry texts of `batch`, in order. */
  function Expiries(batch: seq<MedicationInstance>): (r: seq<string>)
    ensures |r| == |batch|
    ensures forall k :: 0 <= k < |r| ==> r[k] == batch[k].expiry
  {
    seq(|batch|, k requires 0 <= k < |batch| => batch[k].expiry)
  }

  /** The expiry dates of the instances of `owned`, medication by medication
      and, within one medication, in instance insertion order. */
  function ExpiryDates(owned: seq<Medication>, instances: seq<MedicationInstance>): seq<string>
    decreases |owned|
  {
    if |owned| == 0 then []
    else
      ExpiryDates(owned[..|owned| - 1], instances)
        + Expiries(Select(instances, InstanceOwner, owned[|owned| - 1].id))
  }

  /** One more instance adds its expiry text at the end. */
  lemma ExpiriesStep(batch: seq<MedicationInstance>, j: nat)
    requires j < |batch|
    ensures Expiries(batch[..j + 1]) == Expiries(batch[..j]) + [batch[j].expiry]
  {
    var a, b := Expiries(batch[..j + 1]), Expiries(batch[..j]) + [batch[j].expiry];
    assert |a| == |b|;
    forall i | 0 <= i < |a| ensures a[i] == b[i] {
      assert batch[..j + 1][i] == batch[i];
    }
  }

  /** One more medication adds the expiry texts of its instances at the end. */
  lemma ExpiryDatesStep(owned: seq<Medication>, instances: seq<MedicationInstance>, k: nat)
    requires k < |owned|
    ensures ExpiryDates(owned[..k + 1], instances)
         == ExpiryDates(owned[..k], instances) + Expiries(Select(instances, InstanceOwner, owned[k].id))
  {
    assert owned[..k + 1][..k] == owned[..k];
  }

  /** Every collected expiry date is that of an instance in the table that
      belongs to one of the `owned` medications. */
  lemma {:induction false} ExpiryDatesFromTable(owned: seq<Medication>, instances: seq<MedicationInstance>, k: nat)
    requires k < |ExpiryDates(owned, instances)|
    ensures exists i, m ::
              && 0 <= i < |instances| && 0 <= m < |owned|
              && instances[i].expiry == ExpiryDates(owned, instances)[k]
              && instances[i].medicationId == owned[m].id
    decreases |owned|
  {
    var front := owned[..|owned| - 1];
    var last := owned[|owned| - 1];
    var batch := Select(instances, InstanceOwner, last.id);
    var before := ExpiryDates(front, instances);
    if k < |before| {
      ExpiryDatesFromTable(front, instances, k);
      var i, m :| 0 <= i < |instances| && 0 <= m < |front|
        && instances[i].expiry == before[k] && instances[i].medicationId == front[m].id;
      assert owned[m] == front[m];
    } else {
      var x := batch[k - |before|];
      assert x in instances;
      var i :| 0 <= i < |instances| && instances[i] == x;
      assert instances[i].medicationId == owned[|owned| - 1].id;
    }
  }

  /** `collect_medication_name(id)[0][0]`: the name of the medication with
      that id; `None` where the indexing raises `IndexError`. */
  function NameOf(medications: seq<Medication>, medicationId: int): (r: Option<string>)
    ensures r.Some? <==> exists k :: 0 <= k < |medications| && medications[k].id == medicationId
    ensures r.Some? ==> exists k :: 0 <= k < |medications| && medications[k].id == medicationId
                                    && r.value == medications[k].name
  {
    match Lookup(medications, MedicationKey, medicationId)
    case None => None
    case Some(m) => Some(m.name)
  }

  /** `collect_medication_ids_where_dates_match(date)[0][0]` followed by
      `collect_medication_name`: the name of the medication of the FIRST
      instance in the whole table, whoever owns it, whose expiry text is
      `date`; `None` where either indexing raises `IndexError`. */
  function NameForExpiry(medications: seq<Medication>, instances: seq<MedicationInstance>, date: string): Option<string> {
    match Lookup(instances, InstanceExpiry, date)
    case None => None
    case Some(i) => NameOf(medications, i.medicationId)
  }

  /** An expiry text found in the table is always matched by some instance;
      with consecutive medication ids and every instance pointing at an
      existing medication, a name is then always found. */
  lemma NameForExpiryFound(medications: seq<Medication>, instances: seq<MedicationInstance>, k: nat)
    requires k < |instances|
    requires ConsecutiveIds(medications, MedicationKey)
    requires forall j :: 0 <= j < |instances| ==> 1 <= instances[j].medicationId <= |medications|
    ensures NameForExpiry(medications, instances, instances[k].expiry).Some?
  {
    assert InstanceExpiry(instances[k]) == instances[k].expiry;
    var i := Lookup(instances, InstanceExpiry, instances[k].expiry).value;
    assert i in instances;
    LookupConsecutive(medications, MedicationKey, i.medicationId);
  }

  /** The parameters bound by the expiry query of
      `collect_medications_instances_expiry_dates` as written:
      `(str(resident_id,))` is the decimal text itself, not a one-element
      tuple, and sqlite3 binds each of its characters as one parameter. */
  function ExpiryQueryBindings(residentId: nat): (b: seq<string>)
    ensures |b| == |Text.NatText(residentId)|
  {
    var t := Text.NatText(residentId);
    seq(|t|, i requires 0 <= i < |t| => [t[i]])
  }

  /** The query as written has one placeholder, so it runs only for the
      resident ids that bind exactly one parameter: 0 to 9. From 10 on,
      sqlite3 refuses it with "Incorrect number of bindings supplied". */
  lemma ExpiryQueryRunsOnlyBelowTen(residentId: nat)
    ensures |ExpiryQueryBindings(residentId)| == 1 <==> residentId < 10
    ensures residentId < 10 ==> ExpiryQueryBindings(residentId) == [Text.NatText(residentId)]
  {
  }

  /** Resident 10, the first one whose report fails: the query binds "1"
      and "0" to its single placeholder. */
  lemma ResidentTenBindsTwo()
    ensures ExpiryQueryBindings(10) == ["1", "0"]
  {
    assert Text.NatText(10) == Text.NatText(1) + [Text.DigitChar(0)] == ['1', '0'];
  }

  class DatabaseManager {
    var residents: seq<Resident>
    var medications: seq<Medication>
    var instances: seq<MedicationInstance>
    var doses: seq<Dose>

    /** Every table's ids run 1, 2, 3, ... in insertion order. */
    ghost predicate Valid()
      reads this
    {
      && ConsecutiveIds(residents, ResidentKey)
      && ConsecutiveIds(medications, MedicationKey)
      && ConsecutiveIds(instances, InstanceKey)
      && ConsecutiveIds(doses, DoseKey)
    }

    /** Every owner reference names an existing row: the foreign keys of the
        schema, which SQLite does not enforce unless asked to. */
    ghost predicate Linked()
      reads this
    {
      && (forall k :: 0 <= k < |medications| ==> 1 <= medications[k].residentId <= |residents|)
      && (forall k :: 0 <= k < |instances| ==> 1 <= instances[k].medicationId <= |medications|)
      && (forall k :: 0 <= k < |doses| ==> 1 <= doses[k].medicationInfoId <= |instances|)
    }

    /** `create_tables` on a new database file: four empty tables. */
    constructor ()
      ensures Valid() && Linked()
      ensures residents == [] && medications == [] && instances == [] && doses == []
    {
      residents, medications, instances, doses := [], [], [], [];
    }

    /** `collect_resident_medication`: the resident's medications in insertion order. */
    function MedicationsOf(residentId: int): (r: seq<Medication>)
      reads this
      ensures |r| <= |medications|
      ensures forall k :: 0 <= k < |r| ==> r[k] in medications && r[k].residentId == residentId
    {
      Select(medications, MedicationOwner, residentId)
    }

    /** `collect_medication_instances`: the medication's instances in insertion order. */
    function InstancesOf(medicationId: int): (r: seq<MedicationInstance>)
      reads this
      ensures |r| <= |instances|
      ensures forall k :: 0 <= k < |r| ==> r[k] in instances && r[k].medicationId == medicationId
    {
      Select(instances, InstanceOwner, medicationId)
    }

    /** `collect_medication_instance_doses`: the instance's doses in insertion order. */
    function DosesOf(instanceId: int): (r: seq<Dose>)
      reads this
      ensures |r| <= |doses|
      ensures forall k :: 0 <= k < |r| ==> r[k] in doses && r[k].medicationInfoId == instanceId
    {
      Select(doses, DoseOwner, instanceId)
    }

    /** `collect_medication_name(id)[0][0]`; `None` where the indexing raises. */
    function MedicationName(medicationId: int): (r: Option<string>)
      reads this
      ensures r.Some? <==> exists k :: 0 <= k < |medications| && medications[k].id == medicationId
      ensures r.Some? ==> exists k :: 0 <= k < |medications| && medications[k].id == medicationId
                                      && r.value == medications[k].name
    {
      NameOf(medications, medicationId)
    }

    /** `collect_medication_notes(id)`; `None` where the indexing raises. */
    function MedicationNotes(medicationId: int): (r: Option<string>)
      reads this
      ensures r.Some? <==> exists k :: 0 <= k < |medications| && medications[k].id == medicationId
      ensures r.Some? ==> exists k :: 0 <= k < |medications| && medications[k].id == medicationId
                                      && r.value == medications[k].notes
    {
      match Lookup(medications, MedicationKey, medicationId)
      case None => None
      case Some(m) => Some(m.notes)
    }

    /** `collect_quantity_and_strength(id)`; `None` where the indexing raises. */
    function QuantityAndStrength(instanceId: int): (r: Option<(real, real)>)
      reads this
      ensures r.Some? <==> exists k :: 0 <= k < |instances| && instances[k].id == instanceId
      ensures r.Some? ==> exists k :: 0 <= k < |instances| && instances[k].id == instanceId
                                      && r.value == (instances[k].quantity, instances[k].strength)
    {
      match Lookup(instances, InstanceKey, instanceId)
      case None => None
      case Some(i) => Some((i.quantity, i.strength))
    }

    /** The name the expiry report attaches to `date`. */
    function MedicationNameForExpiry(date: string): Option<string>
      reads this
    {
      NameForExpiry(medications, instances, date)
    }

    /** The spec of `collect_medications_instances_expiry_dates`. */
    function ExpiryDatesOf(residentId: int): seq<string>
      reads this
    {
      ExpiryDates(MedicationsOf(residentId), instances)
    }

    /** `add_resident_to_database`. */
    method AddResident(firstName: string, lastName: string, dob: string) returns (id: int)
      requires Valid()
      modifies this
      ensures Valid()
      ensures id == |old(residents)| + 1
      ensures residents == old(residents) + [Resident(id, firstName, lastName, dob)]
      ensures medications == old(medications) && instances == old(instances) && doses == old(doses)
      ensures old(Linked()) ==> Linked()
    {
      id := |residents| + 1;
      residents := residents + [Resident(id, firstName, lastName, dob)];
    }

    /** `add_medication_to_database`: the notes take their default `' '`. The
        resident id is not checked, as SQLite does not check it. */
    method AddMedication(name: string, otherName: string, residentId: int) returns (id: int)
      requires Valid()
      modifies this
      ensures Valid()
      ensures id == |old(medications)| + 1
      ensures medications == old(medications) + [Medication(id, name, otherName, residentId, DefaultNotes)]
      ensures residents == old(residents) && instances == old(instances) && doses == old(doses)
      ensures old(Linked()) && 1 <= residentId <= |residents| ==> Linked()
    {
      id := |medications| + 1;
      var row := Medication(id, name, otherName, residentId, DefaultNotes);
      ghost var before := medications;
      medications := medications + [row];
      assert forall k :: 0 <= k < |before| ==> medications[k] == before[k];
    }

    /** `add_medication_instance_to_database`: the notes column stays NULL. */
    method AddMedicationInstance(expiry: string, quantity: real, strength: real, medicationType: string,
                                 medicationId: int, supplier: string, measurement: string) returns (id: int)
      requires Valid()
      modifies this
      ensures Valid()
      ensures id == |old(instances)| + 1
      ensures instances == old(instances) + [MedicationInstance(id, expiry, quantity, strength, medicationType,
                                                                None, medicationId, supplier, measurement)]
      ensures residents == old(residents) && medications == old(medications) && doses == old(doses)
      ensures old(Linked()) && 1 <= medicationId <= |medications| ==> Linked()
    {
      id := |instances| + 1;
      var row := MedicationInstance(id, expiry, quantity, strength, medicationType, None, medicationId, supplier, measurement);
      ghost var before := instances;
      instances := instances + [row];
      assert forall k :: 0 <= k < |before| ==> instances[k] == before[k];
    }

    /** `add_medication_instance_dose_to_database`. */
    method AddDose(dose: real, measurement: string, frequencyPerDay: real, regularOrPrn: string,
                   instanceId: int) returns (id: int)
      requires Valid()
      modifies this
      ensures Valid()
      ensures id == |old(doses)| + 1
      ensures doses == old(doses) + [Dose(id, dose, measurement, frequencyPerDay, regularOrPrn, instanceId)]
      ensures residents == old(residents) && medications == old(medications) && instances == old(instances)
      ensures old(Linked()) && 1 <= instanceId <= |instances| ==> Linked()
    {
      id := |doses| + 1;
      var row := Dose(id, dose, measurement, frequencyPerDay, regularOrPrn, instanceId);
      ghost var before := doses;
      doses := doses + [row];
      assert forall k :: 0 <= k < |before| ==> doses[k] == before[k];
    }

    /** `add_medication_notes_to_database`. */
    method AddMedicationNotes(notes: string, medicationId: int)
      requires Valid()
      modifies this
      ensures Valid() && (old(Linked()) ==> Linked())
      ensures medications == WithNotes(old(medications), medicationId, notes)
      ensures residents == old(residents) && instances == old(instances) && doses == old(doses)
    {
      WithNotesChangesOneRow(medications, medicationId, notes);
      medications := WithNotes(medications, medicationId, notes);
    }

    /** `modify_medication_instance_quantity`: `quantity` is the number
        `float` reads from the typed text. */
    method ModifyInstanceQuantity(quantity: real, instanceId: int)
      requires Valid()
      modifies this
      ensures Valid() && (old(Linked()) ==> Linked())
      ensures instances == WithQuantity(old(instances), instanceId, quantity)
      ensures residents == old(residents) && medications == old(medications) && doses == old(doses)
    {
      WithQuantityChangesOneRow(instances, instanceId, quantity);
      instances := WithQuantity(instances, instanceId, quantity);
    }

    /** `collect_medications_instances_expiry_dates`, with the resident id
        bound as one parameter: for each of the resident's medications, the
        expiry texts of its instances. */
    method CollectExpiryDates(residentId: int) returns (dates: seq<string>)
      ensures dates == ExpiryDatesOf(residentId)
    {
      var owned := MedicationsOf(residentId);
      dates := [];
      for k := 0 to |owned|
        invariant dates == ExpiryDates(owned[..k], instances)
      {
        var batch := InstancesOf(owned[k].id);
        for j := 0 to |batch|
          invariant dates == ExpiryDates(owned[..k], instances) + Expiries(batch[..j])
        {
          ExpiriesStep(batch, j);
          dates := dates + [batch[j].expiry];
        }
        assert batch[..|batch|] == batch;
        ExpiryDatesStep(owned, instances, k);
      }
      assert owned[..|owned|] == owned;
    }
  }
}
