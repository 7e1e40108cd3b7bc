/** The rows of the four tables `resident`, `medication`, `medication_info`
    and `dose_info`: one datatype per table, one field per column. */
module Records {
  import opened Wrappers

  datatype Resident = Resident(id: int, firstName: string, lastName: string, dob: string)

  /** `notes` is the column with default `' '`, the one field of a
      medication that is updated after the insert. */
  datatype Medication = Medication(id: int, name: string, otherName: string, residentId: int, notes: string)

  /** One stock batch of a medication. Its `notes` column is never written,
      so it stays NULL (`None`); `quantity` is updated in place. */
  datatype MedicationInstance = MedicationInstance(
    id: int,
    expiry: string,
    quantity: real,
    strength: real,
    medicationType: string,
    notes: Option<string>,
    medicationId: int,
    supplier: string,
    measurement: string)

  /** A dosing regimen of one instance. `regularOrPrn` holds whatever the
      regularity box held: "Regular", "PRN", or "" when nothing was chosen. */
  datatype Dose = Dose(
    id: int,
    dose: real,
    measurement: string,
    frequencyPerDay: real,
    regularOrPrn: string,
    medicationInfoId: int)

  /** The default of `medication.notes`. */
  const DefaultNotes: string := " "

  // Columns by which the store's queries select rows.

  function ResidentKey(r: Resident): int { r.id }

  function MedicationKey(m: Medication): int { m.id }

  function MedicationOwner(m: Medication): int { m.residentId }

  function InstanceKey(i: MedicationInstance): int { i.id }

  function InstanceOwner(i: MedicationInstance): int { i.medicationId }

  function InstanceExpiry(i: MedicationInstance): string { i.expiry }

  function DoseKey(d: Dose): int { d.id }

  function DoseOwner(d: Dose): int { d.medicationInfoId }
}
