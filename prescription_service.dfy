/** PrescriptionService: the prescription table's lookups, create and
    delete, the duplicate-medication check and renewal, which adds a copy
    with one refill fewer and leaves the original as it was. */
module PrescriptionService {
  import opened Base
  import opened Entities
  import opened Store

  /** GetByIdAsync: FirstOrDefault, so an unknown id yields null. */
  function GetById(ps: seq<Prescription>, id: int): (r: Option<Prescription>)
    ensures r.Some? <==> exists p :: p in ps && p.id == id
    ensures r.Some? ==> r.value in ps && r.value.id == id
  {
    var i := IndexOf(ps, PrescriptionKey, id);
    if i < 0 then Option.None else Some(ps[i])
  }

  /** GetByPatientIdAsync: exactly the patient's rows. */
  function GetByPatientId(ps: seq<Prescription>, patientId: int): (r: seq<Prescription>)
    ensures forall p :: multiset(r)[p] == if p.patientId == patientId then multiset(ps)[p] else 0
  {
    Filter(ps, (p: Prescription) => p.patientId == patientId)
  }

  /** GetByDoctorIdAsync: exactly the doctor's rows. */
  function GetByDoctorId(ps: seq<Prescription>, doctorId: int): (r: seq<Prescription>)
    ensures forall p :: multiset(r)[p] == if p.doctorId == doctorId then multiset(ps)[p] else 0
  {
    Filter(ps, (p: Prescription) => p.doctorId == doctorId)
  }

  /** The Medication column of each row. */
  function Medications(ps: seq<Prescription>): (ms: seq<string>)
    ensures |ms| == |ps|
    ensures forall i :: 0 <= i < |ps| ==> ms[i] == ps[i].medication
  {
    seq(|ps|, i requires 0 <= i < |ps| => ps[i].medication)
  }

  /** CheckForInteractions: the patient's medications, then Any equal to
      the given one (ordinal comparison, no trimming or case folding). */
  function CheckForInteractions(ps: seq<Prescription>, medication: string, patientId: int): (found: bool)
    ensures found <==> exists p :: p in ps && p.patientId == patientId && p.medication == medication
  {
    var mine := GetByPatientId(ps, patientId);
    var meds := Medications(mine);
    assert forall p :: p in mine <==> p in multiset(mine);
    assert forall p :: p in mine ==> p.medication in meds by {
      forall p | p in mine ensures p.medication in meds {
        var i :| 0 <= i < |mine| && mine[i] == p;
        assert meds[i] == p.medication;
      }
    }
    medication in meds
  }

  method CreateAsync(ctx: Context, prescription: Prescription) returns (row: Prescription)
    requires ctx.Valid()
    modifies ctx`prescriptions, ctx`nextPrescriptionId
    ensures ctx.Valid()
    ensures row == prescription.(id := old(ctx.nextPrescriptionId))
    ensures ctx.prescriptions == old(ctx.prescriptions) + [row]
    ensures ctx.nextPrescriptionId == old(ctx.nextPrescriptionId) + 1
  {
    row := ctx.InsertPrescription(prescription);
  }

  /** Removes the row with that key; an unknown key changes nothing. */
  method DeleteAsync(ctx: Context, id: int)
    requires ctx.Valid()
    modifies ctx`prescriptions
    ensures ctx.Valid()
    ensures forall p :: p in ctx.prescriptions <==> p in old(ctx.prescriptions) && p.id != id
    ensures GetById(old(ctx.prescriptions), id).None? ==> ctx.prescriptions == old(ctx.prescriptions)
    ensures GetById(old(ctx.prescriptions), id).Some? ==> |ctx.prescriptions| == |old(ctx.prescriptions)| - 1
  {
    var i := IndexOf(ctx.prescriptions, PrescriptionKey, id);
    if 0 <= i {
      RemoveKeyed(ctx.prescriptions, PrescriptionKey, ctx.nextPrescriptionId, i);
      ctx.prescriptions := RemoveAt(ctx.prescriptions, i);
    }
  }

  // ---------------------------------------------------------------------------
  // RenewAsync
  // ---------------------------------------------------------------------------

  /** A prescription may be renewed while refills are allowed and some
      remain. */
  predicate CanRenew(p: Prescription) {
    p.allowRefills && p.refillsAllowed > 0
  }

  /** The copy RenewAsync creates: the original's medication, dosage,
      frequency, duration, instructions, patient, doctor and AllowRefills,
      one refill fewer, prescribed now. It names no appointment and keeps
      the record's defaults for expiry, notes and renewal status. */
  function RenewedCopy(p: Prescription, now: int): (c: Prescription)
    ensures c.medication == p.medication && c.dosage == p.dosage && c.frequency == p.frequency
    ensures c.durationDays == p.durationDays && c.instructions == p.instructions
    ensures c.patientId == p.patientId && c.doctorId == p.doctorId && c.allowRefills == p.allowRefills
    ensures c.refillsAllowed == p.refillsAllowed - 1 && c.prescribedDate == now
    ensures c.appointmentId == 0 && c.renewalStatus == RenewalStatus.RenewalNone && c.expiryDate == Option.None
  {
    NewPrescription(0, p.doctorId, p.patientId, p.medication, p.dosage, p.frequency, p.durationDays,
                    p.instructions, p.allowRefills, p.refillsAllowed - 1, now)
  }

  /** Returns false and changes nothing for an unknown id or a prescription
      that cannot be renewed; otherwise appends the renewed copy, leaves the
      original untouched and returns true. */
  method RenewAsync(ctx: Context, id: int, now: int) returns (renewed: bool)
    requires ctx.Valid()
    modifies ctx`prescriptions, ctx`nextPrescriptionId
    ensures ctx.Valid()
    ensures renewed <==> GetById(old(ctx.prescriptions), id).Some? && CanRenew(GetById(old(ctx.prescriptions), id).value)
    ensures !renewed ==> ctx.prescriptions == old(ctx.prescriptions) && ctx.nextPrescriptionId == old(ctx.nextPrescriptionId)
    ensures renewed ==>
      && ctx.prescriptions == old(ctx.prescriptions)
           + [RenewedCopy(GetById(old(ctx.prescriptions), id).value, now).(id := old(ctx.nextPrescriptionId))]
      && ctx.nextPrescriptionId == old(ctx.nextPrescriptionId) + 1
  {
    var prescription := GetById(ctx.prescriptions, id);
    if prescription.None? {
      return false;
    }
    if !prescription.value.allowRefills || prescription.value.refillsAllowed <= 0 {
      return false;
    }
    var row := CreateAsync(ctx, RenewedCopy(prescription.value, now));
    renewed := true;
  }

  /** A renewable prescription's copy has strictly fewer refills, and never
      fewer than zero. */
  lemma RenewalDecreasesRefills(p: Prescription, now: int)
    requires CanRenew(p)
    ensures 0 <= RenewedCopy(p, now).refillsAllowed < p.refillsAllowed
  {
  }

  /** The number of successive renewals, each of the previous copy, that
      succeed before the chain stops. */
  function ChainLength(p: Prescription, now: int): (n: nat)
    decreases if p.refillsAllowed < 0 then 0 else p.refillsAllowed
    ensures n == if p.allowRefills && p.refillsAllowed > 0 then p.refillsAllowed else 0
  {
    if CanRenew(p) then 1 + ChainLength(RenewedCopy(p, now), now) else 0
  }

  /** Renewing the original again after a renewal passes the same guard:
      the original row is still found, unchanged, under its own key. */
  lemma RenewingTheOriginalAgain(ps: seq<Prescription>, next: int, id: int, now: int)
    requires KeysValid(ps, PrescriptionKey, next) && 0 < next
    requires GetById(ps, id).Some? && CanRenew(GetById(ps, id).value)
    ensures GetById(ps + [RenewedCopy(GetById(ps, id).value, now).(id := next)], id) == GetById(ps, id)
  {
    var p := GetById(ps, id).value;
    var t := ps + [RenewedCopy(p, now).(id := next)];
    var i := IndexOf(ps, PrescriptionKey, id);
    AppendKeepsKeysValid(ps, PrescriptionKey, next, RenewedCopy(p, now).(id := next));
    assert t[i] == ps[i];
    KeyedIndexUnique(t, PrescriptionKey, next + 1, id, i);
  }

  /** A copy of a prescription that meets the record's constraints meets
      them too. */
  lemma RenewedCopyMeetsAnnotations(p: Prescription, now: int)
    requires MeetsAnnotations(p)
    ensures MeetsAnnotations(RenewedCopy(p, now))
  {
  }
}
