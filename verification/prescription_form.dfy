/** The medication list of the prescription form (app/components/PrescriptionForm.js):
    editing it row by row, the rows sent on submit, and the reset after a successful save.
    The component's state variables become the fields of class Form. */
module PrescriptionForm {
  import opened Wrappers
  import opened Seqs

  datatype Medication = Medication(name: string, dosage: string, frequency: string, duration: string, instructions: string)

  /** The five field names `updateMedication` is called with. */
  datatype MedicationField = Name | Dosage | Frequency | Duration | Instructions

  /** The payload POSTed to the prescriptions endpoint (and to the PDF endpoint). */
  datatype Prescription = Prescription(
    appointmentId: string,
    patientId: string,
    diagnosis: string,
    notes: string,
    medications: seq<Medication>,
    createdAt: string)

  /** A row with every field empty. */
  const BlankMedication := Medication("", "", "", "", "")

  function FieldOf(m: Medication, f: MedicationField): string
  {
    match f
    case Name => m.name
    case Dosage => m.dosage
    case Frequency => m.frequency
    case Duration => m.duration
    case Instructions => m.instructions
  }

  /** `medication[field] = value` on one row. */
  function WithField(m: Medication, f: MedicationField, v: string): (r: Medication)
    ensures FieldOf(r, f) == v
    ensures forall g :: g != f ==> FieldOf(r, g) == FieldOf(m, g)
  {
    match f
    case Name => m.(name := v)
    case Dosage => m.(dosage := v)
    case Frequency => m.(frequency := v)
    case Duration => m.(duration := v)
    case Instructions => m.(instructions := v)
  }

  /** `addMedication`: `[...medications, blank]`. */
  function WithBlankAdded(meds: seq<Medication>): (r: seq<Medication>)
    ensures |r| == |meds| + 1
    ensures r[..|meds|] == meds && r[|meds|] == BlankMedication
  {
    meds + [BlankMedication]
  }

  /** `removeMedication(index)`: the list without position `index`, except that the last
      remaining row is never removed. */
  function WithoutRow(meds: seq<Medication>, index: int): (r: seq<Medication>)
    ensures |meds| <= 1 ==> r == meds
    ensures |meds| > 1 && 0 <= index < |meds| ==>
              |r| == |meds| - 1
              && (forall k :: 0 <= k < index ==> r[k] == meds[k])
              && (forall k :: index <= k < |r| ==> r[k] == meds[k + 1])
    ensures !(0 <= index < |meds|) ==> r == meds
    ensures |meds| >= 1 ==> |r| >= 1
  {
    if |meds| > 1 && 0 <= index < |meds| then meds[..index] + meds[index + 1..] else meds
  }

  /** `updateMedication(index, field, value)` as seen in the new list: the one field of the
      one row changes.  An index without a row makes the assignment throw, and the list
      is left as it was. */
  function WithFieldAt(meds: seq<Medication>, index: int, f: MedicationField, v: string): (r: seq<Medication>)
    ensures |r| == |meds|
    ensures 0 <= index < |meds| ==> FieldOf(r[index], f) == v && forall g :: g != f ==> FieldOf(r[index], g) == FieldOf(meds[index], g)
    ensures forall k :: 0 <= k < |meds| && k != index ==> r[k] == meds[k]
    ensures !(0 <= index < |meds|) ==> r == meds
  {
    if 0 <= index < |meds| then meds[index := WithField(meds[index], f, v)] else meds
  }

  /** The characters `String.prototype.trim` removes: WhiteSpace and LineTerminator. */
  predicate IsTrimmed(c: char)
  {
    var n := c as int;
    n == 0x09 || n == 0x0A || n == 0x0B || n == 0x0C || n == 0x0D || n == 0x20 || n == 0xA0
    || n == 0x1680 || (0x2000 <= n <= 0x200A) || n == 0x2028 || n == 0x2029 || n == 0x202F
    || n == 0x205F || n == 0x3000 || n == 0xFEFF
  }

  /** `s` without its leading characters that satisfy `space`. */
  function TrimStart(s: string, space: char -> bool): (r: string)
    ensures r == [] || !space(r[0])
    ensures exists k :: 0 <= k <= |s| && r == s[k..] && forall i :: 0 <= i < k ==> space(s[i])
  {
    if s == [] || !space(s[0]) then
      assert s == s[0..];
      s
    else
      var r := TrimStart(s[1..], space);
      var k :| 0 <= k <= |s| - 1 && r == s[1..][k..] && forall i :: 0 <= i < k ==> space(s[1..][i]);
      assert r == s[k + 1..];
      r
  }

  /** `s` without its trailing characters that satisfy `space`. */
  function TrimEnd(s: string, space: char -> bool): (r: string)
    ensures r == [] || !space(r[|r| - 1])
    ensures exists k :: 0 <= k <= |s| && r == s[..k] && forall i :: k <= i < |s| ==> space(s[i])
  {
    if s == [] || !space(s[|s| - 1]) then
      assert s == s[..|s|];
      s
    else
      var p := s[..|s| - 1];
      var r := TrimEnd(p, space);
      var k :| 0 <= k <= |p| && r == p[..k] && forall i :: k <= i < |p| ==> space(p[i]);
      assert r == s[..k];
      r
  }

  /** `s.trim()`. */
  function Trim(s: string): string
  {
    TrimEnd(TrimStart(s, IsTrimmed), IsTrimmed)
  }

  /** A string of `space` characters only trims to nothing. */
  lemma TrimAllSpace(s: string, space: char -> bool)
    requires forall i :: 0 <= i < |s| ==> space(s[i])
    ensures TrimEnd(TrimStart(s, space), space) == ""
  {
    var t := TrimStart(s, space);
    var k :| 0 <= k <= |s| && t == s[k..] && forall i :: 0 <= i < k ==> space(s[i]);
    assert k == |s|;
  }

  /** When trimming leaves nothing, every character was a `space` character. */
  lemma TrimmedAwayAllSpace(s: string, space: char -> bool)
    requires TrimEnd(TrimStart(s, space), space) == ""
    ensures forall i :: 0 <= i < |s| ==> space(s[i])
  {
    var t := TrimStart(s, space);
    var k :| 0 <= k <= |s| && t == s[k..] && forall i :: 0 <= i < k ==> space(s[i]);
    assert t == [];
  }

  lemma TrimBothEmptyIff(s: string, space: char -> bool)
    ensures TrimEnd(TrimStart(s, space), space) == "" <==> forall i :: 0 <= i < |s| ==> space(s[i])
  {
    if forall i :: 0 <= i < |s| ==> space(s[i]) {
      TrimAllSpace(s, space);
    }
    if TrimEnd(TrimStart(s, space), space) == "" {
      TrimmedAwayAllSpace(s, space);
    }
  }

  /** A string trims to the empty string exactly when all of its characters are trimmed ones. */
  lemma TrimEmptyIff(s: string)
    ensures Trim(s) == "" <==> forall i :: 0 <= i < |s| ==> IsTrimmed(s[i])
  {
    TrimBothEmptyIff(s, IsTrimmed);
  }

  predicate HasName(m: Medication)
  {
    Trim(m.name) != ""
  }

  /** `medications.filter(med => med.name.trim() !== '')`: the rows whose name has a
      character other than white space, in their original order. */
  function SubmittedMedications(meds: seq<Medication>): (r: seq<Medication>)
    ensures forall m :: m in r <==> m in meds && exists i :: 0 <= i < |m.name| && !IsTrimmed(m.name[i])
    ensures IsSubsequence(r, meds)
    ensures |r| == Count(meds, HasName)
  {
    forall m | m in meds ensures HasName(m) <==> exists i :: 0 <= i < |m.name| && !IsTrimmed(m.name[i]) {
      TrimEmptyIff(m.name);
    }
    Filter(meds, HasName)
  }

  /** The form's state: the medication rows and the two free-text fields. */
  class Form {
    const appointmentId: string
    const patientId: string
    var medications: seq<Medication>
    var diagnosis: string
    var notes: string

    /** The list is never empty. */
    ghost predicate Valid()
      reads this
    {
      |medications| >= 1
    }

    /** The initial state: one blank row, empty diagnosis and notes. */
    constructor (appointmentId: string, patientId: string)
      ensures Valid()
      ensures this.appointmentId == appointmentId && this.patientId == patientId
      ensures medications == [BlankMedication] && diagnosis == "" && notes == ""
    {
      this.appointmentId := appointmentId;
      this.patientId := patientId;
      medications := [BlankMedication];
      diagnosis := "";
      notes := "";
    }

    method AddMedication()
      requires Valid()
      modifies this
      ensures Valid()
      ensures medications == WithBlankAdded(old(medications))
      ensures diagnosis == old(diagnosis) && notes == old(notes)
    {
      medications := WithBlankAdded(medications);
    }

    method RemoveMedication(index: int)
      requires Valid()
      modifies this
      ensures Valid()
      ensures medications == WithoutRow(old(medications), index)
      ensures diagnosis == old(diagnosis) && notes == old(notes)
    {
      if |medications| > 1 {
        medications := WithoutRow(medications, index);
      }
    }

    /** Copies the list, assigns the field in the copy, and stores the copy. */
    method UpdateMedication(index: int, field: MedicationField, value: string)
      requires Valid()
      modifies this
      ensures Valid()
      ensures medications == WithFieldAt(old(medications), index, field, value)
      ensures diagnosis == old(diagnosis) && notes == old(notes)
    {
      if 0 <= index < |medications| {
        var updated := medications;
        updated := updated[index := WithField(updated[index], field, value)];
        medications := updated;
      }
    }

    method SetDiagnosis(value: string)
      requires Valid()
      modifies this
      ensures Valid()
      ensures diagnosis == value && medications == old(medications) && notes == old(notes)
    {
      diagnosis := value;
    }

    method SetNotes(value: string)
      requires Valid()
      modifies this
      ensures Valid()
      ensures notes == value && medications == old(medications) && diagnosis == old(diagnosis)
    {
      notes := value;
    }

    /** The body sent on submit and for the PDF; `createdAt` stands for the clock. */
    function Payload(createdAt: string): (p: Prescription)
      reads this
      ensures p.medications == SubmittedMedications(medications)
      ensures p.diagnosis == diagnosis && p.notes == notes
      ensures p.appointmentId == appointmentId && p.patientId == patientId
    {
      Prescription(appointmentId, patientId, diagnosis, notes, SubmittedMedications(medications), createdAt)
    }

    /** Submitting the form.  The diagnosis textarea is `required`, so while it is empty the
        browser blocks the submit event: `handleSubmit` does not run, nothing is sent and
        the form is kept.  Otherwise `handleSubmit` sends the payload; `saved` is whether
        the server accepted it.  After a successful save the form is reset; after a failure
        it is kept as it was. */
    method Submit(createdAt: string, saved: bool) returns (sent: Option<Prescription>)
      requires Valid()
      modifies this
      ensures Valid()
      ensures old(diagnosis) == "" ==> sent == None
      ensures old(diagnosis) != "" ==> sent == Some(old(Payload(createdAt)))
      ensures sent.Some? && saved ==> medications == [BlankMedication] && diagnosis == "" && notes == ""
      ensures sent.None? || !saved ==> medications == old(medications) && diagnosis == old(diagnosis) && notes == old(notes)
    {
      if diagnosis == "" {
        return None;
      }
      sent := Some(Payload(createdAt));
      if saved {
        medications := [BlankMedication];
        diagnosis := "";
        notes := "";
      }
    }
  }
}
