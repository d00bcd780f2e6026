/**
 * The rows of the prescription store and the positional medication lines a
 * prescription form submits.  Identifiers are the store's auto-incremented
 * integers.
 */
module Records {
  import opened Wrappers

  type UserId = int
  type PrescriptionId = int

  /** A form value as Flask hands it over: None when the field was not sent. */
  type Text = Option<string>

  /** Python truthiness of a form value: neither None nor the empty string. */
  predicate Truthy(t: Text) {
    t.Some? && t.value != ""
  }

  datatype User = User(username: string, hash: string)
  datatype Doctor = Doctor(name: Text, qualification: Text, department: Text, registration: Text)
  datatype Clinic = Clinic(name: Text, address: Text, contact: Text, email: Text)
  datatype Prescription = Prescription(userId: UserId, day: Text, month: Text, year: Text)
  datatype Patient = Patient(name: Text, age: Text, sex: Text)
  datatype Vitals = Vitals(chiefComplaints: Text, onExamination: Text, testAdvised: Text, diagnosis: Text)

  /** One positional tuple of the medication arrays of a prescription form. */
  datatype MedLine = MedLine(name: string, dose: string, form: string, schedule: string, timing: string, duration: string)

  /** A row of the medications table; `userId` is the denormalised owner. */
  datatype MedRow = MedRow(line: MedLine, userId: UserId)

  /** Medication rows are identified by (prescription id, sequence). */
  type MedKey = (PrescriptionId, int)

  /** The six parallel `getlist` arrays of a prescription form. */
  datatype MedColumns = MedColumns(
    names: seq<string>, doses: seq<string>, forms: seq<string>,
    schedules: seq<string>, timings: seq<string>, durations: seq<string>)
  {
    predicate AnyEmpty() {
      names == [] || doses == [] || forms == [] || schedules == [] || timings == [] || durations == []
    }

    function Tail(): MedColumns
      requires !AnyEmpty()
    {
      MedColumns(names[1..], doses[1..], forms[1..], schedules[1..], timings[1..], durations[1..])
    }
  }

  /**
   * Python's `zip` over the six arrays: one tuple per position, stopping at the
   * shortest array.
   */
  function Zip(c: MedColumns): (lines: seq<MedLine>)
    ensures |lines| <= |c.names| && |lines| <= |c.doses| && |lines| <= |c.forms|
    ensures |lines| <= |c.schedules| && |lines| <= |c.timings| && |lines| <= |c.durations|
    ensures |lines| == |c.names| || |lines| == |c.doses| || |lines| == |c.forms|
         || |lines| == |c.schedules| || |lines| == |c.timings| || |lines| == |c.durations|
    ensures forall i :: 0 <= i < |lines| ==>
      lines[i] == MedLine(c.names[i], c.doses[i], c.forms[i], c.schedules[i], c.timings[i], c.durations[i])
    decreases |c.names|
  {
    if c.AnyEmpty() then []
    else [MedLine(c.names[0], c.doses[0], c.forms[0], c.schedules[0], c.timings[0], c.durations[0])] + Zip(c.Tail())
  }
}
