/**
 * The `/query` suggestion endpoint: the allow-list that maps a requested
 * field to its table and base column, and the lookup it then runs.
 */
module Autocomplete {
  import opened Wrappers
  import opened Records
  import opened Strings

  datatype Table = Patients | Medications

  /** `table_map`: field name to (table, base column). */
  const TableMap: map<string, (Table, string)> := map[
    "patient_name" := (Patients, "patient_name"),
    "age" := (Patients, "patient_name"),
    "sex" := (Patients, "patient_name"),
    "med_name" := (Medications, "med_name"),
    "dose" := (Medications, "med_name"),
    "form" := (Medications, "med_name")
  ]

  /** `LOWER(base) LIKE LOWER(:pattern)` or `LOWER(base) = LOWER(:value)`. */
  datatype Match = Contains(pattern: string) | Equal(value: string)

  datatype Plan =
    | EmptyReply                 // `jsonify([])`
    | ServerError                // `results` read before assignment
    | Suggest(column: string, table: Table, base: string, filter: Match)

  /**
   * What `/query?type=..&value=..` does.  A type outside the allow-list gets
   * an empty reply and no query; an allowed type selects its own column from
   * the mapped table, filtered on the mapped base column.
   */
  function QueryPlan(kind: Text, value: Text): (p: Plan)
    ensures p == EmptyReply <==> kind.None? || kind.value !in TableMap
    ensures p.Suggest? <==> kind.Some? && kind.value in TableMap && Truthy(value)
    ensures p.Suggest? ==> p.column == kind.value && (p.table, p.base) == TableMap[kind.value]
    ensures p.Suggest? ==>
      p.filter == if HasInfix(kind.value, "name") then Contains("%" + value.value + "%") else Equal(value.value)
  {
    if kind.None? || kind.value !in TableMap then EmptyReply
    else if !Truthy(value) then ServerError
    else
      var (table, base) := TableMap[kind.value];
      Suggest(kind.value, table, base,
        if HasInfix(kind.value, "name") then Contains("%" + value.value + "%") else Equal(value.value))
  }

  /**
   * The allow-list in full: age and sex are looked up by patient name, dose
   * and form by medication name, and only the two name fields are matched
   * as substrings.
   */
  lemma AllowList(t: string)
    ensures t in TableMap <==> t in {"patient_name", "age", "sex", "med_name", "dose", "form"}
    ensures t in {"patient_name", "age", "sex"} ==> TableMap[t] == (Patients, "patient_name")
    ensures t in {"med_name", "dose", "form"} ==> TableMap[t] == (Medications, "med_name")
    ensures t in TableMap ==> (HasInfix(t, "name") <==> t == "patient_name" || t == "med_name")
  {
    if t == "patient_name" {
      assert InfixAt("name", t, 8);
    } else if t == "med_name" {
      assert InfixAt("name", t, 4);
    } else if t in TableMap {
      forall i | 0 <= i <= |t| - 4 ensures !InfixAt("name", t, i) {
        assert i == 0 && t[0..4] == t;
      }
    }
  }
}
