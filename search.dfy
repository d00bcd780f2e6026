/**
 * The filtered search of the search page: which filters are active and the
 * predicate and parameter each adds to the query.  Python's whitespace
 * class (`str.strip`) is the parameter `isSpace`, its digit class the
 * parameter `isDigit`.
 */
module Search {
  import opened Wrappers
  import opened Records
  import opened Strings
  import Helpers

  /** The keys of the `filters` dict, which doubles as the column names. */
  datatype Key = Day | Month | Year | PatientName | Age | Sex | MedName | Form | Dose

  /** The dict's insertion order, in which the loop visits it. */
  const FilterOrder: seq<Key> := [Day, Month, Year, PatientName, Age, Sex, MedName, Form, Dose]

  /** Keys matched as case-insensitive substrings; the rest are matched exactly. */
  predicate IsSubstringKey(k: Key) {
    k == PatientName || k == Age || k == MedName || k == Form || k == Dose
  }

  datatype SearchForm = SearchForm(
    id: Text, day: Text, month: Text, year: Text, patientName: Text,
    age: Text, sex: Text, medName: Text, form: Text, dose: Text)

  /** `request.form.get(field, "")` for the field behind `k`. */
  function Raw(f: SearchForm, k: Key): string {
    match k
    case Day => f.day.GetOr("")
    case Month => f.month.GetOr("")
    case Year => f.year.GetOr("")
    case PatientName => f.patientName.GetOr("")
    case Age => f.age.GetOr("")
    case Sex => f.sex.GetOr("")
    case MedName => f.medName.GetOr("")
    case Form => f.form.GetOr("")
    case Dose => f.dose.GetOr("")
  }

  /** A part of an all-digit string is all digits. */
  lemma InfixDigits(isDigit: char -> bool, r: string, s: string, i: nat)
    requires i + |r| <= |s| && InfixAt(r, s, i) && Helpers.AllDigits(isDigit, s)
    ensures Helpers.AllDigits(isDigit, r)
  {
    assert forall j :: 0 <= j < |r| ==> r[j] == s[i + j];
  }

  /** `str.lstrip()`: exactly the leading whitespace removed. */
  function TrimStart(isSpace: char -> bool, s: string): (r: string)
    ensures r == [] || !isSpace(r[0])
    ensures |r| <= |s| && r == s[|s| - |r|..]
    ensures forall i :: 0 <= i < |s| - |r| ==> isSpace(s[i])
  {
    if s != [] && isSpace(s[0]) then
      var r := TrimStart(isSpace, s[1..]);
      assert forall i :: 0 < i < |s| - |r| ==> s[i] == s[1..][i - 1];
      r
    else s
  }

  /** `str.rstrip()`: exactly the trailing whitespace removed. */
  function TrimEnd(isSpace: char -> bool, s: string): (r: string)
    ensures r == [] || !isSpace(r[|r| - 1])
    ensures |r| <= |s| && r == s[..|r|]
    ensures forall i :: |r| <= i < |s| ==> isSpace(s[i])
  {
    if s != [] && isSpace(s[|s| - 1]) then
      var r := TrimEnd(isSpace, s[..|s| - 1]);
      assert forall i :: |r| <= i < |s| - 1 ==> s[i] == s[..|s| - 1][i];
      r
    else s
  }

  /**
   * `str.strip()`: the slice of `s` left after removing the whitespace at
   * both ends, so that neither end of the result is whitespace.  The slice
   * starts after the leading whitespace, `|s| - |TrimStart(isSpace, s)|`
   * characters; `StripRemovesSpaces` shows that all it drops is whitespace.
   */
  function Strip(isSpace: char -> bool, s: string): (r: string)
    ensures r == [] || (!isSpace(r[0]) && !isSpace(r[|r| - 1]))
    ensures var a := |s| - |TrimStart(isSpace, s)|;
      0 <= a && a + |r| <= |s| && r == s[a..a + |r|]
  {
    var t := TrimStart(isSpace, s);
    SliceOfSuffix(s, |s| - |t|, |TrimEnd(isSpace, t)|);
    TrimEnd(isSpace, t)
  }

  /** What `Strip` drops from either end of `s` is whitespace. */
  lemma StripRemovesSpaces(isSpace: char -> bool, s: string)
    ensures var a := |s| - |TrimStart(isSpace, s)|;
      && (forall i :: 0 <= i < a ==> isSpace(s[i]))
      && (forall i :: a + |Strip(isSpace, s)| <= i < |s| ==> isSpace(s[i]))
  {
    var t := TrimStart(isSpace, s);
    var r := TrimEnd(isSpace, t);
    assert Strip(isSpace, s) == r;
    SuffixSpaces(isSpace, s, t, r);
  }

  /**
   * When `t` is a suffix of `s` and `r` a prefix of `t` followed only by
   * whitespace in `t`, `r` is followed only by whitespace in `s` too.
   */
  lemma SuffixSpaces(isSpace: char -> bool, s: string, t: string, r: string)
    requires |r| <= |t| <= |s| && t == s[|s| - |t|..]
    requires forall j :: |r| <= j < |t| ==> isSpace(t[j])
    ensures forall i :: |s| - |t| + |r| <= i < |s| ==> isSpace(s[i])
  {
    forall i | |s| - |t| + |r| <= i < |s| ensures isSpace(s[i]) {
      assert s[i] == t[i - (|s| - |t|)];
    }
  }

  /** Cutting `n` characters off the suffix of `s` that starts at `a`. */
  lemma SliceOfSuffix(s: string, a: int, n: int)
    requires 0 <= a <= |s| && 0 <= n <= |s| - a
    ensures s[a..][..n] == s[a..a + n]
  {
  }

  /** Stripping an all-digit string leaves it all digits. */
  lemma StripDigits(isDigit: char -> bool, isSpace: char -> bool, s: string)
    requires Helpers.AllDigits(isDigit, s)
    ensures Helpers.AllDigits(isDigit, Strip(isSpace, s))
  {
    var a := |s| - |TrimStart(isSpace, s)|;
    InfixDigits(isDigit, Strip(isSpace, s), s, a);
  }

  /** The field behind `k` before stripping: age and dose go through `norm`. */
  function Unstripped(isDigit: char -> bool, f: SearchForm, k: Key): string {
    if k == Age || k == Dose then Helpers.Norm(isDigit, Some(Raw(f, k))).value else Raw(f, k)
  }

  /**
   * `filters[k]`: the stripped field, with age and dose passed through
   * `norm` first, or None when nothing is left.
   */
  function FilterValue(isDigit: char -> bool, isSpace: char -> bool, f: SearchForm, k: Key): (v: Option<string>)
    ensures v.Some? <==> Strip(isSpace, Unstripped(isDigit, f, k)) != ""
    ensures v.Some? ==> v.value == Strip(isSpace, Unstripped(isDigit, f, k))
    ensures v.Some? && (k == Age || k == Dose) ==> Helpers.AllDigits(isDigit, v.value)
  {
    var text := Unstripped(isDigit, f, k);
    var t := Strip(isSpace, text);
    assert (k == Age || k == Dose) ==> Helpers.AllDigits(isDigit, t) by {
      if k == Age || k == Dose {
        StripDigits(isDigit, isSpace, text);
      }
    }
    if t == "" then None else Some(t)
  }

  /** The `filters` dict. */
  function Filters(isDigit: char -> bool, isSpace: char -> bool, f: SearchForm): map<Key, Option<string>> {
    map k | k in FilterOrder :: FilterValue(isDigit, isSpace, f, k)
  }

  /** The keys among `keys` whose filter is set, in order. */
  function Active(filters: map<Key, Option<string>>, keys: seq<Key>): seq<Key>
    requires forall k :: k in filters
  {
    if keys == [] then []
    else
      var last := keys[|keys| - 1];
      Active(filters, keys[..|keys| - 1]) + (if filters[last].Some? then [last] else [])
  }

  /** `LOWER(k) LIKE LOWER(:k)` or `k = :k`. */
  datatype Clause = Like(column: Key) | Equals(column: Key)

  datatype ParamKey = UserIdParam | FilterParam(key: Key)
  datatype ParamValue = IdValue(id: int) | TextValue(text: string)

  function ClauseFor(k: Key): Clause {
    if IsSubstringKey(k) then Like(k) else Equals(k)
  }

  /** `%v%` for substring keys, `v` itself for the others. */
  function PatternFor(k: Key, v: string): string {
    if IsSubstringKey(k) then "%" + v + "%" else v
  }

  lemma EveryKey(k: Key)
    ensures k in FilterOrder
  {
  }

  lemma {:induction false} ActiveMembers(filters: map<Key, Option<string>>, keys: seq<Key>)
    requires forall k :: k in filters
    ensures forall k :: k in Active(filters, keys) <==> k in keys && filters[k].Some?
  {
    if keys != [] {
      var init := keys[..|keys| - 1];
      ActiveMembers(filters, init);
      assert keys == init + [keys[|keys| - 1]];
    }
  }

  lemma FiltersComplete(isDigit: char -> bool, isSpace: char -> bool, f: SearchForm)
    ensures var m := Filters(isDigit, isSpace, f);
      forall k :: k in m && m[k] == FilterValue(isDigit, isSpace, f, k)
  {
    forall k ensures k in FilterOrder { EveryKey(k); }
  }

  /**
   * The query-building loop over the `filters` dict.  The parameters are the
   * user id plus exactly the set filters, each as its pattern; one predicate
   * per set filter, in the dict's order, LIKE for substring keys and
   * equality for the rest.
   */
  method BuildQuery(uid: UserId, filters: map<Key, Option<string>>)
    returns (clauses: seq<Clause>, params: map<ParamKey, ParamValue>)
    requires forall k :: k in filters
    ensures UserIdParam in params && params[UserIdParam] == IdValue(uid)
    ensures forall k :: FilterParam(k) in params <==> filters[k].Some?
    ensures forall k :: FilterParam(k) in params ==> params[FilterParam(k)] == TextValue(PatternFor(k, filters[k].value))
    ensures var active := Active(filters, FilterOrder);
      |clauses| == |active| && forall i :: 0 <= i < |clauses| ==> clauses[i] == ClauseFor(active[i])
  {
    clauses := [];
    params := map[UserIdParam := IdValue(uid)];
    for i := 0 to |FilterOrder|
      invariant UserIdParam in params && params[UserIdParam] == IdValue(uid)
      invariant forall k :: FilterParam(k) in params <==> k in FilterOrder[..i] && filters[k].Some?
      invariant forall k :: FilterParam(k) in params ==> params[FilterParam(k)] == TextValue(PatternFor(k, filters[k].value))
      invariant var active := Active(filters, FilterOrder[..i]);
        |clauses| == |active| && forall j :: 0 <= j < |clauses| ==> clauses[j] == ClauseFor(active[j])
    {
      var key := FilterOrder[i];
      assert FilterOrder[..i + 1] == FilterOrder[..i] + [key];
      assert FilterOrder[..i + 1][..i] == FilterOrder[..i];
      if filters[key].Some? {
        clauses := clauses + [ClauseFor(key)];
        params := params[FilterParam(key) := TextValue(PatternFor(key, filters[key].value))];
      }
    }
    assert FilterOrder[..|FilterOrder|] == FilterOrder;
    forall k ensures k in FilterOrder { EveryKey(k); }
  }
}
