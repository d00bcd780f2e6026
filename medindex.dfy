/**
 * The medication autocomplete index the home page sends: for every medication
 * name, the values seen for each other field, unique and ranked the way
 * `Counter(values).most_common()` ranks them.
 */
module MedIndex {
  import opened Records

  datatype Field = Dose | Form | Schedule | Timing | Duration

  /** The `types` list, in its order. */
  const Fields: seq<Field> := [Dose, Form, Schedule, Timing, Duration]

  function ValueOf(line: MedLine, f: Field): string {
    match f
    case Dose => line.dose
    case Form => line.form
    case Schedule => line.schedule
    case Timing => line.timing
    case Duration => line.duration
  }

  /** The index of the first occurrence of `x` in `s`. */
  function First(x: string, s: seq<string>): (i: nat)
    requires x in s
    ensures i < |s| && s[i] == x && x !in s[..i]
  {
    if s[0] == x then 0
    else
      var j := First(x, s[1..]);
      assert s[..j + 1] == [s[0]] + s[1..][..j];
      j + 1
  }

  /**
   * `a` is ranked before `b` by `most_common()`: it occurs more often, or as
   * often and first occurs earlier (the sort is stable and a Counter keeps
   * first-insertion order).
   */
  predicate Before(a: string, b: string, s: seq<string>)
    requires a in s && b in s
  {
    var ca, cb := multiset(s)[a], multiset(s)[b];
    ca > cb || (ca == cb && First(a, s) < First(b, s))
  }

  /** `r` lists values of `s` in strictly decreasing rank. */
  predicate Ranked(r: seq<string>, s: seq<string>) {
    (forall x :: x in r ==> x in s) &&
    forall i, j :: 0 <= i < j < |r| ==> Before(r[i], r[j], s)
  }

  predicate NoDuplicates(r: seq<string>) {
    forall i, j :: 0 <= i < j < |r| ==> r[i] != r[j]
  }

  /** The keys of `Counter(s)`: each value once, in first-occurrence order. */
  function Uniques(s: seq<string>): seq<string> {
    if s == [] then []
    else
      var p, y := s[..|s| - 1], s[|s| - 1];
      if y in p then Uniques(p) else Uniques(p) + [y]
  }

  /** `Uniques` holds exactly the values of `s`, ordered by first occurrence. */
  lemma {:induction false} UniquesFacts(s: seq<string>)
    ensures forall x :: x in Uniques(s) <==> x in s
    ensures forall i, j :: 0 <= i < j < |Uniques(s)| ==> First(Uniques(s)[i], s) < First(Uniques(s)[j], s)
  {
    if s != [] {
      var p, y := s[..|s| - 1], s[|s| - 1];
      assert s == p + [y];
      UniquesFacts(p);
      FirstOfPrefix(p, y);
      if y !in p {
        assert First(y, s) == |p| by { FirstUnique(y, s, First(y, s), |p|); }
      }
    }
  }

  /** Two first-occurrence indices of the same value agree. */
  lemma FirstUnique(x: string, s: seq<string>, i: nat, j: nat)
    requires i < |s| && s[i] == x && x !in s[..i]
    requires j < |s| && s[j] == x && x !in s[..j]
    ensures i == j
  {
    assert forall k :: 0 <= k < j ==> s[..j][k] == s[k];
    assert forall k :: 0 <= k < i ==> s[..i][k] == s[k];
  }

  /** Appending a value does not move first occurrences in the prefix. */
  lemma FirstOfPrefix(p: seq<string>, y: string)
    ensures forall x :: x in p ==> First(x, p + [y]) == First(x, p)
  {
    forall x | x in p ensures First(x, p + [y]) == First(x, p) {
      var s := p + [y];
      var i := First(x, p);
      assert s[..i] == p[..i];
      FirstUnique(x, s, i, First(x, s));
    }
  }

  /**
   * Stable insertion of `x` into a ranked list: it goes after every value
   * that occurs at least as often.
   */
  function Insert(x: string, r: seq<string>, s: seq<string>): (q: seq<string>)
    ensures forall z :: z in q <==> z == x || z in r
  {
    if r == [] then [x]
    else if multiset(s)[r[0]] < multiset(s)[x] then [x] + r
    else [r[0]] + Insert(x, r[1..], s)
  }

  lemma RankedTail(r: seq<string>, s: seq<string>)
    requires Ranked(r, s) && r != []
    ensures Ranked(r[1..], s)
  {
    var t := r[1..];
    forall i, j | 0 <= i < j < |t| ensures Before(t[i], t[j], s) {
      assert t[i] == r[i + 1] && t[j] == r[j + 1];
    }
  }

  lemma RankedCons(x: string, r: seq<string>, s: seq<string>)
    requires x in s && Ranked(r, s)
    requires forall y :: y in r ==> Before(x, y, s)
    ensures Ranked([x] + r, s)
  {
    var q := [x] + r;
    forall i, j | 0 <= i < j < |q| ensures Before(q[i], q[j], s) {
      assert q[j] == r[j - 1];
      if i > 0 {
        assert q[i] == r[i - 1];
      }
    }
  }

  lemma {:induction false} InsertRanked(x: string, r: seq<string>, s: seq<string>)
    requires x in s && Ranked(r, s)
    requires forall y :: y in r ==> First(y, s) < First(x, s)
    ensures Ranked(Insert(x, r, s), s)
  {
    if r == [] {
    } else if multiset(s)[r[0]] < multiset(s)[x] {
      forall y | y in r ensures Before(x, y, s) {
        var k :| 0 <= k < |r| && r[k] == y;
        if k > 0 {
          assert Before(r[0], r[k], s);
        }
      }
      RankedCons(x, r, s);
    } else {
      RankedTail(r, s);
      InsertRanked(x, r[1..], s);
      var t := Insert(x, r[1..], s);
      forall y | y in t ensures Before(r[0], y, s) {
        if y != x {
          var k :| 0 <= k < |r[1..]| && r[1..][k] == y;
          assert r[k + 1] == y;
        }
      }
      RankedCons(r[0], t, s);
    }
  }

  /** Insertion sort of the first-occurrence-ordered keys by count. */
  function SortByCount(u: seq<string>, s: seq<string>): (r: seq<string>)
    ensures forall z :: z in r <==> z in u
  {
    if u == [] then []
    else Insert(u[|u| - 1], SortByCount(u[..|u| - 1], s), s)
  }

  lemma {:induction false} SortByCountRanked(u: seq<string>, s: seq<string>)
    requires forall x :: x in u ==> x in s
    requires forall i, j :: 0 <= i < j < |u| ==> First(u[i], s) < First(u[j], s)
    ensures Ranked(SortByCount(u, s), s)
  {
    if u != [] {
      var p, x := u[..|u| - 1], u[|u| - 1];
      assert u == p + [x];
      SortByCountRanked(p, s);
      forall y | y in SortByCount(p, s) ensures First(y, s) < First(x, s) {
        var k :| 0 <= k < |p| && p[k] == y;
        assert u[k] == y;
      }
      InsertRanked(x, SortByCount(p, s), s);
    }
  }

  lemma RankedNoDuplicates(r: seq<string>, s: seq<string>)
    requires Ranked(r, s)
    ensures NoDuplicates(r)
  {
  }

  /** `[val for val, _ in Counter(s).most_common()]`. */
  function MostCommon(s: seq<string>): seq<string> {
    SortByCount(Uniques(s), s)
  }

  /**
   * `most_common()` lists every value of `s` once, by decreasing count, ties
   * in first-occurrence order.
   */
  lemma MostCommonRanks(s: seq<string>)
    ensures forall x :: x in MostCommon(s) <==> x in s
    ensures NoDuplicates(MostCommon(s))
    ensures forall i, j :: 0 <= i < j < |MostCommon(s)| ==> multiset(s)[MostCommon(s)[i]] >= multiset(s)[MostCommon(s)[j]]
    ensures Ranked(MostCommon(s), s)
  {
    UniquesFacts(s);
    SortByCountRanked(Uniques(s), s);
    RankedNoDuplicates(MostCommon(s), s);
  }

  /**
   * The ranking determines the list: two ranked lists of the same values are
   * equal, so `MostCommon` is the only order `most_common()` can produce.
   */
  lemma {:induction false} RankedUnique(a: seq<string>, b: seq<string>, s: seq<string>)
    requires Ranked(a, s) && Ranked(b, s)
    requires forall x :: x in a <==> x in b
    ensures a == b
  {
    RankedNoDuplicates(a, s);
    RankedNoDuplicates(b, s);
    assert |a| > 0 ==> a[0] in a && a[0] in b;
    assert |b| > 0 ==> b[0] in b && b[0] in a;
    if a != [] {
      forall k | 0 < k < |a| ensures Before(a[0], a[k], s) {}
      forall k | 0 < k < |b| ensures Before(b[0], b[k], s) {}
      assert a[0] == b[0];
      var a', b' := a[1..], b[1..];
      assert Ranked(a', s) by {
        forall i, j | 0 <= i < j < |a'| ensures Before(a'[i], a'[j], s) {
          assert a'[i] == a[i + 1] && a'[j] == a[j + 1];
        }
      }
      assert Ranked(b', s) by {
        forall i, j | 0 <= i < j < |b'| ensures Before(b'[i], b'[j], s) {
          assert b'[i] == b[i + 1] && b'[j] == b[j + 1];
        }
      }
      forall x ensures x in a' <==> x in b' {
        if x in a' {
          var k :| 0 <= k < |a'| && a'[k] == x;
          assert a[k + 1] == x && a[0] != x;
          assert x in b;
          var m :| 0 <= m < |b| && b[m] == x;
          assert m != 0;
          assert b'[m - 1] == x;
        }
        if x in b' {
          var k :| 0 <= k < |b'| && b'[k] == x;
          assert b[k + 1] == x && b[0] != x;
          assert x in a;
          var m :| 0 <= m < |a| && a[m] == x;
          assert m != 0;
          assert a'[m - 1] == x;
        }
      }
      RankedUnique(a', b', s);
      assert a == [a[0]] + a' && b == [b[0]] + b';
    }
  }

  /** Doses ["5mg", "5mg", "10mg"] are suggested as ["5mg", "10mg"]. */
  lemma DoseExample()
    ensures MostCommon(["5mg", "5mg", "10mg"]) == ["5mg", "10mg"]
  {
    var s := ["5mg", "5mg", "10mg"];
    MostCommonRanks(s);
    assert multiset(s)["5mg"] == 2 && multiset(s)["10mg"] == 1;
    assert Ranked(["5mg", "10mg"], s) by {
      assert ["5mg", "10mg"][0] == "5mg" && ["5mg", "10mg"][1] == "10mg";
    }
    RankedUnique(MostCommon(s), ["5mg", "10mg"], s);
  }

  /** The names of the rows, the keys `setdefault` creates. */
  function Names(rows: seq<MedLine>): set<string> {
    set r | r in rows :: r.name
  }

  /** The values of field `f` in the rows named `name`, in row order. */
  function Observed(rows: seq<MedLine>, name: string, f: Field): seq<string> {
    if rows == [] then []
    else
      var last := rows[|rows| - 1];
      Observed(rows[..|rows| - 1], name, f) + (if last.name == name then [ValueOf(last, f)] else [])
  }

  /** A per-name field list, empty before `setdefault` creates it. */
  function ListOf(lists: map<Field, seq<string>>, f: Field): seq<string> {
    if f in lists then lists[f] else []
  }

  lemma ObservedAbsent(rows: seq<MedLine>, name: string, f: Field)
    requires name !in Names(rows)
    ensures Observed(rows, name, f) == []
  {
    if rows != [] {
      assert rows[..|rows| - 1] == rows[..|rows| - 1];
      assert Names(rows[..|rows| - 1]) <= Names(rows) by {
        forall n | n in Names(rows[..|rows| - 1]) ensures n in Names(rows) {
          var r :| r in rows[..|rows| - 1] && r.name == n;
          assert r in rows;
        }
      }
      assert rows[|rows| - 1] in rows;
      ObservedAbsent(rows[..|rows| - 1], name, f);
    }
  }

  lemma ObservedStep(rows: seq<MedLine>, i: nat, name: string, f: Field)
    requires i < |rows|
    ensures Observed(rows[..i + 1], name, f)
         == Observed(rows[..i], name, f) + (if rows[i].name == name then [ValueOf(rows[i], f)] else [])
  {
    assert rows[..i + 1][..i] == rows[..i];
  }

  lemma NamesStep(rows: seq<MedLine>, i: nat)
    requires i < |rows|
    ensures Names(rows[..i + 1]) == Names(rows[..i]) + {rows[i].name}
  {
    assert rows[..i + 1] == rows[..i] + [rows[i]];
  }

  lemma EveryField(f: Field)
    ensures f in Fields
  {
  }

  /** One row's `for type in types: ...setdefault(type, []).append(row[type])`. */
  method AppendFields(lists: map<Field, seq<string>>, row: MedLine) returns (out: map<Field, seq<string>>)
    ensures forall f :: f in out && out[f] == ListOf(lists, f) + [ValueOf(row, f)]
  {
    out := lists;
    for j := 0 to |Fields|
      invariant forall f :: f in Fields[..j] ==> f in out && out[f] == ListOf(lists, f) + [ValueOf(row, f)]
      invariant forall f :: f !in Fields[..j] ==> ListOf(out, f) == ListOf(lists, f)
    {
      var t := Fields[j];
      out := out[t := ListOf(out, t) + [ValueOf(row, t)]];
      assert Fields[..j + 1] == Fields[..j] + [t];
    }
    forall f ensures f in Fields[..|Fields|] {
      EveryField(f);
      assert Fields[..|Fields|] == Fields;
    }
  }

  /** One name's `for type in types: med_dict[type] = most_common keys`. */
  method RankFields(lists: map<Field, seq<string>>) returns (out: map<Field, seq<string>>)
    requires forall f :: f in lists
    ensures forall f :: f in out && out[f] == MostCommon(lists[f])
  {
    out := lists;
    for j := 0 to |Fields|
      invariant forall f :: f in out
      invariant forall k :: 0 <= k < j ==> out[Fields[k]] == MostCommon(lists[Fields[k]])
      invariant forall k :: j <= k < |Fields| ==> out[Fields[k]] == lists[Fields[k]]
    {
      var t := Fields[j];
      out := out[t := MostCommon(out[t])];
    }
    forall f ensures out[f] == MostCommon(lists[f]) {
      EveryField(f);
    }
  }

  /** The first loop: every row's fields appended under its name. */
  method CollectRows(rows: seq<MedLine>) returns (raw: map<string, map<Field, seq<string>>>)
    ensures raw.Keys == Names(rows)
    ensures forall n, f :: n in raw ==> f in raw[n] && raw[n][f] == Observed(rows, n, f)
  {
    raw := map[];
    for i := 0 to |rows|
      invariant raw.Keys == Names(rows[..i])
      invariant forall n, f :: n in raw ==> f in raw[n] && raw[n][f] == Observed(rows[..i], n, f)
    {
      var row := rows[i];
      var lists := if row.name in raw then raw[row.name] else map[];
      var grown := AppendFields(lists, row);
      forall f ensures grown[f] == Observed(rows[..i + 1], row.name, f) {
        ObservedStep(rows, i, row.name, f);
        if row.name !in raw {
          ObservedAbsent(rows[..i], row.name, f);
        }
      }
      forall n, f | n in raw && n != row.name
        ensures raw[n][f] == Observed(rows[..i + 1], n, f)
      {
        ObservedStep(rows, i, n, f);
      }
      NamesStep(rows, i);
      raw := raw[row.name := grown];
    }
    assert rows[..|rows|] == rows;
  }

  /** The second loop: every collected list replaced by its ranking. */
  method RankAll(raw: map<string, map<Field, seq<string>>>) returns (index: map<string, map<Field, seq<string>>>)
    requires forall n, f :: n in raw ==> f in raw[n]
    ensures index.Keys == raw.Keys
    ensures forall n, f :: n in index ==> f in index[n] && index[n][f] == MostCommon(raw[n][f])
  {
    index := raw;
    var todo := raw.Keys;
    while todo != {}
      invariant todo <= raw.Keys && index.Keys == raw.Keys
      invariant forall n :: n in todo ==> index[n] == raw[n]
      invariant forall n, f :: n in raw && n !in todo ==> f in index[n] && index[n][f] == MostCommon(raw[n][f])
      decreases todo
    {
      var n :| n in todo;
      var ranked := RankFields(index[n]);
      index := index[n := ranked];
      todo := todo - {n};
    }
  }

  /**
   * The `med_data` construction: group the rows by name and collect every
   * field's values, then replace each list by its `most_common()` ranking.
   * The result has exactly the rows' names as keys and, for every name and
   * field, the ranked list of the values that field took in the rows of
   * that name.
   */
  method BuildMedIndex(rows: seq<MedLine>) returns (index: map<string, map<Field, seq<string>>>)
    ensures index.Keys == Names(rows)
    ensures forall n, f :: n in index ==> f in index[n] && index[n][f] == MostCommon(Observed(rows, n, f))
  {
    var raw := CollectRows(rows);
    index := RankAll(raw);
  }
}
