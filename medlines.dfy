/**
 * What the medication loops of prescription creation and prescription edit
 * write into the medications table, as functions of the submitted lines.
 * Positions are 1-based, as `enumerate(..., start=1)` numbers them.
 */
module MedLines {
  import opened Records

  /** Position `p` holds a line with a non-empty name (`if name:`). */
  predicate Named(lines: seq<MedLine>, p: int) {
    1 <= p <= |lines| && lines[p - 1].name != ""
  }

  /** The positions the loops write: the named ones. */
  function Positions(lines: seq<MedLine>): set<int> {
    set p | 1 <= p <= |lines| && Named(lines, p)
  }

  /** The sequence numbers a table holds for one prescription. */
  function SequencesOf(m: map<MedKey, MedRow>, prid: PrescriptionId): set<int> {
    set k | k in m && k.0 == prid :: k.1
  }

  /**
   * The rows the creation loop inserts for the first `n` positions: one per
   * named position, at sequence = position, carrying the prescription id and
   * the session's user id.
   */
  function Created(prid: PrescriptionId, uid: UserId, lines: seq<MedLine>, n: nat): (r: map<MedKey, MedRow>)
    requires n <= |lines|
  {
    if n == 0 then map[]
    else
      var r := Created(prid, uid, lines, n - 1);
      if Named(lines, n) then r[(prid, n) := MedRow(lines[n - 1], uid)] else r
  }

  /**
   * Creation over the first `n` positions writes exactly the named ones, each
   * with its own line and the session's user id.
   */
  lemma {:induction false} CreatedFacts(prid: PrescriptionId, uid: UserId, lines: seq<MedLine>, n: nat)
    requires n <= |lines|
    ensures forall k {:trigger k in Created(prid, uid, lines, n)} ::
      k in Created(prid, uid, lines, n) <==> k.0 == prid && k.1 <= n && Named(lines, k.1)
    ensures forall k {:trigger k in Created(prid, uid, lines, n)} :: k in Created(prid, uid, lines, n) ==>
      Named(lines, k.1) && Created(prid, uid, lines, n)[k] == MedRow(lines[k.1 - 1], uid)
  {
    if n > 0 {
      CreatedFacts(prid, uid, lines, n - 1);
    }
  }

  /** Sequence numbers strictly increase along `ks` and stay at most `n`. */
  predicate Increasing(ks: seq<MedKey>, n: int) {
    && (forall i, j :: 0 <= i < j < |ks| ==> ks[i].1 < ks[j].1)
    && (forall i :: 0 <= i < |ks| ==> ks[i].1 <= n)
  }

  /**
   * The keys of the INSERT statements the creation loop runs over the first
   * `n` positions, in the order they run: every named position.  Their
   * sequence numbers strictly increase.
   */
  function CreatedKeys(prid: PrescriptionId, lines: seq<MedLine>, n: nat): (ks: seq<MedKey>)
    requires n <= |lines|
  {
    if n == 0 then []
    else
      var ks := CreatedKeys(prid, lines, n - 1);
      if Named(lines, n) then ks + [(prid, n)] else ks
  }

  /**
   * The creation INSERTs are exactly the named positions, with strictly
   * increasing sequence numbers.
   */
  lemma {:induction false} CreatedKeysFacts(prid: PrescriptionId, lines: seq<MedLine>, n: nat)
    requires n <= |lines|
    ensures forall k {:trigger k in CreatedKeys(prid, lines, n)} ::
      k in CreatedKeys(prid, lines, n) <==> k.0 == prid && k.1 <= n && Named(lines, k.1)
    ensures Increasing(CreatedKeys(prid, lines, n), n)
  {
    if n > 0 {
      CreatedKeysFacts(prid, lines, n - 1);
      var prev := CreatedKeys(prid, lines, n - 1);
      var ks := CreatedKeys(prid, lines, n);
      assert ks == if Named(lines, n) then prev + [(prid, n)] else prev;
      forall k ensures k in ks <==> k.0 == prid && k.1 <= n && Named(lines, k.1) {
        assert k in ks <==> k in prev || (k == (prid, n) && Named(lines, n));
      }
    }
  }

  /**
   * The keys of the INSERT statements the edit loop runs over the first `n`
   * positions, in the order they run: every named position whose key the
   * table did not already hold.  Their sequence numbers strictly increase.
   */
  function InsertedKeys(prid: PrescriptionId, lines: seq<MedLine>, table: map<MedKey, MedRow>, n: nat): (ks: seq<MedKey>)
    requires n <= |lines|
  {
    if n == 0 then []
    else
      var ks := InsertedKeys(prid, lines, table, n - 1);
      if Named(lines, n) && (prid, n) !in table then ks + [(prid, n)] else ks
  }

  /**
   * The edit INSERTs are exactly the named positions the table lacked, with
   * strictly increasing sequence numbers.
   */
  lemma {:induction false} InsertedKeysFacts(prid: PrescriptionId, lines: seq<MedLine>, table: map<MedKey, MedRow>, n: nat)
    requires n <= |lines|
    ensures forall k {:trigger k in InsertedKeys(prid, lines, table, n)} ::
      k in InsertedKeys(prid, lines, table, n) <==> k.0 == prid && k.1 <= n && Named(lines, k.1) && k !in table
    ensures Increasing(InsertedKeys(prid, lines, table, n), n)
  {
    if n > 0 {
      InsertedKeysFacts(prid, lines, table, n - 1);
      var prev := InsertedKeys(prid, lines, table, n - 1);
      forall k ensures k in InsertedKeys(prid, lines, table, n) <==> k in prev || (k == (prid, n) && Named(lines, n) && k !in table) {
      }
    }
  }

  /**
   * The medications table after the edit loop has seen the first `n`
   * positions: a named position whose sequence the prescription already had
   * (in the snapshot `m`) is updated in place and keeps its owner; any other
   * named position is inserted with the session's user id.  Nothing is deleted.
   */
  function Reconciled(m: map<MedKey, MedRow>, prid: PrescriptionId, uid: UserId, lines: seq<MedLine>, n: nat): (r: map<MedKey, MedRow>)
    requires n <= |lines|
  {
    if n == 0 then m
    else
      var r := Reconciled(m, prid, uid, lines, n - 1);
      if !Named(lines, n) then r
      else if (prid, n) in m then r[(prid, n) := MedRow(lines[n - 1], m[(prid, n)].userId)]
      else r[(prid, n) := MedRow(lines[n - 1], uid)]
  }

  /**
   * After the edit loop has seen the first `n` positions the table holds the
   * old rows plus the named positions; rows at other keys are untouched, and
   * a named position carries its submitted line with the old owner if the row
   * existed and the editing user otherwise.
   */
  lemma {:induction false} ReconciledFacts(m: map<MedKey, MedRow>, prid: PrescriptionId, uid: UserId, lines: seq<MedLine>, n: nat)
    requires n <= |lines|
    ensures forall k {:trigger k in Reconciled(m, prid, uid, lines, n)} ::
      k in Reconciled(m, prid, uid, lines, n) <==> k in m || (k.0 == prid && k.1 <= n && Named(lines, k.1))
    ensures forall k {:trigger k in m} :: k in m && !(k.0 == prid && k.1 <= n && Named(lines, k.1)) ==>
      Reconciled(m, prid, uid, lines, n)[k] == m[k]
    ensures forall k {:trigger k in Reconciled(m, prid, uid, lines, n)} ::
      k in Reconciled(m, prid, uid, lines, n) && k.0 == prid && k.1 <= n && Named(lines, k.1) ==>
      Reconciled(m, prid, uid, lines, n)[k] == MedRow(lines[k.1 - 1], if k in m then m[k].userId else uid)
  {
    if n > 0 {
      ReconciledFacts(m, prid, uid, lines, n - 1);
    }
  }

  /** Creation writes exactly the named positions of the new prescription. */
  lemma {:induction false} CreatedSequences(prid: PrescriptionId, uid: UserId, lines: seq<MedLine>)
    ensures SequencesOf(Created(prid, uid, lines, |lines|), prid) == Positions(lines)
    ensures forall k {:trigger k in Created(prid, uid, lines, |lines|)} :: k in Created(prid, uid, lines, |lines|) ==> k.0 == prid && 1 <= k.1
  {
    CreatedFacts(prid, uid, lines, |lines|);
    var r := Created(prid, uid, lines, |lines|);
    forall p | p in Positions(lines) ensures p in SequencesOf(r, prid) {
      assert (prid, p) in r;
    }
  }

  /** The INSERT statements of creation are exactly the created rows. */
  lemma {:induction false} CreatedInsertOrder(prid: PrescriptionId, uid: UserId, lines: seq<MedLine>, n: nat)
    requires n <= |lines|
    ensures forall k {:trigger k in Created(prid, uid, lines, n)} :: k in CreatedKeys(prid, lines, n) <==> k in Created(prid, uid, lines, n)
  {
    CreatedKeysFacts(prid, lines, n);
    CreatedFacts(prid, uid, lines, n);
  }

  /**
   * After an edit the prescription's sequence set is the old set plus the
   * named submitted positions.
   */
  lemma {:induction false} EditSequences(m: map<MedKey, MedRow>, prid: PrescriptionId, uid: UserId, lines: seq<MedLine>)
    ensures SequencesOf(Reconciled(m, prid, uid, lines, |lines|), prid) == SequencesOf(m, prid) + Positions(lines)
  {
    ReconciledFacts(m, prid, uid, lines, |lines|);
    var r := Reconciled(m, prid, uid, lines, |lines|);
    forall p | p in SequencesOf(m, prid) + Positions(lines) ensures p in SequencesOf(r, prid) {
      if p in Positions(lines) {
        assert (prid, p) in r;
      } else {
        var k :| k in m && k.0 == prid && k.1 == p;
        assert k in r;
      }
    }
    forall p | p in SequencesOf(r, prid) ensures p in SequencesOf(m, prid) + Positions(lines) {
      var k :| k in r && k.0 == prid && k.1 == p;
      if k !in m {
        assert Named(lines, p);
      }
    }
  }

  /**
   * Creation is the edit loop run against a prescription that has no rows
   * yet: every named position is inserted.
   */
  lemma {:induction false} CreateIsEditOfNothing(m: map<MedKey, MedRow>, prid: PrescriptionId, uid: UserId, lines: seq<MedLine>)
    requires forall k {:trigger k in m} :: k in m ==> k.0 != prid
    ensures Reconciled(m, prid, uid, lines, |lines|) == m + Created(prid, uid, lines, |lines|)
  {
    ReconciledFacts(m, prid, uid, lines, |lines|);
    CreatedFacts(prid, uid, lines, |lines|);
    var r := Reconciled(m, prid, uid, lines, |lines|);
    var c := Created(prid, uid, lines, |lines|);
    assert r.Keys == (m + c).Keys;
    forall k | k in r ensures r[k] == (m + c)[k] {
      if k in c {
        assert k !in m;
      }
    }
  }

  /**
   * Against a table holding no row of the prescription, the edit loop runs
   * its INSERT statements in the same order as the creation loop.
   */
  lemma {:induction false} CreateInsertsAsEdit(m: map<MedKey, MedRow>, prid: PrescriptionId, lines: seq<MedLine>, n: nat)
    requires n <= |lines|
    requires forall k {:trigger k in m} :: k in m ==> k.0 != prid
    ensures InsertedKeys(prid, lines, m, n) == CreatedKeys(prid, lines, n)
  {
    if n > 0 {
      CreateInsertsAsEdit(m, prid, lines, n - 1);
    }
  }

  /**
   * Edit keeps the owner column consistent: if every row of the prescription
   * belongs to `owner` and the editing user is `owner`, every row still does.
   */
  lemma {:induction false} EditKeepsOwner(m: map<MedKey, MedRow>, prid: PrescriptionId, owner: UserId, lines: seq<MedLine>)
    requires forall k {:trigger k in m} :: k in m && k.0 == prid ==> m[k].userId == owner
    ensures forall k {:trigger k in Reconciled(m, prid, owner, lines, |lines|)} ::
      k in Reconciled(m, prid, owner, lines, |lines|) && k.0 == prid ==> Reconciled(m, prid, owner, lines, |lines|)[k].userId == owner
  {
    ReconciledFacts(m, prid, owner, lines, |lines|);
  }
}
