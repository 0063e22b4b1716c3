/**
 * The `patients` table and the queries of PatientDao.kt. The table is the sequence of its
 * rows in storage order; the SELECT queries are functions of it, and the class PatientDao
 * holds the table and performs @Insert, @Update and @Delete in place.
 */
module Dao {
  import opened Wrappers
  import opened Text
  import opened Dates
  import opened Patients
  import opened Collation
  import opened Like
  import opened Database

  /** The primary key: no two rows share an id. */
  predicate UniqueIds(rows: seq<Patient>)
  {
    forall i, j :: 0 <= i < j < |rows| ==> rows[i].id != rows[j].id
  }

  predicate HasId(rows: seq<Patient>, id: int)
  {
    exists i :: 0 <= i < |rows| && rows[i].id == id
  }

  // ---- SELECT queries ----

  /** `SELECT * FROM patients ORDER BY nom, prenom`: every row, once, in name order. */
  function GetAllPatients(rows: seq<Patient>): (r: seq<Patient>)
    ensures SortedByName(r)
    ensures multiset(r) == multiset(rows)
  {
    SortByName(rows)
  }

  /** `sexe = :sexe` compares the stored names written by the converter. */
  predicate StoredSexeEquals(a: Sexe, b: Sexe)
  {
    SexeToString(a) == SexeToString(b)
  }

  lemma StoredSexeEqualsIff(a: Sexe, b: Sexe)
    ensures StoredSexeEquals(a, b) <==> a == b
  {
  }

  /** `dateNaissance = :dateNaissance` compares the stored ISO texts. */
  function StoredDateEquals(a: LocalDate, b: LocalDate): (r: bool)
    ensures r <==> a == b
  {
    if ToIsoString(a) == ToIsoString(b) then
      ToIsoStringInjective(a, b);
      true
    else false
  }

  /** The WHERE clause of `searchPatients`. */
  predicate SearchMatches(row: Patient, nom: string, prenom: string, sexe: Option<Sexe>, date: Option<LocalDate>)
  {
    && (nom == "" || LikeMatch(row.nom, ContainsPattern(nom)))
    && (prenom == "" || LikeMatch(row.prenom, ContainsPattern(prenom)))
    && (sexe.None? || StoredSexeEquals(row.sexe, sexe.value))
    && (date.None? || StoredDateEquals(row.dateNaissance, date.value))
  }

  function SelectSearch(rows: seq<Patient>, nom: string, prenom: string, sexe: Option<Sexe>, date: Option<LocalDate>): (r: seq<Patient>)
    ensures forall x :: x in r ==> SearchMatches(x, nom, prenom, sexe, date)
    ensures forall x :: SearchMatches(x, nom, prenom, sexe, date) ==> multiset(r)[x] == multiset(rows)[x]
    ensures forall x :: !SearchMatches(x, nom, prenom, sexe, date) ==> multiset(r)[x] == 0
  {
    if rows == [] then []
    else
      assert rows == [rows[0]] + rows[1..];
      (if SearchMatches(rows[0], nom, prenom, sexe, date) then [rows[0]] else [])
      + SelectSearch(rows[1..], nom, prenom, sexe, date)
  }

  /**
   * `searchPatients`: exactly the rows that satisfy the WHERE clause, each as often as
   * stored, in name order.
   */
  function SearchPatients(rows: seq<Patient>, nom: string, prenom: string, sexe: Option<Sexe>, date: Option<LocalDate>): (r: seq<Patient>)
    ensures SortedByName(r)
    ensures forall x :: x in r ==> SearchMatches(x, nom, prenom, sexe, date)
    ensures forall x :: SearchMatches(x, nom, prenom, sexe, date) ==> multiset(r)[x] == multiset(rows)[x]
    ensures forall x :: x in r ==> x in rows
  {
    var selected := SelectSearch(rows, nom, prenom, sexe, date);
    var r := SortByName(selected);
    assert forall x :: x in r ==> x in multiset(selected);
    r
  }

  /**
   * The search parameters: an empty name is no constraint, a name without LIKE wildcards
   * asks for containment ignoring ASCII case, an absent sexe or date is no constraint and
   * a present one asks for equality.
   */
  lemma SearchMatchesMeaning(row: Patient, nom: string, prenom: string, sexe: Option<Sexe>, date: Option<LocalDate>)
    requires NoWildcards(nom) && NoWildcards(prenom)
    ensures SearchMatches(row, nom, prenom, sexe, date) <==>
      && (nom == "" || Contains(Lower(row.nom), Lower(nom)))
      && (prenom == "" || Contains(Lower(row.prenom), Lower(prenom)))
      && (sexe.None? || row.sexe == sexe.value)
      && (date.None? || row.dateNaissance == date.value)
  {
    LikeContains(row.nom, nom);
    LikeContains(row.prenom, prenom);
  }

  /** Searching with every parameter at its default lists the same rows as getAllPatients. */
  lemma SearchWithoutCriteriaListsAll(rows: seq<Patient>)
    ensures SearchPatients(rows, "", "", None, None) == GetAllPatients(rows)
  {
    var selected := SelectSearch(rows, "", "", None, None);
    assert multiset(selected) == multiset(rows);
    SelectSearchKeepsAll(rows);
  }

  lemma {:induction false} SelectSearchKeepsAll(rows: seq<Patient>)
    ensures SelectSearch(rows, "", "", None, None) == rows
  {
    if rows != [] {
      SelectSearchKeepsAll(rows[1..]);
    }
  }

  /** `SELECT * FROM patients WHERE id = :id`. */
  function GetPatientById(rows: seq<Patient>, id: int): (r: Option<Patient>)
    ensures r.Some? <==> HasId(rows, id)
    ensures r.Some? ==> r.value in rows && r.value.id == id
  {
    if rows == [] then None
    else if rows[0].id == id then Some(rows[0])
    else
      var r := GetPatientById(rows[1..], id);
      assert HasId(rows, id) ==> HasId(rows[1..], id) by {
        if HasId(rows, id) {
          var i :| 0 <= i < |rows| && rows[i].id == id;
          assert rows[1..][i - 1] == rows[i];
        }
      }
      assert HasId(rows[1..], id) ==> HasId(rows, id) by {
        if HasId(rows[1..], id) {
          var i :| 0 <= i < |rows[1..]| && rows[1..][i].id == id;
          assert rows[i + 1] == rows[1..][i];
        }
      }
      r
  }

  /** With unique ids, the lookup returns the one row that has the id. */
  lemma GetPatientByIdFinds(rows: seq<Patient>, i: int)
    requires UniqueIds(rows) && 0 <= i < |rows|
    ensures GetPatientById(rows, rows[i].id) == Some(rows[i])
  {
    var r := GetPatientById(rows, rows[i].id).value;
    var j :| 0 <= j < |rows| && rows[j] == r;
    assert i == j;
  }

  /** The duplicate rule: same trimmed, lower-cased nom and prenom and the same birth date. */
  predicate SameIdentity(row: Patient, nom: string, prenom: string, date: LocalDate)
  {
    && SqlTrim(Lower(row.nom)) == SqlTrim(Lower(nom))
    && SqlTrim(Lower(row.prenom)) == SqlTrim(Lower(prenom))
    && StoredDateEquals(row.dateNaissance, date)
  }

  /** `patientExists`: SELECT EXISTS over the duplicate rule. */
  function PatientExists(rows: seq<Patient>, nom: string, prenom: string, date: LocalDate): (b: bool)
    ensures b <==> exists i :: 0 <= i < |rows| && SameIdentity(rows[i], nom, prenom, date)
  {
    if rows == [] then false
    else
      var rest := PatientExists(rows[1..], nom, prenom, date);
      assert rest <==> exists i :: 1 <= i < |rows| && SameIdentity(rows[i], nom, prenom, date) by {
        if rest {
          var i :| 0 <= i < |rows[1..]| && SameIdentity(rows[1..][i], nom, prenom, date);
          assert rows[i + 1] == rows[1..][i];
        }
        if exists i :: 1 <= i < |rows| && SameIdentity(rows[i], nom, prenom, date) {
          var i :| 1 <= i < |rows| && SameIdentity(rows[i], nom, prenom, date);
          assert rows[1..][i - 1] == rows[i];
        }
      }
      SameIdentity(rows[0], nom, prenom, date) || rest
  }

  /** No two rows are duplicates of each other under the duplicate rule. */
  predicate NoDuplicates(rows: seq<Patient>)
  {
    forall i, j :: 0 <= i < |rows| && 0 <= j < |rows| && i != j ==>
      !SameIdentity(rows[i], rows[j].nom, rows[j].prenom, rows[j].dateNaissance)
  }

  // ---- Writes, as table transforms ----

  /** @Insert: the row is added with the id it is given. */
  function InsertRow(rows: seq<Patient>, p: Patient, id: int): seq<Patient>
  {
    rows + [p.(id := id)]
  }

  /** @Update: `UPDATE patients SET ... WHERE id = p.id`. */
  function UpdateRow(rows: seq<Patient>, p: Patient): seq<Patient>
  {
    seq(|rows|, i requires 0 <= i < |rows| => if rows[i].id == p.id then p else rows[i])
  }

  /** @Delete: `DELETE FROM patients WHERE id = id`. */
  function DeleteRow(rows: seq<Patient>, id: int): (r: seq<Patient>)
    ensures forall x :: x in r <==> x in rows && x.id != id
    ensures |r| <= |rows|
  {
    if rows == [] then []
    else
      assert rows == [rows[0]] + rows[1..];
      (if rows[0].id == id then [] else [rows[0]]) + DeleteRow(rows[1..], id)
  }

  lemma UniqueIdsLookup(rows: seq<Patient>, x: Patient)
    requires UniqueIds(rows) && x in rows
    ensures GetPatientById(rows, x.id) == Some(x)
  {
    var i :| 0 <= i < |rows| && rows[i] == x;
    GetPatientByIdFinds(rows, i);
  }

  /**
   * Inserting under a fresh id adds exactly that row: the lookup finds it, every other id
   * finds what it found before, and the listing holds it exactly once.
   */
  lemma InsertRowEffect(rows: seq<Patient>, p: Patient, id: int)
    requires UniqueIds(rows) && !HasId(rows, id)
    ensures var after := InsertRow(rows, p, id);
      && UniqueIds(after) && |after| == |rows| + 1
      && GetPatientById(after, id) == Some(p.(id := id))
      && (forall k :: k != id ==> GetPatientById(after, k) == GetPatientById(rows, k))
      && multiset(GetAllPatients(after))[p.(id := id)] == 1
  {
    var after := InsertRow(rows, p, id);
    var q := p.(id := id);
    assert after[|rows|] == q;
    GetPatientByIdFinds(after, |rows|);
    forall k | k != id ensures GetPatientById(after, k) == GetPatientById(rows, k) {
      if HasId(rows, k) {
        var i :| 0 <= i < |rows| && rows[i].id == k;
        GetPatientByIdFinds(rows, i);
        assert after[i] == rows[i];
        GetPatientByIdFinds(after, i);
      } else {
        forall i | 0 <= i < |after| ensures after[i].id != k {
          if i < |rows| { assert after[i] == rows[i]; }
        }
      }
    }
    assert q !in rows;
    assert multiset(after) == multiset(rows) + multiset{q};
  }

  /**
   * Updating replaces the row with the same id, if there is one, and nothing else: the
   * lookup then finds the new row, or still nothing.
   */
  lemma UpdateRowEffect(rows: seq<Patient>, p: Patient)
    requires UniqueIds(rows)
    ensures var after := UpdateRow(rows, p);
      && UniqueIds(after) && |after| == |rows|
      && GetPatientById(after, p.id) == (if HasId(rows, p.id) then Some(p) else None)
      && (forall k :: k != p.id ==> GetPatientById(after, k) == GetPatientById(rows, k))
  {
    var after := UpdateRow(rows, p);
    assert forall i :: 0 <= i < |rows| ==> after[i].id == rows[i].id;
    assert UniqueIds(after);
    if HasId(rows, p.id) {
      var i :| 0 <= i < |rows| && rows[i].id == p.id;
      GetPatientByIdFinds(after, i);
    } else {
      assert !HasId(after, p.id);
    }
    forall k | k != p.id ensures GetPatientById(after, k) == GetPatientById(rows, k) {
      if HasId(rows, k) {
        var i :| 0 <= i < |rows| && rows[i].id == k;
        GetPatientByIdFinds(rows, i);
        GetPatientByIdFinds(after, i);
      } else {
        assert !HasId(after, k);
      }
    }
  }

  /** Deleting removes the row with that id, if any, and nothing else. */
  lemma DeleteRowEffect(rows: seq<Patient>, id: int)
    requires UniqueIds(rows)
    ensures var after := DeleteRow(rows, id);
      && UniqueIds(after)
      && GetPatientById(after, id) == None
      && (forall k :: k != id ==> GetPatientById(after, k) == GetPatientById(rows, k))
      && |after| == (if HasId(rows, id) then |rows| - 1 else |rows|)
  {
    DeleteRowUnique(rows, id);
    var after := DeleteRow(rows, id);
    forall k | k != id ensures GetPatientById(after, k) == GetPatientById(rows, k) {
      if HasId(rows, k) {
        var x := GetPatientById(rows, k).value;
        UniqueIdsLookup(rows, x);
        UniqueIdsLookup(after, x);
      } else {
        forall i | 0 <= i < |after| ensures after[i].id != k {
          assert after[i] in rows;
          var j :| 0 <= j < |rows| && rows[j] == after[i];
        }
      }
    }
  }

  lemma UniqueIdsCons(a: Patient, t: seq<Patient>)
    ensures UniqueIds([a] + t) <==> UniqueIds(t) && forall x :: x in t ==> x.id != a.id
  {
    var s := [a] + t;
    assert forall i :: 0 <= i < |t| ==> s[i + 1] == t[i];
    if UniqueIds(s) {
      forall x | x in t ensures x.id != a.id {
        var k :| 0 <= k < |t| && t[k] == x;
        assert s[0] == a && s[k + 1] == x;
      }
    }
  }

  lemma HasIdCons(a: Patient, t: seq<Patient>, id: int)
    ensures HasId([a] + t, id) <==> a.id == id || HasId(t, id)
  {
    var s := [a] + t;
    assert forall i :: 0 <= i < |t| ==> s[i + 1] == t[i];
    assert s[0] == a;
    if HasId(s, id) && a.id != id {
      var i :| 0 <= i < |s| && s[i].id == id;
      assert t[i - 1] == s[i];
    }
    if HasId(t, id) {
      var i :| 0 <= i < |t| && t[i].id == id;
      assert s[i + 1] == t[i];
    }
  }

  lemma {:induction false} DeleteRowUnique(rows: seq<Patient>, id: int)
    requires UniqueIds(rows)
    ensures UniqueIds(DeleteRow(rows, id))
    ensures HasId(rows, id) ==> |DeleteRow(rows, id)| == |rows| - 1
    ensures !HasId(rows, id) ==> |DeleteRow(rows, id)| == |rows|
  {
    if rows != [] {
      var tail := rows[1..];
      assert rows == [rows[0]] + tail;
      UniqueIdsCons(rows[0], tail);
      HasIdCons(rows[0], tail, id);
      DeleteRowUnique(tail, id);
      var rest := DeleteRow(tail, id);
      if rows[0].id == id {
        assert DeleteRow(rows, id) == rest;
        assert !HasId(tail, id) by {
          forall i | 0 <= i < |tail| ensures tail[i].id != id {
            assert tail[i] in tail;
          }
        }
      } else {
        assert DeleteRow(rows, id) == [rows[0]] + rest;
        UniqueIdsCons(rows[0], rest);
      }
    }
  }

  /** What the store keeps true of its table: a primary key, 0 never stored, ids at most the last issued. */
  predicate ValidTable(rows: seq<Patient>, lastId: int)
  {
    && UniqueIds(rows)
    && 0 <= lastId
    && forall i :: 0 <= i < |rows| ==> rows[i].id != UnassignedId && rows[i].id <= lastId
  }

  function Max(a: int, b: int): int
  {
    if a < b then b else a
  }

  /** Storing a row under an unused, non-zero id keeps the table valid, the counter raised to it. */
  lemma InsertKeepsValidTable(rows: seq<Patient>, lastId: int, p: Patient, id: int)
    requires ValidTable(rows, lastId) && id != UnassignedId && !HasId(rows, id)
    ensures ValidTable(InsertRow(rows, p, id), Max(lastId, id))
  {
    var after := InsertRow(rows, p, id);
    assert forall i :: 0 <= i < |rows| ==> after[i] == rows[i];
    assert after[|rows|].id == id;
  }

  /**
   * The `patients` table as Room and SQLite keep it. `lastId` is the AUTOINCREMENT counter
   * (the table's entry in sqlite_sequence): the largest id ever stored.
   */
  class PatientDao {
    var rows: seq<Patient>
    var lastId: int

    ghost predicate Valid()
      reads this
    {
      ValidTable(rows, lastId)
    }

    /** A fresh, empty table. */
    constructor ()
      ensures Valid() && rows == [] && lastId == 0
    {
      rows := [];
      lastId := 0;
    }

    /**
     * `insertPatient`. Room binds an id of 0 as NULL, so SQLite issues the next id
     * (one past the largest ever used); any other id is stored as given, and one already
     * in the table violates the primary key and aborts the insert (the exception is
     * reported as `ok == false`).
     */
    method InsertPatient(p: Patient) returns (ok: bool)
      requires Valid()
      modifies this
      ensures Valid()
      ensures p.id == UnassignedId ==>
        ok && rows == InsertRow(old(rows), p, old(lastId) + 1) && lastId == old(lastId) + 1
      ensures p.id != UnassignedId ==> ok == !HasId(old(rows), p.id)
      ensures p.id != UnassignedId && ok ==>
        rows == InsertRow(old(rows), p, p.id) && lastId == Max(old(lastId), p.id)
      ensures !ok ==> rows == old(rows) && lastId == old(lastId)
    {
      if p.id == UnassignedId {
        var id := lastId + 1;
        InsertKeepsValidTable(rows, lastId, p, id);
        rows := InsertRow(rows, p, id);
        lastId := id;
        ok := true;
      } else if GetPatientById(rows, p.id).Some? {
        ok := false;
      } else {
        InsertKeepsValidTable(rows, lastId, p, p.id);
        rows := InsertRow(rows, p, p.id);
        lastId := Max(lastId, p.id);
        ok := true;
      }
    }

    /** `updatePatient`: replaces the row with the same id; no such row, no change. */
    method UpdatePatient(p: Patient)
      requires Valid()
      modifies this
      ensures Valid()
      ensures rows == UpdateRow(old(rows), p) && lastId == old(lastId)
    {
      UpdateRowEffect(rows, p);
      var after := UpdateRow(rows, p);
      assert forall i :: 0 <= i < |rows| ==> after[i].id == rows[i].id;
      rows := after;
    }

    /** `deletePatient`: removes the row with the same id; no such row, no change. */
    method DeletePatient(p: Patient)
      requires Valid()
      modifies this
      ensures Valid()
      ensures rows == DeleteRow(old(rows), p.id) && lastId == old(lastId)
    {
      DeleteRowEffect(rows, p.id);
      var after := DeleteRow(rows, p.id);
      assert forall x :: x in after ==> x in rows;
      assert forall i :: 0 <= i < |after| ==> after[i] in rows;
      rows := after;
    }
  }
}
