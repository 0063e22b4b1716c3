/**
 * The order of `ORDER BY nom, prenom` under SQLite's default BINARY collation (code point
 * order of the text), and a sort that produces it.
 */
module Collation {
  import opened Patients

  /** Lexicographic order on code points; a proper prefix comes first. */
  predicate StrLe(a: string, b: string)
  {
    if a == [] then true
    else if b == [] then false
    else if a[0] != b[0] then a[0] < b[0]
    else StrLe(a[1..], b[1..])
  }

  lemma {:induction false} StrLeTotal(a: string, b: string)
    ensures StrLe(a, b) || StrLe(b, a)
  {
    if a != [] && b != [] && a[0] == b[0] {
      StrLeTotal(a[1..], b[1..]);
    }
  }

  lemma {:induction false} StrLeAntisymmetric(a: string, b: string)
    requires StrLe(a, b) && StrLe(b, a)
    ensures a == b
  {
    if a != [] && b != [] {
      StrLeAntisymmetric(a[1..], b[1..]);
      assert a == [a[0]] + a[1..] && b == [b[0]] + b[1..];
    }
  }

  lemma {:induction false} StrLeTransitive(a: string, b: string, c: string)
    requires StrLe(a, b) && StrLe(b, c)
    ensures StrLe(a, c)
  {
    if a != [] && b != [] && c != [] && a[0] == b[0] && b[0] == c[0] {
      StrLeTransitive(a[1..], b[1..], c[1..]);
    }
  }

  /** Rows in name order: by nom, and by prenom when the noms are equal. */
  predicate NameLe(p: Patient, q: Patient)
  {
    if p.nom != q.nom then StrLe(p.nom, q.nom) else StrLe(p.prenom, q.prenom)
  }

  lemma NameLeTotal(p: Patient, q: Patient)
    ensures NameLe(p, q) || NameLe(q, p)
  {
    StrLeTotal(p.nom, q.nom);
    StrLeTotal(p.prenom, q.prenom);
  }

  lemma NameLeTransitive(p: Patient, q: Patient, r: Patient)
    requires NameLe(p, q) && NameLe(q, r)
    ensures NameLe(p, r)
  {
    if p.nom != q.nom && q.nom != r.nom {
      StrLeTransitive(p.nom, q.nom, r.nom);
      if p.nom == r.nom {
        StrLeAntisymmetric(p.nom, q.nom);
      }
    } else if p.nom == q.nom && q.nom == r.nom {
      StrLeTransitive(p.prenom, q.prenom, r.prenom);
    }
  }

  predicate SortedByName(s: seq<Patient>)
  {
    forall i, j :: 0 <= i < j < |s| ==> NameLe(s[i], s[j])
  }

  lemma SortedCons(x: Patient, s: seq<Patient>)
    requires SortedByName(s)
    requires forall y :: y in s ==> NameLe(x, y)
    ensures SortedByName([x] + s)
  {
    var t := [x] + s;
    forall i, j | 0 <= i < j < |t| ensures NameLe(t[i], t[j]) {
      if i > 0 {
        assert t[i] == s[i - 1] && t[j] == s[j - 1];
      } else {
        assert t[j] == s[j - 1];
      }
    }
  }

  /** Inserts `x` before the first row it does not follow, keeping the order. */
  function InsertByName(x: Patient, s: seq<Patient>): (r: seq<Patient>)
    requires SortedByName(s)
    ensures SortedByName(r) && multiset(r) == multiset(s) + multiset{x}
  {
    if s == [] then [x]
    else if NameLe(x, s[0]) then
      InsertBeforeHead(x, s);
      [x] + s
    else
      var t := InsertByName(x, s[1..]);
      InsertAfterHead(x, s, t);
      [s[0]] + t
  }

  lemma InsertBeforeHead(x: Patient, s: seq<Patient>)
    requires SortedByName(s) && s != [] && NameLe(x, s[0])
    ensures SortedByName([x] + s)
  {
    forall y | y in s ensures NameLe(x, y) {
      var j :| 0 <= j < |s| && s[j] == y;
      if j > 0 {
        NameLeTransitive(x, s[0], y);
      }
    }
    SortedCons(x, s);
  }

  lemma InsertAfterHead(x: Patient, s: seq<Patient>, t: seq<Patient>)
    requires SortedByName(s) && s != [] && !NameLe(x, s[0])
    requires SortedByName(t) && multiset(t) == multiset(s[1..]) + multiset{x}
    ensures SortedByName([s[0]] + t)
    ensures multiset([s[0]] + t) == multiset(s) + multiset{x}
  {
    NameLeTotal(x, s[0]);
    forall y | y in t ensures NameLe(s[0], y) {
      assert y in multiset(t);
      if y != x {
        assert y in multiset(s[1..]);
        assert y in s[1..];
      }
    }
    SortedCons(s[0], t);
    assert s == [s[0]] + s[1..];
  }

  /** An insertion sort: stable, so rows with equal names keep their table order. */
  function SortByName(s: seq<Patient>): (r: seq<Patient>)
    ensures SortedByName(r) && multiset(r) == multiset(s)
  {
    if s == [] then []
    else
      assert s == [s[0]] + s[1..];
      InsertByName(s[0], SortByName(s[1..]))
  }

  /**
   * `r` keeps some of the entries of `s` in their order. Checked greedily: the first entry
   * of `r` is matched with its first occurrence in `s`.
   */
  predicate IsSubsequence(r: seq<Patient>, s: seq<Patient>)
    decreases |s|
  {
    if r == [] then true
    else if s == [] then false
    else if r[0] == s[0] then IsSubsequence(r[1..], s[1..])
    else IsSubsequence(r, s[1..])
  }

  lemma {:induction false} SubsequenceReflexive(s: seq<Patient>)
    ensures IsSubsequence(s, s)
  {
    if s != [] {
      SubsequenceReflexive(s[1..]);
    }
  }

  lemma {:induction false} SubsequenceElements(r: seq<Patient>, s: seq<Patient>)
    requires IsSubsequence(r, s)
    ensures forall x :: x in r ==> x in s
    decreases |s|
  {
    if r != [] && s != [] {
      if r[0] == s[0] {
        SubsequenceElements(r[1..], s[1..]);
        forall x | x in r ensures x in s {
          if x != r[0] { assert x in r[1..]; }
        }
      } else {
        SubsequenceElements(r, s[1..]);
      }
    }
  }

  /** Keeping some rows of a listing in name order leaves them in name order. */
  lemma {:induction false} SubsequenceOfSorted(r: seq<Patient>, s: seq<Patient>)
    requires IsSubsequence(r, s) && SortedByName(s)
    ensures SortedByName(r)
    decreases |s|
  {
    if r != [] && s != [] {
      assert SortedByName(s[1..]) by {
        forall i, j | 0 <= i < j < |s| - 1 ensures NameLe(s[1..][i], s[1..][j]) {
          assert s[1..][i] == s[i + 1] && s[1..][j] == s[j + 1];
        }
      }
      if r[0] == s[0] {
        SubsequenceOfSorted(r[1..], s[1..]);
        SubsequenceElements(r[1..], s[1..]);
        forall y | y in r[1..] ensures NameLe(r[0], y) {
          var j :| 0 <= j < |s[1..]| && s[1..][j] == y;
          assert s[j + 1] == y;
        }
        SortedCons(r[0], r[1..]);
        assert r == [r[0]] + r[1..];
      } else {
        SubsequenceOfSorted(r, s[1..]);
      }
    }
  }
}
