/**
Byte strings in lexicographic order, and the sorted list of a map's keys that the state root and
the proof generators walk. Hash maps are visited in any order; the sorted list is the same.
*/
module Sorting {
  import opened Common

  /** Lexicographic order, the order of `Vec<u8>`. */
  predicate LexLeq(a: Bytes, b: Bytes)
  {
    a == [] || (b != [] && (a[0] < b[0] || (a[0] == b[0] && LexLeq(a[1..], b[1..]))))
  }

  lemma {:induction false} LexAntisymmetric(a: Bytes, b: Bytes)
    requires LexLeq(a, b) && LexLeq(b, a)
    ensures a == b
  {
    if a != [] {
      LexAntisymmetric(a[1..], b[1..]);
      assert a == [a[0]] + a[1..] && b == [b[0]] + b[1..];
    }
  }

  lemma {:induction false} LexTotal(a: Bytes, b: Bytes)
    ensures LexLeq(a, b) || LexLeq(b, a)
  {
    if a != [] && b != [] && a[0] == b[0] { LexTotal(a[1..], b[1..]); }
  }

  lemma {:induction false} LexTransitive(a: Bytes, b: Bytes, c: Bytes)
    requires LexLeq(a, b) && LexLeq(b, c)
    ensures LexLeq(a, c)
  {
    if a != [] && a[0] == b[0] == c[0] { LexTransitive(a[1..], b[1..], c[1..]); }
  }

  /** Strictly increasing. */
  ghost predicate Increasing(ks: seq<Bytes>)
  {
    forall i, j :: 0 <= i < j < |ks| ==> ks[i] != ks[j] && LexLeq(ks[i], ks[j])
  }

  ghost predicate Enumerates(ks: seq<Bytes>, s: set<Bytes>)
  {
    Increasing(ks) && forall k :: k in ks <==> k in s
  }

  /** A set has only one increasing enumeration. */
  lemma {:induction false} EnumerationUnique(a: seq<Bytes>, b: seq<Bytes>, s: set<Bytes>)
    requires Enumerates(a, s) && Enumerates(b, s)
    ensures a == b
    decreases |a|
  {
    if a == [] {
      EnumerationSize(a, s);
      EnumerationSize(b, s);
    } else {
      assert a[0] in s && b != [];
      FirstIsLeast(a, b, s);
      DropFirst(a, s);
      DropFirst(b, s);
      EnumerationUnique(a[1..], b[1..], s - {a[0]});
    }
  }

  lemma FirstIsLeast(a: seq<Bytes>, b: seq<Bytes>, s: set<Bytes>)
    requires Enumerates(a, s) && Enumerates(b, s) && a != [] && b != []
    ensures a[0] == b[0]
  {
    assert a[0] in b && b[0] in a;
    var i :| 0 <= i < |b| && b[i] == a[0];
    var j :| 0 <= j < |a| && a[j] == b[0];
    if i > 0 && j > 0 { LexAntisymmetric(a[0], b[0]); }
  }

  lemma DropFirst(a: seq<Bytes>, s: set<Bytes>)
    requires Enumerates(a, s) && a != []
    ensures Enumerates(a[1..], s - {a[0]})
  {
    forall k
      ensures k in a[1..] <==> k in s - {a[0]}
    {
      if k in a[1..] { var i :| 0 <= i < |a| - 1 && a[1..][i] == k; assert a[i + 1] == k; }
      if k in s && k != a[0] { var i :| 0 <= i < |a| && a[i] == k; assert a[1..][i - 1] == k; }
    }
  }

  /** The keys of a set in increasing order. */
  ghost function SortedKeys(s: set<Bytes>): (ks: seq<Bytes>)
    ensures Enumerates(ks, s)
  {
    SortedKeysExist(s);
    var ks :| Enumerates(ks, s);
    ks
  }

  lemma {:induction false} SortedKeysExist(s: set<Bytes>)
    ensures exists ks :: Enumerates(ks, s)
  {
    if s == {} {
      assert Enumerates([], s);
    } else {
      var k :| k in s;
      SortedKeysExist(s - {k});
      var ks :| Enumerates(ks, s - {k});
      InsertEnumerates(ks, s - {k}, k);
      assert s - {k} + {k} == s;
      assert Enumerates(Insert(ks, k), s);
    }
  }

  /** Inserts a key before the first larger one. */
  function Insert(ks: seq<Bytes>, k: Bytes): seq<Bytes>
  {
    if ks == [] then [k]
    else if LexLeq(k, ks[0]) then [k] + ks
    else [ks[0]] + Insert(ks[1..], k)
  }

  lemma {:induction false} InsertMembers(ks: seq<Bytes>, k: Bytes, x: Bytes)
    ensures x in Insert(ks, k) <==> x == k || x in ks
  {
    if ks != [] && !LexLeq(k, ks[0]) {
      InsertMembers(ks[1..], k, x);
      assert x in ks <==> x == ks[0] || x in ks[1..];
    }
  }

  lemma {:induction false} InsertIncreasing(ks: seq<Bytes>, k: Bytes)
    requires Increasing(ks) && k !in ks
    ensures Increasing(Insert(ks, k))
  {
    if ks == [] {
    } else if LexLeq(k, ks[0]) {
      forall j | 0 <= j < |ks|
        ensures k != ks[j] && LexLeq(k, ks[j])
      { if j > 0 { LexTransitive(k, ks[0], ks[j]); } }
    } else {
      LexTotal(k, ks[0]);
      InsertIncreasing(ks[1..], k);
      var rest := Insert(ks[1..], k);
      forall j | 0 <= j < |rest|
        ensures ks[0] != rest[j] && LexLeq(ks[0], rest[j])
      {
        InsertMembers(ks[1..], k, rest[j]);
        if rest[j] != k { var i :| 0 <= i < |ks| - 1 && ks[1..][i] == rest[j]; assert ks[i + 1] == rest[j]; }
      }
    }
  }

  lemma InsertEnumerates(ks: seq<Bytes>, s: set<Bytes>, k: Bytes)
    requires Enumerates(ks, s) && k !in s
    ensures Enumerates(Insert(ks, k), s + {k})
  {
    InsertIncreasing(ks, k);
    forall x
      ensures x in Insert(ks, k) <==> x in s + {k}
    { InsertMembers(ks, k, x); }
  }

  /** Collects the keys of a map in any order and sorts them: the result is the one increasing enumeration. */
  method SortKeys(s: set<Bytes>) returns (ks: seq<Bytes>)
    ensures ks == SortedKeys(s)
  {
    ks := [];
    var pending := s;
    while pending != {}
      invariant pending <= s && Enumerates(ks, s - pending)
      decreases |pending|
    {
      var k :| k in pending;
      InsertEnumerates(ks, s - pending, k);
      assert s - pending + {k} == s - (pending - {k});
      pending := pending - {k};
      ks := Insert(ks, k);
    }
    assert s - pending == s;
    EnumerationUnique(ks, SortedKeys(s), s);
  }

  /** `position`: the first index of a key, which in an increasing list is the only one. */
  method Position(ks: seq<Bytes>, k: Bytes) returns (r: Option<nat>)
    ensures r.Some? ==> r.value < |ks| && ks[r.value] == k && forall i :: 0 <= i < r.value ==> ks[i] != k
    ensures r.None? <==> k !in ks
    ensures r.Some? && Increasing(ks) ==> forall i :: 0 <= i < |ks| && ks[i] == k ==> i == r.value
  {
    for i := 0 to |ks|
      invariant forall j :: 0 <= j < i ==> ks[j] != k
    {
      if ks[i] == k {
        return Some(i);
      }
    }
    r := None;
  }

  lemma {:induction false} EnumerationSize(ks: seq<Bytes>, s: set<Bytes>)
    requires Enumerates(ks, s)
    ensures |ks| == |s|
    decreases |ks|
  {
    if ks == [] {
      assert s == {};
    } else {
      DropFirst(ks, s);
      EnumerationSize(ks[1..], s - {ks[0]});
      assert ks[0] in s;
    }
  }
}
