/** The `order by` of the store's queries: a total order on row keys, the first
    row, and the whole sorted result. */
module Ordering {
  import opened Common

  /** Rows are compared by group, then rank, then creation time, then id. */
  datatype SortKey = SortKey(group: string, rank: int, createdAt: int, id: string)

  predicate TextBefore(a: string, b: string) {
    StringLe(a, b) && a != b
  }

  predicate KeyLe(a: SortKey, b: SortKey) {
    || TextBefore(a.group, b.group)
    || (a.group == b.group
        && (a.rank < b.rank
            || (a.rank == b.rank
                && (a.createdAt < b.createdAt
                    || (a.createdAt == b.createdAt && StringLe(a.id, b.id))))))
  }

  lemma KeyLeTotal(a: SortKey, b: SortKey)
    ensures KeyLe(a, b) || KeyLe(b, a)
    ensures KeyLe(a, b) && KeyLe(b, a) ==> a == b
  {
    StringLeTotal(a.group, b.group);
    StringLeTotal(a.id, b.id);
    if KeyLe(a, b) && KeyLe(b, a) {
      if a.group != b.group {
        StringLeAntisymmetric(a.group, b.group);
      } else {
        StringLeAntisymmetric(a.id, b.id);
      }
    }
  }

  lemma KeyLeTransitive(a: SortKey, b: SortKey, c: SortKey)
    requires KeyLe(a, b) && KeyLe(b, c)
    ensures KeyLe(a, c)
  {
    if a.group != b.group && b.group != c.group {
      StringLeTransitive(a.group, b.group, c.group);
      if a.group == c.group {
        StringLeAntisymmetric(a.group, b.group);
      }
    } else if a.group == b.group == c.group && StringLe(a.id, b.id) && StringLe(b.id, c.id) {
      StringLeTransitive(a.id, b.id, c.id);
    }
  }

  predicate IsFirst(m: SortKey, keys: set<SortKey>) {
    m in keys && forall k :: k in keys ==> KeyLe(m, k)
  }

  lemma {:induction false} FirstExists(keys: set<SortKey>)
    requires keys != {}
    ensures exists m :: IsFirst(m, keys)
  {
    var k :| k in keys;
    var rest := keys - {k};
    assert forall x :: x in keys ==> x == k || x in rest;
    if rest == {} {
      StringLeReflexive(k.id);
      assert IsFirst(k, keys);
    } else {
      FirstExists(rest);
      var m :| IsFirst(m, rest);
      KeyLeTotal(m, k);
      var first := if KeyLe(m, k) then m else k;
      StringLeReflexive(k.id);
      forall x | x in keys
        ensures KeyLe(first, x)
      {
        if x != k && first == k {
          KeyLeTransitive(k, m, x);
        }
      }
      assert IsFirst(first, keys);
    }
  }

  /** `order by ... limit 1`. */
  function First(keys: set<SortKey>): (m: SortKey)
    requires keys != {}
    ensures m in keys && forall k :: k in keys ==> KeyLe(m, k)
  {
    FirstExists(keys);
    assert forall m, n :: IsFirst(m, keys) && IsFirst(n, keys) ==> m == n by {
      forall m, n | IsFirst(m, keys) && IsFirst(n, keys)
        ensures m == n
      {
        KeyLeTotal(m, n);
      }
    }
    var m :| m in keys && IsFirst(m, keys);
    m
  }

  /** The whole query result. */
  function Sorted(keys: set<SortKey>): (rows: seq<SortKey>)
    ensures |rows| == |keys|
    ensures forall k :: k in rows <==> k in keys
  {
    if keys == {} then [] else
    var m := First(keys);
    [m] + Sorted(keys - {m})
  }

  /** Sorted lists every key once, in order. */
  lemma {:induction false} SortedIsOrdered(keys: set<SortKey>)
    ensures forall i, j :: 0 <= i < j < |Sorted(keys)| ==>
      Sorted(keys)[i] != Sorted(keys)[j] && KeyLe(Sorted(keys)[i], Sorted(keys)[j])
  {
    if keys != {} {
      var m := First(keys);
      SortedIsOrdered(keys - {m});
      var rest := Sorted(keys - {m});
      assert Sorted(keys) == [m] + rest;
      assert forall j :: 0 <= j < |rest| ==> rest[j] in keys - {m};
    }
  }

  predicate IsMax(m: nat, s: set<nat>) {
    m in s && forall n :: n in s ==> n <= m
  }

  lemma {:induction false} MaxExists(s: set<nat>)
    requires s != {}
    ensures exists m :: IsMax(m, s)
  {
    var k :| k in s;
    var rest := s - {k};
    assert forall x :: x in s ==> x == k || x in rest;
    if rest == {} {
      assert IsMax(k, s);
    } else {
      MaxExists(rest);
      var m :| IsMax(m, rest);
      assert IsMax(if m <= k then k else m, s);
    }
  }

  /** `coalesce(max(...), 0)`. */
  function MaxOrZero(s: set<nat>): (m: nat)
    ensures forall n :: n in s ==> n <= m
    ensures m in s || (s == {} && m == 0)
  {
    if s == {} then 0 else
    MaxExists(s);
    var m :| m in s && IsMax(m, s);
    m
  }
}
