/**
 * Client-library aggregation: the identifiers that the fields of a registry
 * declare for one category, collected into an insertion-ordered set
 * (a LinkedHashSet), together with an independent description of that
 * result and the lemmas that connect the two.
 */
module ClientLibraries {
  import opened Forms

  /**
   * The identifiers field `c` declares for category `t`; a field with no
   * entry for `t` contributes nothing.
   */
  function Lookup(c: FieldComponent, t: ClientLibraryType): seq<string>
  {
    if t in c.clientLibraryCategories then c.clientLibraryCategories[t] else []
  }

  predicate NoDuplicates(s: seq<string>)
  {
    forall i, j :: 0 <= i < j < |s| ==> s[i] != s[j]
  }

  /** LinkedHashSet.add: an identifier already present keeps its place. */
  function Insert(acc: seq<string>, x: string): seq<string>
  {
    if x in acc then acc else acc + [x]
  }

  /** LinkedHashSet.addAll: the identifiers of `v` added one by one, left to right. */
  function InsertAll(acc: seq<string>, v: seq<string>): seq<string>
  {
    if v == [] then acc else Insert(InsertAll(acc, v[..|v| - 1]), v[|v| - 1])
  }

  /**
   * The aggregated libraries of category `t`: starting from an empty set,
   * each field in registry order adds all it declares for `t`.
   */
  function Aggregate(fields: seq<Entry>, t: ClientLibraryType): seq<string>
  {
    if fields == [] then []
    else InsertAll(Aggregate(fields[..|fields| - 1], t), Lookup(fields[|fields| - 1].1, t))
  }

  /**
   * Reference view: every identifier found for `t`, repeats included, in
   * registry order and within a field in list order.
   */
  function Found(fields: seq<Entry>, t: ClientLibraryType): seq<string>
  {
    if fields == [] then []
    else Found(fields[..|fields| - 1], t) + Lookup(fields[|fields| - 1].1, t)
  }

  /** The position of the first occurrence of `x` in `s`. */
  function IndexOf(s: seq<string>, x: string): (i: nat)
    requires x in s
    ensures i < |s| && s[i] == x && x !in s[..i]
  {
    if s[0] == x then 0
    else
      var k := IndexOf(s[1..], x);
      assert s[..k + 1] == [s[0]] + s[1..][..k];
      1 + k
  }

  /** Both identifiers occur in `s`, and `x` occurs first. */
  predicate FirstBefore(s: seq<string>, x: string, y: string)
  {
    x in s && y in s && IndexOf(s, x) < IndexOf(s, y)
  }

  /** `r` lists its identifiers in the order of their first occurrence in `s`. */
  predicate FirstOccurrenceOrder(r: seq<string>, s: seq<string>)
  {
    forall i, j :: 0 <= i < j < |r| ==> FirstBefore(s, r[i], r[j])
  }

  /** The three properties that pin down the aggregation of `s`. */
  ghost predicate DistinctInFirstOccurrenceOrder(r: seq<string>, s: seq<string>)
  {
    && NoDuplicates(r)
    && (forall x :: x in r <==> x in s)
    && FirstOccurrenceOrder(r, s)
  }

  /** Extending a sequence does not move the first occurrence of what it already holds. */
  lemma IndexOfExtended(s: seq<string>, v: seq<string>, x: string)
    requires x in s
    ensures IndexOf(s + v, x) == IndexOf(s, x)
  {
    var i, j := IndexOf(s + v, x), IndexOf(s, x);
    assert forall k :: 0 <= k < j ==> s[..j][k] == s[k] == (s + v)[k];
    assert forall k :: 0 <= k < i && k < |s| ==> (s + v)[..i][k] == s[k];
  }

  /** A new identifier appended to `s` first occurs at the end. */
  lemma IndexOfAppendedNew(s: seq<string>, x: string)
    requires x !in s
    ensures IndexOf(s + [x], x) == |s|
  {
    assert forall k :: 0 <= k < |s| ==> (s + [x])[k] == s[k];
  }

  /** Adding `u` and then `v` is adding `u + v`. */
  lemma {:induction false} InsertAllAppend(acc: seq<string>, u: seq<string>, v: seq<string>)
    ensures InsertAll(InsertAll(acc, u), v) == InsertAll(acc, u + v)
  {
    if v == [] {
      assert u + v == u;
    } else {
      var w := v[..|v| - 1];
      InsertAllAppend(acc, u, w);
      assert (u + v)[..|u + v| - 1] == u + w;
    }
  }

  /** Aggregating a registry is adding, to an empty set, everything found in it. */
  lemma {:induction false} AggregateIsInsertAllFound(fields: seq<Entry>, t: ClientLibraryType)
    ensures Aggregate(fields, t) == InsertAll([], Found(fields, t))
  {
    if fields != [] {
      var init := fields[..|fields| - 1];
      AggregateIsInsertAllFound(init, t);
      InsertAllAppend([], Found(init, t), Lookup(fields[|fields| - 1].1, t));
    }
  }

  /**
   * Adding the identifiers of `s` to an empty insertion-ordered set keeps
   * each one once, exactly those of `s`, in order of first occurrence.
   */
  lemma {:induction false} InsertAllFromEmpty(s: seq<string>)
    ensures DistinctInFirstOccurrenceOrder(InsertAll([], s), s)
  {
    if s != [] {
      var init, x := s[..|s| - 1], s[|s| - 1];
      assert s == init + [x];
      InsertAllFromEmpty(init);
      var prev := InsertAll([], init);
      var r := InsertAll([], s);
      assert r == Insert(prev, x);
      forall y | y in init
        ensures IndexOf(s, y) == IndexOf(init, y)
      {
        IndexOfExtended(init, [x], y);
      }
      assert forall y :: y in r <==> y in s;
      if x in prev {
        assert r == prev;
      } else {
        assert x !in init;
        IndexOfAppendedNew(init, x);
        forall i, j | 0 <= i < j < |r|
          ensures FirstBefore(s, r[i], r[j])
        {
          if j < |prev| {
            assert r[i] == prev[i] && r[j] == prev[j];
          } else {
            assert r[i] == prev[i] && r[i] in init;
          }
        }
        assert NoDuplicates(r);
      }
    }
  }

  /** Dropping the first identifier keeps the order of the rest. */
  lemma FirstOccurrenceOrderTail(r: seq<string>, s: seq<string>)
    requires r != [] && FirstOccurrenceOrder(r, s)
    ensures FirstOccurrenceOrder(r[1..], s)
  {
    var t := r[1..];
    forall i, j | 0 <= i < j < |t|
      ensures FirstBefore(s, t[i], t[j])
    {
      assert t[i] == r[i + 1] && t[j] == r[j + 1];
    }
  }

  /** Without duplicates, the tail holds every member except the head. */
  lemma TailMembers(r: seq<string>, x: string)
    requires r != [] && NoDuplicates(r)
    ensures x in r[1..] <==> x in r && x != r[0]
  {
    if x in r[1..] {
      var k :| 0 <= k < |r[1..]| && r[1..][k] == x;
      assert r[k + 1] == x;
    }
    if x in r && x != r[0] {
      var k :| 0 <= k < |r| && r[k] == x;
      assert r[1..][k - 1] == x;
    }
  }

  /** Two non-empty sequences in first-occurrence order with the same members start alike. */
  lemma FirstOccurrenceOrderHead(r1: seq<string>, r2: seq<string>, s: seq<string>)
    requires r1 != [] && r2 != []
    requires r1[0] in r2 && r2[0] in r1
    requires FirstOccurrenceOrder(r1, s) && FirstOccurrenceOrder(r2, s)
    ensures r1[0] == r2[0]
  {
  }

  /**
   * The three properties determine the sequence: two sequences that both
   * list the same identifiers once each in first-occurrence order are equal.
   */
  lemma {:induction false} FirstOccurrenceOrderUnique(r1: seq<string>, r2: seq<string>, s: seq<string>)
    requires NoDuplicates(r1) && NoDuplicates(r2)
    requires forall x :: x in r1 <==> x in r2
    requires FirstOccurrenceOrder(r1, s) && FirstOccurrenceOrder(r2, s)
    ensures r1 == r2
    decreases |r1|
  {
    if r1 != [] || r2 != [] {
      assert r1 != [] ==> r1[0] in r2;
      assert r2 != [] ==> r2[0] in r1;
      FirstOccurrenceOrderHead(r1, r2, s);
      var t1, t2 := r1[1..], r2[1..];
      forall x
        ensures x in t1 <==> x in t2
      {
        TailMembers(r1, x);
        TailMembers(r2, x);
      }
      FirstOccurrenceOrderTail(r1, s);
      FirstOccurrenceOrderTail(r2, s);
      FirstOccurrenceOrderUnique(t1, t2, s);
      assert r1 == [r1[0]] + t1 && r2 == [r2[0]] + t2;
    }
  }

  /**
   * Both directions: a sequence is the aggregation of category `t` exactly
   * when it holds every identifier found for `t` once, and nothing else, in
   * first-occurrence order.
   */
  lemma AggregateCharacterized(fields: seq<Entry>, t: ClientLibraryType, r: seq<string>)
    ensures r == Aggregate(fields, t) <==> DistinctInFirstOccurrenceOrder(r, Found(fields, t))
  {
    var s := Found(fields, t);
    AggregateIsInsertAllFound(fields, t);
    InsertAllFromEmpty(s);
    if DistinctInFirstOccurrenceOrder(r, s) {
      FirstOccurrenceOrderUnique(r, InsertAll([], s), s);
    }
  }

  /** An identifier is found exactly when some field declares it for `t`. */
  lemma {:induction false} FoundMembers(fields: seq<Entry>, t: ClientLibraryType, x: string)
    ensures x in Found(fields, t) <==>
      exists i :: 0 <= i < |fields| && t in fields[i].1.clientLibraryCategories
                                    && x in fields[i].1.clientLibraryCategories[t]
  {
    if fields != [] {
      var init, last := fields[..|fields| - 1], fields[|fields| - 1];
      FoundMembers(init, t, x);
      if x in Found(fields, t) && x !in Found(init, t) {
        assert x in Lookup(last.1, t);
        assert fields[|fields| - 1] == last;
      }
      if exists i :: 0 <= i < |fields| && t in fields[i].1.clientLibraryCategories
                                       && x in fields[i].1.clientLibraryCategories[t] {
        var i :| 0 <= i < |fields| && t in fields[i].1.clientLibraryCategories
                                   && x in fields[i].1.clientLibraryCategories[t];
        if i < |fields| - 1 {
          assert init[i] == fields[i];
        }
      }
    }
  }

  /**
   * The aggregation of category `t` holds an identifier exactly when some
   * field declares it for `t`; fields without `t` are skipped.
   */
  lemma AggregateMembers(fields: seq<Entry>, t: ClientLibraryType, x: string)
    ensures x in Aggregate(fields, t) <==>
      exists i :: 0 <= i < |fields| && t in fields[i].1.clientLibraryCategories
                                    && x in fields[i].1.clientLibraryCategories[t]
  {
    AggregateCharacterized(fields, t, Aggregate(fields, t));
    FoundMembers(fields, t, x);
  }

  /** A field that declares nothing for `t` leaves the aggregation of `t` as it was. */
  lemma FieldWithoutCategoryIsSkipped(fields: seq<Entry>, name: string, c: FieldComponent, t: ClientLibraryType)
    requires t !in c.clientLibraryCategories
    ensures Aggregate(fields + [(name, c)], t) == Aggregate(fields, t)
  {
    assert (fields + [(name, c)])[..|fields|] == fields;
  }

  /** When no field declares anything for `t` (an empty registry among them), the result is empty. */
  lemma {:induction false} NoCategoryYieldsEmpty(fields: seq<Entry>, t: ClientLibraryType)
    requires forall i :: 0 <= i < |fields| ==> t !in fields[i].1.clientLibraryCategories
    ensures Aggregate(fields, t) == []
  {
    if fields != [] {
      var init := fields[..|fields| - 1];
      assert forall i :: 0 <= i < |init| ==> init[i] == fields[i];
      NoCategoryYieldsEmpty(init, t);
    }
  }

  /**
   * Categories are independent lookups: when every identifier a field
   * declares under `t` is also declared by that field under `u` (say ALL),
   * the aggregation of `t` is contained in that of `u`.
   */
  lemma CategoryContainment(fields: seq<Entry>, t: ClientLibraryType, u: ClientLibraryType)
    requires forall i, x :: 0 <= i < |fields| && x in Lookup(fields[i].1, t) ==> x in Lookup(fields[i].1, u)
    ensures forall x :: x in Aggregate(fields, t) ==> x in Aggregate(fields, u)
  {
    forall x | x in Aggregate(fields, t)
      ensures x in Aggregate(fields, u)
    {
      AggregateMembers(fields, t, x);
      AggregateMembers(fields, u, x);
      var i :| 0 <= i < |fields| && t in fields[i].1.clientLibraryCategories
                                 && x in fields[i].1.clientLibraryCategories[t];
      assert x in Lookup(fields[i].1, t);
    }
  }
}
