/** The query engine that every entity's `getMany` runs over the rows it
    fetched: drop the filter clauses without a field or a value, keep the rows
    that satisfy every remaining clause, sort them by the sort model (when there
    is one) and cut out the requested page. */
module QueryEngine {
  import opened JsValues
  import opened Text

  /** One item of the filter model. */
  datatype Clause = Clause(field: string, operator: string, value: Value)

  /** One item of the sort model; `sort` is "asc" or anything else (descending). */
  datatype SortItem = SortItem(field: string, sort: string)

  datatype Pagination = Pagination(page: nat, pageSize: nat)

  datatype Query = Query(pagination: Pagination, filters: seq<Clause>, sorts: seq<SortItem>)

  /** What `getMany` resolves to: `{items, itemCount}`. */
  datatype Page = Page(items: seq<Record>, itemCount: nat)

  // ---------------------------------------------------------------------
  // Filtering
  // ---------------------------------------------------------------------

  /** A clause takes part unless its field is empty or its value is null or undefined. */
  predicate Active(c: Clause)
  {
    c.field != "" && !Nullish(c.value)
  }

  /** The filter callback's `switch (operator)` for one row. */
  predicate Holds(row: Record, c: Clause)
  {
    var fieldValue := Get(row, c.field);
    var text := Lower(Stringify(fieldValue));
    var wanted := Lower(Stringify(c.value));
    match c.operator
    case "contains" => Includes(text, wanted)
    case "equals" => StrictEquals(fieldValue, c.value)
    case "startsWith" => wanted <= text
    case "endsWith" => EndsWith(text, wanted)
    case ">" => Less(c.value, fieldValue)
    case "<" => Less(fieldValue, c.value)
    case _ => true
  }

  /** A row passes a clause that is skipped, or one it satisfies. */
  predicate Passes(row: Record, c: Clause)
  {
    !Active(c) || Holds(row, c)
  }

  /** A row passes every clause of the filter model. */
  predicate MatchesAll(row: Record, cs: seq<Clause>)
  {
    forall i :: 0 <= i < |cs| ==> Passes(row, cs[i])
  }

  /** `rows.filter(...)` for one clause. */
  function KeepHolding(rows: seq<Record>, c: Clause): (r: seq<Record>)
    ensures |r| <= |rows|
    ensures forall x :: x in r <==> x in rows && Holds(x, c)
    ensures forall x :: multiset(r)[x] == if Holds(x, c) then multiset(rows)[x] else 0
  {
    if rows == [] then []
    else
      assert rows == [rows[0]] + rows[1..];
      (if Holds(rows[0], c) then [rows[0]] else []) + KeepHolding(rows[1..], c)
  }

  /** Sequence facts the order lemmas of the filters share. */
  lemma AppendTail(a: seq<Record>, b: seq<Record>)
    requires a != []
    ensures (a + b)[0] == a[0] && (a + b)[1..] == a[1..] + b
  {
  }

  /** The empty sequence is a left unit of concatenation. */
  lemma EmptyAppend<T>(a: seq<T>, b: seq<T>)
    requires a == []
    ensures a + b == b
  {
  }

  /** A non-empty sequence is its head followed by its tail. */
  lemma HeadTail(a: seq<Record>)
    requires a != []
    ensures [a[0]] + a[1..] == a
  {
  }

  /** One more element of a prefix: the longer prefix extends the shorter. */
  lemma PrefixStep<T>(s: seq<T>, i: int)
    requires 0 <= i < |s|
    ensures s[..i + 1][..i] == s[..i]
  {
  }

  /** The prefix as long as the sequence is the sequence. */
  lemma WholePrefix<T>(s: seq<T>)
    ensures s[..|s|] == s
  {
  }

  /** Filtering a non-empty sequence: its first row, when kept, then the
      filtered rest. */
  lemma KeepHoldingCons(rows: seq<Record>, c: Clause)
    requires rows != []
    ensures KeepHolding(rows, c) == (if Holds(rows[0], c) then [rows[0]] else []) + KeepHolding(rows[1..], c)
  {
  }

  /** `filter` keeps the kept rows in their order: filtering a concatenation
      filters each part. */
  lemma {:induction false} KeepHoldingAppend(a: seq<Record>, b: seq<Record>, c: Clause)
    ensures KeepHolding(a + b, c) == KeepHolding(a, c) + KeepHolding(b, c)
    decreases |a|
  {
    if a == [] {
      EmptyAppend(a, b);
    } else {
      KeepHoldingConsAppend(a, b, c);
      KeepHoldingCons(a, c);
      KeepHoldingAppend(a[1..], b, c);
      Regroup(KeepHolding(a + b, c), if Holds(a[0], c) then [a[0]] else [],
              KeepHolding(a[1..] + b, c), KeepHolding(a[1..], c), KeepHolding(b, c), KeepHolding(a, c));
    }
  }

  lemma KeepHoldingConsAppend(a: seq<Record>, b: seq<Record>, c: Clause)
    requires a != []
    ensures KeepHolding(a + b, c) == (if Holds(a[0], c) then [a[0]] else []) + KeepHolding(a[1..] + b, c)
  {
    AppendTail(a, b);
    KeepHoldingCons(a + b, c);
  }

  /** One row is kept exactly when the clause holds for it. */
  lemma KeepHoldingOne(x: Record, c: Clause)
    ensures KeepHolding([x], c) == if Holds(x, c) then [x] else []
  {
  }

  /** One round of the `forEach` over the clauses. */
  function ApplyClause(rows: seq<Record>, c: Clause): seq<Record>
  {
    if Active(c) then KeepHolding(rows, c) else rows
  }

  /** The clauses applied one after another, in the order of the filter model. */
  function FilterAll(rows: seq<Record>, cs: seq<Clause>): seq<Record>
    decreases |cs|
  {
    if cs == [] then rows else ApplyClause(FilterAll(rows, cs[..|cs| - 1]), cs[|cs| - 1])
  }

  /** The reference definition: the rows that pass every clause, in their order. */
  function Select(rows: seq<Record>, cs: seq<Clause>): (r: seq<Record>)
    ensures |r| <= |rows|
    ensures forall x :: x in r <==> x in rows && MatchesAll(x, cs)
    ensures multiset(r) <= multiset(rows)
    ensures forall x :: multiset(r)[x] == if MatchesAll(x, cs) then multiset(rows)[x] else 0
  {
    if rows == [] then []
    else
      assert rows == [rows[0]] + rows[1..];
      (if MatchesAll(rows[0], cs) then [rows[0]] else []) + Select(rows[1..], cs)
  }

  /** Selecting from a non-empty sequence: its first row, when it passes,
      then the selection from the rest. */
  lemma SelectCons(rows: seq<Record>, cs: seq<Clause>)
    requires rows != []
    ensures Select(rows, cs) == (if MatchesAll(rows[0], cs) then [rows[0]] else []) + Select(rows[1..], cs)
  {
  }

  /** The selection keeps the passing rows in their order: selecting from a
      concatenation selects from each part. */
  lemma {:induction false} SelectAppend(a: seq<Record>, b: seq<Record>, cs: seq<Clause>)
    ensures Select(a + b, cs) == Select(a, cs) + Select(b, cs)
    decreases |a|
  {
    if a == [] {
      EmptyAppend(a, b);
    } else {
      SelectConsAppend(a, b, cs);
      SelectCons(a, cs);
      SelectAppend(a[1..], b, cs);
      Regroup(Select(a + b, cs), if MatchesAll(a[0], cs) then [a[0]] else [],
              Select(a[1..] + b, cs), Select(a[1..], cs), Select(b, cs), Select(a, cs));
    }
  }

  lemma SelectConsAppend(a: seq<Record>, b: seq<Record>, cs: seq<Clause>)
    requires a != []
    ensures Select(a + b, cs) == (if MatchesAll(a[0], cs) then [a[0]] else []) + Select(a[1..] + b, cs)
  {
    AppendTail(a, b);
    SelectCons(a + b, cs);
  }

  /** One row is selected exactly when it passes every clause. */
  lemma SelectOne(x: Record, cs: seq<Clause>)
    ensures Select([x], cs) == if MatchesAll(x, cs) then [x] else []
  {
  }

  /** Adding one clause to the conjunction filters the selection once more. */
  lemma {:induction false} ApplyClauseSelect(rows: seq<Record>, cs: seq<Clause>, c: Clause)
    ensures ApplyClause(Select(rows, cs), c) == Select(rows, cs + [c])
    decreases |rows|
  {
    if rows != [] {
      ApplyClauseSelect(rows[1..], cs, c);
      var r := rows[0];
      MatchesAllSnoc(r, cs, c);
      var h := if MatchesAll(r, cs) then [r] else [];
      SelectCons(rows, cs);
      SelectCons(rows, cs + [c]);
      if Active(c) {
        KeepHoldingAppend(h, Select(rows[1..], cs), c);
        if MatchesAll(r, cs) {
          KeepHoldingOne(r, c);
        } else {
          assert KeepHolding(h, c) == [];
        }
      }
    }
  }

  /** Passing one more clause is passing the earlier ones and that one. */
  lemma MatchesAllSnoc(r: Record, cs: seq<Clause>, c: Clause)
    ensures MatchesAll(r, cs + [c]) <==> MatchesAll(r, cs) && Passes(r, c)
  {
    if MatchesAll(r, cs + [c]) {
      assert Passes(r, (cs + [c])[|cs|]);
      forall i | 0 <= i < |cs| ensures Passes(r, cs[i]) {
        assert (cs + [c])[i] == cs[i];
      }
    }
  }

  /** A non-empty clause list is its front followed by its last clause. */
  lemma InitLast(cs: seq<Clause>)
    requires cs != []
    ensures cs[..|cs| - 1] + [cs[|cs| - 1]] == cs
  {
  }

  /** Filtering clause by clause keeps exactly the rows that pass them all: the
      filter model is a conjunction. */
  lemma {:induction false} FilterAllIsConjunction(rows: seq<Record>, cs: seq<Clause>)
    ensures FilterAll(rows, cs) == Select(rows, cs)
    decreases |cs|
  {
    if cs == [] {
      SelectNone(rows, cs);
    } else {
      var init := cs[..|cs| - 1];
      FilterAllIsConjunction(rows, init);
      ApplyClauseSelect(rows, init, cs[|cs| - 1]);
      InitLast(cs);
    }
  }

  /** With no clause, every row is kept. */
  lemma {:induction false} SelectNone(rows: seq<Record>, cs: seq<Clause>)
    requires cs == []
    ensures Select(rows, cs) == rows
    decreases |rows|
  {
    if rows != [] {
      SelectNone(rows[1..], cs);
      SelectCons(rows, cs);
      assert MatchesAll(rows[0], cs);
      HeadTail(rows);
    }
  }

  /** `contains` keeps a row exactly when the lower-cased text of the value
      occurs in the lower-cased text of the row's field. */
  lemma ContainsMeansSubstring(row: Record, c: Clause)
    requires c.operator == "contains"
    ensures Holds(row, c) <==> Occurs(Lower(Stringify(Get(row, c.field))), Lower(Stringify(c.value)))
  {
    IncludesIffOccurs(Lower(Stringify(Get(row, c.field))), Lower(Stringify(c.value)));
  }

  // ---------------------------------------------------------------------
  // Sorting
  // ---------------------------------------------------------------------

  /** The sort comparator: the first sort item on which the rows differ decides. */
  function Compare(a: Record, b: Record, keys: seq<SortItem>): (r: int)
    ensures -1 <= r <= 1
    decreases |keys|
  {
    if keys == [] then 0
    else
      var x := Get(a, keys[0].field);
      var y := Get(b, keys[0].field);
      var asc := keys[0].sort == "asc";
      if Less(x, y) then (if asc then -1 else 1)
      else if Less(y, x) then (if asc then 1 else -1)
      else Compare(a, b, keys[1..])
  }

  /** Every sort field holds values of one kind in both rows. */
  predicate ComparableOn(a: Record, b: Record, keys: seq<SortItem>)
  {
    forall i :: 0 <= i < |keys| ==> Comparable(Get(a, keys[i].field), Get(b, keys[i].field))
  }

  /** The rows agree on every sort field. */
  predicate SameKeys(a: Record, b: Record, keys: seq<SortItem>)
  {
    forall i :: 0 <= i < |keys| ==> Get(a, keys[i].field) == Get(b, keys[i].field)
  }

  /** Each sort field holds values of a single kind across all the rows. */
  predicate Uniform(rows: seq<Record>, keys: seq<SortItem>)
  {
    forall x, y | x in rows && y in rows :: ComparableOn(x, y, keys)
  }

  predicate Sorted(s: seq<Record>, keys: seq<SortItem>)
  {
    forall i, j :: 0 <= i < j < |s| ==> Compare(s[i], s[j], keys) <= 0
  }

  /** Swapping the arguments negates the comparator. */
  lemma {:induction false} CompareFlip(a: Record, b: Record, keys: seq<SortItem>)
    ensures Compare(b, a, keys) == -Compare(a, b, keys)
    decreases |keys|
  {
    if keys != [] {
      var x := Get(a, keys[0].field);
      var y := Get(b, keys[0].field);
      if Less(x, y) {
        LessTrichotomy(x, y);
      }
      CompareFlip(a, b, keys[1..]);
    }
  }

  /** The comparator only looks at the sort fields. */
  lemma {:induction false} CompareCongruent(a: Record, c: Record, b: Record, keys: seq<SortItem>)
    requires SameKeys(a, c, keys)
    ensures Compare(a, b, keys) == Compare(c, b, keys)
    decreases |keys|
  {
    if keys != [] {
      assert Get(a, keys[0].field) == Get(c, keys[0].field);
      CompareCongruent(a, c, b, keys[1..]);
    }
  }

  /** Comparable rows compare equal exactly when they agree on every sort field. */
  lemma {:induction false} CompareZero(a: Record, b: Record, keys: seq<SortItem>)
    requires ComparableOn(a, b, keys)
    ensures Compare(a, b, keys) == 0 <==> SameKeys(a, b, keys)
    decreases |keys|
  {
    if keys != [] {
      var x := Get(a, keys[0].field);
      var y := Get(b, keys[0].field);
      assert Comparable(x, y);
      LessTrichotomy(x, y);
      assert ComparableOn(a, b, keys[1..]) by {
        forall i | 0 <= i < |keys[1..]|
          ensures Comparable(Get(a, keys[1..][i].field), Get(b, keys[1..][i].field))
        {
          assert keys[1..][i] == keys[i + 1];
        }
      }
      CompareZero(a, b, keys[1..]);
      if SameKeys(a, b, keys) {
        forall i | 0 <= i < |keys[1..]|
          ensures Get(a, keys[1..][i].field) == Get(b, keys[1..][i].field)
        {
          assert keys[1..][i] == keys[i + 1];
        }
      }
      if x == y && SameKeys(a, b, keys[1..]) {
        forall i | 0 <= i < |keys| ensures Get(a, keys[i].field) == Get(b, keys[i].field) {
          if i > 0 {
            assert keys[i] == keys[1..][i - 1];
          }
        }
      }
    }
  }

  /** On comparable rows the comparator is a total preorder: it is transitive. */
  lemma {:induction false} CompareTransitive(a: Record, b: Record, c: Record, keys: seq<SortItem>)
    requires ComparableOn(a, b, keys) && ComparableOn(b, c, keys)
    requires Compare(a, b, keys) <= 0 && Compare(b, c, keys) <= 0
    ensures Compare(a, c, keys) <= 0
    decreases |keys|
  {
    if keys != [] {
      var x := Get(a, keys[0].field);
      var y := Get(b, keys[0].field);
      var z := Get(c, keys[0].field);
      assert Comparable(x, y) && Comparable(y, z);
      LessTrichotomy(x, y);
      LessTrichotomy(y, z);
      if Less(x, y) && Less(y, z) {
        LessTransitive(x, y, z);
      }
      if Less(y, x) && Less(z, y) {
        LessTransitive(z, y, x);
      }
      if Less(z, x) {
        LessAsymmetric(z, x);
      }
      if x == y && y == z {
        assert ComparableOn(a, b, keys[1..]) && ComparableOn(b, c, keys[1..]) by {
          forall i | 0 <= i < |keys[1..]|
            ensures Comparable(Get(a, keys[1..][i].field), Get(b, keys[1..][i].field))
            ensures Comparable(Get(b, keys[1..][i].field), Get(c, keys[1..][i].field))
          {
            assert keys[1..][i] == keys[i + 1];
          }
        }
        LessTrichotomy(x, x);
        CompareTransitive(a, b, c, keys[1..]);
      }
    }
  }

  /** Insert `x` after every row that does not compare above it. */
  function Insert(x: Record, s: seq<Record>, keys: seq<SortItem>): (r: seq<Record>)
    ensures multiset(r) == multiset(s) + multiset{x}
    ensures |r| == |s| + 1
  {
    if s == [] then [x]
    else if Compare(x, s[0], keys) < 0 then [x] + s
    else
      assert s == [s[0]] + s[1..];
      [s[0]] + Insert(x, s[1..], keys)
  }

  /** `Array.prototype.sort` with the comparator: a stable sort, here by insertion. */
  function SortRows(rows: seq<Record>, keys: seq<SortItem>): (r: seq<Record>)
    ensures multiset(r) == multiset(rows)
    ensures |r| == |rows|
    decreases |rows|
  {
    if rows == [] then []
    else
      assert rows == rows[..|rows| - 1] + [rows[|rows| - 1]];
      Insert(rows[|rows| - 1], SortRows(rows[..|rows| - 1], keys), keys)
  }

  /** Every row of a sorted list that starts above `x` stays above `x`. */
  lemma SortedAbove(x: Record, s: seq<Record>, keys: seq<SortItem>)
    requires Sorted(s, keys) && s != []
    requires Uniform(s + [x], keys)
    requires Compare(x, s[0], keys) < 0
    ensures forall j :: 0 <= j < |s| ==> Compare(x, s[j], keys) < 0
  {
    forall j | 0 <= j < |s| ensures Compare(x, s[j], keys) < 0 {
      assert x in s + [x] && s[0] in s + [x] && s[j] in s + [x];
      if j > 0 {
        CompareTransitive(x, s[0], s[j], keys);
        if Compare(x, s[j], keys) == 0 {
          CompareZero(x, s[j], keys);
          CompareCongruent(s[j], x, s[0], keys);
          CompareFlip(s[0], s[j], keys);
        }
      }
    }
  }

  lemma {:induction false} InsertSorted(x: Record, s: seq<Record>, keys: seq<SortItem>)
    requires Sorted(s, keys)
    requires Uniform(s + [x], keys)
    ensures Sorted(Insert(x, s, keys), keys)
    decreases |s|
  {
    if s != [] {
      if Compare(x, s[0], keys) < 0 {
        SortedAbove(x, s, keys);
        SortedCons(x, s, keys);
      } else {
        var t := s[1..];
        UniformTail(x, s, keys);
        SortedTail(s, keys);
        InsertSorted(x, t, keys);
        CompareFlip(x, s[0], keys);
        assert forall k :: 0 <= k < |t| ==> Compare(s[0], t[k], keys) <= 0 by {
          forall k | 0 <= k < |t| ensures Compare(s[0], t[k], keys) <= 0 {
            assert t[k] == s[k + 1];
          }
        }
        HeadBelowInsert(s[0], x, t, keys);
        SortedCons(s[0], Insert(x, t, keys), keys);
      }
    }
  }

  /** A row at or below every row of a sorted list heads a sorted list. */
  lemma SortedCons(h: Record, r: seq<Record>, keys: seq<SortItem>)
    requires Sorted(r, keys)
    requires forall j :: 0 <= j < |r| ==> Compare(h, r[j], keys) <= 0
    ensures Sorted([h] + r, keys)
  {
    var l := [h] + r;
    forall i, j | 0 <= i < j < |l| ensures Compare(l[i], l[j], keys) <= 0 {
      assert l[j] == r[j - 1];
      if i > 0 {
        assert l[i] == r[i - 1];
      }
    }
  }

  lemma UniformTail(x: Record, s: seq<Record>, keys: seq<SortItem>)
    requires s != [] && Uniform(s + [x], keys)
    ensures Uniform(s[1..] + [x], keys)
  {
    forall y | y in s[1..] + [x] ensures y in s + [x] {
      if y in s[1..] {
        assert y in s;
      }
    }
  }

  /** A row at or below every row of `t` and below `x` stays below all of
      `Insert(x, t, keys)`. */
  lemma HeadBelowInsert(h: Record, x: Record, t: seq<Record>, keys: seq<SortItem>)
    requires Compare(h, x, keys) <= 0
    requires forall k :: 0 <= k < |t| ==> Compare(h, t[k], keys) <= 0
    ensures forall j :: 0 <= j < |Insert(x, t, keys)| ==> Compare(h, Insert(x, t, keys)[j], keys) <= 0
  {
    var r := Insert(x, t, keys);
    forall j | 0 <= j < |r| ensures Compare(h, r[j], keys) <= 0 {
      var y := r[j];
      if y != x {
        assert y in t by {
          assert y in multiset(r);
          assert y in multiset(t) + multiset{x};
        }
        var k :| 0 <= k < |t| && t[k] == y;
      }
    }
  }

  /** The sort puts the rows in comparator order whenever every sort field holds
      values of one kind. */
  lemma {:induction false} SortRowsSorted(rows: seq<Record>, keys: seq<SortItem>)
    requires Uniform(rows, keys)
    ensures Sorted(SortRows(rows, keys), keys)
    decreases |rows|
  {
    if rows != [] {
      var init := rows[..|rows| - 1];
      var last := rows[|rows| - 1];
      assert Uniform(init, keys) by {
        forall y | y in init ensures y in rows {
        }
      }
      SortRowsSorted(init, keys);
      var s := SortRows(init, keys);
      assert Uniform(s + [last], keys) by {
        forall y | y in s + [last] ensures y in rows {
          if y in s {
            assert y in multiset(init);
            assert y in init;
          }
        }
      }
      InsertSorted(last, s, keys);
    }
  }

  /** The rows that compare equal to `e`, in order. */
  function EquivalentTo(s: seq<Record>, e: Record, keys: seq<SortItem>): seq<Record>
  {
    if s == [] then []
    else (if Compare(s[0], e, keys) == 0 then [s[0]] else []) + EquivalentTo(s[1..], e, keys)
  }

  lemma EquivalentToConsAppend(s: seq<Record>, t: seq<Record>, e: Record, keys: seq<SortItem>)
    requires s != []
    ensures EquivalentTo(s + t, e, keys)
         == (if Compare(s[0], e, keys) == 0 then [s[0]] else []) + EquivalentTo(s[1..] + t, e, keys)
  {
    AppendTail(s, t);
  }

  lemma {:induction false} EquivalentToAppend(s: seq<Record>, t: seq<Record>, e: Record, keys: seq<SortItem>)
    ensures EquivalentTo(s + t, e, keys) == EquivalentTo(s, e, keys) + EquivalentTo(t, e, keys)
    decreases |s|
  {
    if s == [] {
      EmptyAppend(s, t);
    } else {
      var head := if Compare(s[0], e, keys) == 0 then [s[0]] else [];
      EquivalentToConsAppend(s, t, e, keys);
      EquivalentToAppend(s[1..], t, e, keys);
      Regroup(EquivalentTo(s + t, e, keys), head, EquivalentTo(s[1..] + t, e, keys),
              EquivalentTo(s[1..], e, keys), EquivalentTo(t, e, keys), EquivalentTo(s, e, keys));
    }
  }

  lemma {:induction false} EquivalentToNone(s: seq<Record>, e: Record, keys: seq<SortItem>)
    requires forall j :: 0 <= j < |s| ==> Compare(s[j], e, keys) != 0
    ensures EquivalentTo(s, e, keys) == []
    decreases |s|
  {
    if s != [] {
      EquivalentToNone(s[1..], e, keys);
    }
  }

  /** When `x` goes in front, no row of `s` is in the class of `x`. */
  lemma InsertStableFront(x: Record, s: seq<Record>, e: Record, keys: seq<SortItem>)
    requires Sorted(s, keys) && s != []
    requires Uniform(s + [x, e], keys)
    requires Compare(x, s[0], keys) < 0
    ensures EquivalentTo([x] + s, e, keys)
         == EquivalentTo(s, e, keys) + (if Compare(x, e, keys) == 0 then [x] else [])
  {
    assert Uniform(s + [x], keys) by {
      forall y | y in s + [x] ensures y in s + [x, e] {
      }
    }
    SortedAbove(x, s, keys);
    assert x in s + [x, e] && e in s + [x, e];
    if Compare(x, e, keys) == 0 {
      CompareZero(x, e, keys);
      forall j | 0 <= j < |s| ensures Compare(s[j], e, keys) != 0 {
        assert s[j] in s + [x, e];
        SameKeysSymmetric(x, e, keys);
        CompareCongruent(e, x, s[j], keys);
        CompareFlip(e, s[j], keys);
        CompareFlip(x, s[j], keys);
      }
      EquivalentToNone(s, e, keys);
    }
    EquivalentToAppend([x], s, e, keys);
  }

  /** Inserting `x` appends it after the rows of its own class and leaves every
      other class alone. */
  lemma {:induction false} InsertStable(x: Record, s: seq<Record>, e: Record, keys: seq<SortItem>)
    requires Sorted(s, keys)
    requires Uniform(s + [x, e], keys)
    ensures EquivalentTo(Insert(x, s, keys), e, keys)
         == EquivalentTo(s, e, keys) + (if Compare(x, e, keys) == 0 then [x] else [])
    decreases |s|
  {
    if s == [] {
    } else if Compare(x, s[0], keys) < 0 {
      InsertStableFront(x, s, e, keys);
    } else {
      var t := s[1..];
      forall y | y in t + [x, e] ensures y in s + [x, e] {
        if y in t {
          assert y in s;
        }
      }
      UniformSub(t + [x, e], s + [x, e], keys);
      SortedTail(s, keys);
      InsertStable(x, t, e, keys);
      InsertStableBehind(x, s, e, keys, if Compare(x, e, keys) == 0 then [x] else []);
    }
  }

  /** When `x` goes behind the head, the head's class membership is unchanged. */
  lemma InsertStableBehind(x: Record, s: seq<Record>, e: Record, keys: seq<SortItem>, tail: seq<Record>)
    requires s != [] && Compare(x, s[0], keys) >= 0
    requires EquivalentTo(Insert(x, s[1..], keys), e, keys) == EquivalentTo(s[1..], e, keys) + tail
    ensures EquivalentTo(Insert(x, s, keys), e, keys) == EquivalentTo(s, e, keys) + tail
  {
    var t := s[1..];
    var it := Insert(x, t, keys);
    var head := if Compare(s[0], e, keys) == 0 then [s[0]] else [];
    var l := Insert(x, s, keys);
    assert l == [s[0]] + it;
    AppendTail([s[0]], it);
    assert EquivalentTo(l, e, keys) == head + EquivalentTo(it, e, keys);
    assert EquivalentTo(s, e, keys) == head + EquivalentTo(t, e, keys);
    Regroup(EquivalentTo(l, e, keys), head, EquivalentTo(it, e, keys), EquivalentTo(t, e, keys), tail,
            EquivalentTo(s, e, keys));
  }

  lemma Regroup(l: seq<Record>, head: seq<Record>, m: seq<Record>, a: seq<Record>,
                tail: seq<Record>, s: seq<Record>)
    requires l == head + m && m == a + tail && s == head + a
    ensures l == s + tail
  {
    assert head + (a + tail) == (head + a) + tail;
  }

  /** The tail of a sorted list is sorted. */
  lemma SortedTail(s: seq<Record>, keys: seq<SortItem>)
    requires Sorted(s, keys) && s != []
    ensures Sorted(s[1..], keys)
  {
    forall i, j | 0 <= i < j < |s[1..]| ensures Compare(s[1..][i], s[1..][j], keys) <= 0 {
      assert s[1..][i] == s[i + 1] && s[1..][j] == s[j + 1];
    }
  }

  /** Uniformity carries over to a list whose rows all come from a uniform list. */
  lemma UniformSub(a: seq<Record>, b: seq<Record>, keys: seq<SortItem>)
    requires Uniform(b, keys)
    requires forall y :: y in a ==> y in b
    ensures Uniform(a, keys)
  {
  }

  lemma SameKeysSymmetric(a: Record, b: Record, keys: seq<SortItem>)
    requires SameKeys(a, b, keys)
    ensures SameKeys(b, a, keys)
  {
  }

  /** The sort is stable: the rows of each class of equal sort keys come out in
      the order they went in. */
  lemma {:induction false} SortRowsStable(rows: seq<Record>, e: Record, keys: seq<SortItem>)
    requires Uniform(rows + [e], keys)
    ensures EquivalentTo(SortRows(rows, keys), e, keys) == EquivalentTo(rows, e, keys)
    decreases |rows|
  {
    if rows != [] {
      var init := rows[..|rows| - 1];
      SortRowsStep(rows, e, keys);
      SortRowsStable(init, e, keys);
      EquivalentToLast(rows, e, keys);
    }
  }

  /** Sorting one more row adds it to its class, behind the rows already there. */
  lemma SortRowsStep(rows: seq<Record>, e: Record, keys: seq<SortItem>)
    requires rows != [] && Uniform(rows + [e], keys)
    ensures Uniform(rows[..|rows| - 1] + [e], keys)
    ensures EquivalentTo(SortRows(rows, keys), e, keys)
         == EquivalentTo(SortRows(rows[..|rows| - 1], keys), e, keys)
            + (if Compare(rows[|rows| - 1], e, keys) == 0 then [rows[|rows| - 1]] else [])
  {
    var init := rows[..|rows| - 1];
    var last := rows[|rows| - 1];
    UniformParts(rows, e, keys);
    SortRowsSorted(init, keys);
    InsertStable(last, SortRows(init, keys), e, keys);
  }

  /** The last row is the last of its class. */
  lemma EquivalentToLast(rows: seq<Record>, e: Record, keys: seq<SortItem>)
    requires rows != []
    ensures EquivalentTo(rows, e, keys)
         == EquivalentTo(rows[..|rows| - 1], e, keys)
            + (if Compare(rows[|rows| - 1], e, keys) == 0 then [rows[|rows| - 1]] else [])
  {
    var x := rows[|rows| - 1];
    EquivalentToAppend(rows[..|rows| - 1], [x], e, keys);
    assert rows[..|rows| - 1] + [x] == rows;
    assert [x][1..] == [];
  }

  /** The uniformity facts one step of SortRowsStable needs. */
  lemma UniformParts(rows: seq<Record>, e: Record, keys: seq<SortItem>)
    requires rows != [] && Uniform(rows + [e], keys)
    ensures Uniform(rows[..|rows| - 1] + [e], keys)
    ensures Uniform(rows[..|rows| - 1], keys)
    ensures Uniform(SortRows(rows[..|rows| - 1], keys) + [rows[|rows| - 1], e], keys)
  {
    var init := rows[..|rows| - 1];
    var last := rows[|rows| - 1];
    assert Uniform(init + [e], keys) by {
      forall y | y in init + [e] ensures y in rows + [e] {
        if y in init {
          assert y in rows;
        }
      }
    }
    assert Uniform(init, keys) by {
      forall y | y in init ensures y in init + [e] {
      }
    }
    var s := SortRows(init, keys);
    assert Uniform(s + [last, e], keys) by {
      forall y | y in s + [last, e] ensures y in rows + [e] {
        if y in s {
          assert y in multiset(init);
          assert y in init;
        }
      }
    }
  }

  /** The sort is applied only when the sort model has items. */
  function SortIfRequested(rows: seq<Record>, keys: seq<SortItem>): seq<Record>
  {
    if |keys| > 0 then SortRows(rows, keys) else rows
  }

  // ---------------------------------------------------------------------
  // Pagination
  // ---------------------------------------------------------------------

  /** `s.slice(start, end)` for non-negative bounds: both are clamped to the length. */
  function Slice(s: seq<Record>, start: nat, end: nat): (r: seq<Record>)
    ensures |r| <= if end >= start then end - start else 0
    ensures start <= |s| && start <= end ==> |r| == (if end <= |s| then end else |s|) - start
    ensures forall j :: 0 <= j < |r| ==> start + j < |s| && r[j] == s[start + j]
  {
    var lo := if start <= |s| then start else |s|;
    var hi := if end <= |s| then end else |s|;
    if lo <= hi then s[lo..hi] else []
  }

  /** The page of `rows` the pagination model asks for, and the count of all rows. */
  function Paginate(rows: seq<Record>, p: Pagination): (r: Page)
    ensures r.itemCount == |rows|
    ensures |r.items| <= p.pageSize
    ensures forall j :: 0 <= j < |r.items| ==>
      p.page * p.pageSize + j < |rows| && r.items[j] == rows[p.page * p.pageSize + j]
  {
    var start := p.page * p.pageSize;
    Page(Slice(rows, start, start + p.pageSize), |rows|)
  }

  /** Every row lands on exactly one page: row `i` is item `i % n` of page `i / n`. */
  lemma PaginateCovers(rows: seq<Record>, n: nat, i: nat)
    requires n > 0 && i < |rows|
    ensures var r := Paginate(rows, Pagination(i / n, n));
      i % n < |r.items| && r.items[i % n] == rows[i]
  {
    var start := (i / n) * n;
    assert start + i % n == i;
    assert start <= i;
  }

  /** The whole query: filter, then sort, then paginate. */
  function Evaluate(rows: seq<Record>, q: Query): Page
  {
    Paginate(SortIfRequested(FilterAll(rows, q.filters), q.sorts), q.pagination)
  }

  /** The count is that of the filtered rows whatever the page; the page holds at
      most `pageSize` rows, each of them a row that passes every clause. */
  lemma EvaluateContract(rows: seq<Record>, q: Query)
    ensures Evaluate(rows, q).itemCount == |Select(rows, q.filters)|
    ensures |Evaluate(rows, q).items| <= q.pagination.pageSize
    ensures forall x :: x in Evaluate(rows, q).items ==> x in rows && MatchesAll(x, q.filters)
  {
    FilterAllIsConjunction(rows, q.filters);
    var f := Select(rows, q.filters);
    var s := SortIfRequested(f, q.sorts);
    assert multiset(s) == multiset(f);
    forall x | x in Evaluate(rows, q).items ensures x in rows && MatchesAll(x, q.filters) {
      var j :| 0 <= j < |Evaluate(rows, q).items| && Evaluate(rows, q).items[j] == x;
      assert x in s;
      assert x in multiset(f);
    }
  }
}
