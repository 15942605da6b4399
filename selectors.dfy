/** The option lists of the three sidebar selectors: `sorted(column.unique())`. */
module Selectors {
  import opened Records

  /** Python's `<` on strings: lexicographic by code point, a proper prefix first. */
  predicate Less(a: string, b: string)
    ensures |a| < |b| && a == b[..|a|] ==> Less(a, b)
  {
    if |a| == 0 then |b| > 0
    else if |b| == 0 then false
    else a[0] < b[0] || (a[0] == b[0] && Less(a[1..], b[1..]))
  }

  lemma {:induction false} LessIrreflexive(a: string)
    ensures !Less(a, a)
  {
    if |a| > 0 {
      LessIrreflexive(a[1..]);
    }
  }

  lemma {:induction false} LessTransitive(a: string, b: string, c: string)
    requires Less(a, b) && Less(b, c)
    ensures Less(a, c)
  {
    if |a| > 0 && a[0] == b[0] && b[0] == c[0] {
      LessTransitive(a[1..], b[1..], c[1..]);
    }
  }

  lemma {:induction false} LessTotal(a: string, b: string)
    requires a != b
    ensures Less(a, b) || Less(b, a)
  {
    if |a| > 0 && |b| > 0 && a[0] == b[0] {
      assert a == [a[0]] + a[1..] && b == [b[0]] + b[1..];
      LessTotal(a[1..], b[1..]);
    }
  }

  /** Ascending and free of duplicates. */
  predicate StrictlySorted(s: seq<string>)
  {
    forall i, j :: 0 <= i < j < |s| ==> Less(s[i], s[j])
  }

  /** The first element of a strictly sorted list is below every later one. */
  lemma HeadBelowTail(s: seq<string>)
    requires StrictlySorted(s) && s != []
    ensures forall v :: v in s[1..] ==> Less(s[0], v)
  {
    forall v | v in s[1..] ensures Less(s[0], v) {
      var k :| 0 <= k < |s[1..]| && s[1..][k] == v;
      assert s[k + 1] == v;
    }
  }

  /** Adds `x` to a strictly sorted list at its place, unless it is already there. */
  function Insert(x: string, s: seq<string>): (r: seq<string>)
    requires StrictlySorted(s)
    ensures StrictlySorted(r)
    ensures forall v :: v in r <==> v == x || v in s
  {
    if s == [] then [x]
    else if x == s[0] then s
    else if Less(x, s[0]) then
      HeadBelowTail(s);
      assert forall v :: v in s ==> v == s[0] || v in s[1..];
      assert forall v :: v in s ==> Less(s[0], v) ==> Less(x, v) by {
        forall v | v in s && Less(s[0], v) ensures Less(x, v) {
          LessTransitive(x, s[0], v);
        }
      }
      var r := [x] + s;
      assert forall j :: 1 <= j < |r| ==> r[j] in s;
      r
    else
      LessTotal(x, s[0]);
      HeadBelowTail(s);
      var rest := Insert(x, s[1..]);
      var r := [s[0]] + rest;
      assert forall j :: 1 <= j < |r| ==> r[j] in rest;
      assert forall v :: v in s ==> v == s[0] || v in s[1..];
      r
  }

  /** `sorted(set(values))`: the distinct values, ascending. */
  function SortedDistinct(values: seq<string>): (r: seq<string>)
    ensures StrictlySorted(r)
    ensures forall v :: v in r <==> v in values
  {
    if values == [] then []
    else
      var init := values[..|values| - 1];
      assert values == init + [values[|values| - 1]];
      Insert(values[|values| - 1], SortedDistinct(init))
  }

  /** A strictly sorted list is determined by its elements: the option list is the only
      ascending, duplicate-free arrangement of the column's values. */
  lemma {:induction false} SortedUnique(a: seq<string>, b: seq<string>)
    requires StrictlySorted(a) && StrictlySorted(b)
    requires forall v :: v in a <==> v in b
    ensures a == b
  {
    assert a != [] ==> a[0] in b;
    assert b != [] ==> b[0] in a;
    if a != [] && b != [] {
      HeadBelowTail(a);
      HeadBelowTail(b);
      if a[0] != b[0] {
        assert a[0] in a && b[0] in b;
        assert a == [a[0]] + a[1..] && b == [b[0]] + b[1..];
        assert a[0] in b[1..] && b[0] in a[1..];
        LessTransitive(a[0], b[0], a[0]);
        LessIrreflexive(a[0]);
      }
      forall v ensures v in a[1..] <==> v in b[1..] {
        if v in a[1..] { LessIrreflexive(v); assert v in b; }
        if v in b[1..] { LessIrreflexive(v); assert v in a; }
      }
      SortedUnique(a[1..], b[1..]);
      assert a == [a[0]] + a[1..] && b == [b[0]] + b[1..];
    }
  }

  /** The columns the three selectors draw from. */
  datatype Field = NrgBal | Unit | Geo

  function FieldOf(r: Record, f: Field): string
  {
    match f
    case NrgBal => r.nrgBal
    case Unit => r.unit
    case Geo => r.geo
  }

  /** `sorted(df[f].unique())`: every value occurring in the column exactly once, ascending. */
  function Options(t: EnergyTable, f: Field): (r: seq<string>)
    ensures StrictlySorted(r)
    ensures forall i, j :: 0 <= i < j < |r| ==> r[i] != r[j]
    ensures forall v :: v in r <==> exists k :: 0 <= k < |t.rows| && FieldOf(t.rows[k], f) == v
  {
    var column := seq(|t.rows|, k requires 0 <= k < |t.rows| => FieldOf(t.rows[k], f));
    forall v | v in column ensures exists k :: 0 <= k < |t.rows| && FieldOf(t.rows[k], f) == v {
      var k :| 0 <= k < |column| && column[k] == v;
    }
    forall k | 0 <= k < |t.rows| ensures FieldOf(t.rows[k], f) in column {
      assert column[k] == FieldOf(t.rows[k], f);
    }
    var r := SortedDistinct(column);
    assert forall i :: 0 <= i < |r| ==> !Less(r[i], r[i]) by {
      forall i | 0 <= i < |r| ensures !Less(r[i], r[i]) { LessIrreflexive(r[i]); }
    }
    r
  }
}
