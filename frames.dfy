/** Tabular data as the dashboard sees it, and the few pandas operations it
    uses on it: `Series.unique`, `sorted`, `Series.min`/`Series.max` and
    `pd.concat(..., ignore_index=True)`. */
module Frames {
  import opened Outcomes
  import opened Strings

  /** A cell of a column other than Date, User and filename. */
  datatype Cell = Num(n: int) | Text(s: string)

  /** One record of a data frame. `date` is the "Date" column as an ordinal
      day, `user` the "User" column, `filename` the provenance column that the
      upload decoder adds, and `cells` every other column; a column missing
      from `cells` holds NaN. */
  datatype Row = Row(date: int, user: string, filename: string, cells: map<string, Cell>)

  /** A data frame: its column labels in order, and its records in index order. */
  datatype Table = Table(columns: seq<string>, rows: seq<Row>)

  /** What the upload decoder returns for one file: a data frame, or the
      html.Div that reports "There was an error processing this file." */
  datatype Fragment = Frame(table: Table) | ErrorMarker

  ghost predicate Distinct<T>(xs: seq<T>) {
    forall i, j :: 0 <= i < j < |xs| ==> xs[i] != xs[j]
  }

  /** The index of the first occurrence of `x` in `xs`. */
  function FirstIndex(xs: seq<string>, x: string): (i: nat)
    requires x in xs
    ensures i < |xs| && xs[i] == x && x !in xs[..i]
    decreases |xs|
  {
    if xs[0] == x then 0
    else
      var j := FirstIndex(xs[1..], x);
      assert xs[..j + 1] == [xs[0]] + xs[1..][..j];
      j + 1
  }

  /** An occurrence with no earlier one is the first occurrence. */
  lemma {:induction false} FirstIndexIs(xs: seq<string>, x: string, i: nat)
    requires i < |xs| && xs[i] == x && x !in xs[..i]
    ensures FirstIndex(xs, x) == i
    decreases i
  {
    if i > 0 {
      assert xs[..i][0] == xs[0];
      assert xs[1..][..i - 1] == xs[..i][1..];
      assert forall c :: c in xs[..i][1..] ==> c in xs[..i];
      FirstIndexIs(xs[1..], x, i - 1);
    }
  }

  /** Values already in `xs` keep their first index when more values follow. */
  lemma FirstIndexAppend(xs: seq<string>, ys: seq<string>, x: string)
    requires x in xs
    ensures FirstIndex(xs + ys, x) == FirstIndex(xs, x)
  {
    var i := FirstIndex(xs, x);
    assert (xs + ys)[..i] == xs[..i];
    FirstIndexIs(xs + ys, x, i);
  }

  /** `Series.unique()`: every value once, in order of first appearance. */
  function Unique(xs: seq<string>): (r: seq<string>)
    ensures Distinct(r)
    ensures forall x :: x in r <==> x in xs
    ensures forall i, j :: 0 <= i < j < |r| ==> FirstIndex(xs, r[i]) < FirstIndex(xs, r[j])
    decreases |xs|
  {
    if xs == [] then []
    else
      var init := xs[..|xs| - 1];
      var u := Unique(init);
      var last := xs[|xs| - 1];
      assert xs == init + [last];
      assert forall x :: x in xs <==> x in init || x == last;
      assert forall x :: x in init ==> FirstIndex(xs, x) == FirstIndex(init, x) by {
        forall x | x in init ensures FirstIndex(xs, x) == FirstIndex(init, x) {
          FirstIndexAppend(init, [last], x);
        }
      }
      if last in u then u
      else
        assert xs[..|init|] == init;
        FirstIndexIs(xs, last, |init|);
        u + [last]
  }

  /** Values in strictly increasing order (hence without repetition). */
  ghost predicate StrictlySorted(xs: seq<string>) {
    forall i, j :: 0 <= i < j < |xs| ==> Less(xs[i], xs[j])
  }

  /** Values in non-decreasing order. */
  ghost predicate Ordered(xs: seq<string>) {
    forall i, j :: 0 <= i < j < |xs| ==> !Less(xs[j], xs[i])
  }

  /** Inserts `x` into an ordered list before the first value not below it. */
  function Insert(x: string, xs: seq<string>): (r: seq<string>)
    requires Ordered(xs)
    ensures Ordered(r)
    ensures multiset(r) == multiset(xs) + multiset{x}
    decreases |xs|
  {
    if xs == [] then [x]
    else if !Less(xs[0], x) then
      assert forall j :: 0 <= j < |xs| ==> !Less(xs[j], x) by {
        forall j | 0 < j < |xs| ensures !Less(xs[j], x) {
          NotLessTransitive(x, xs[0], xs[j]);
        }
      }
      [x] + xs
    else
      var tail := Insert(x, xs[1..]);
      assert xs == [xs[0]] + xs[1..];
      assert forall y :: y in tail ==> !Less(y, xs[0]) by {
        forall y | y in tail ensures !Less(y, xs[0]) {
          assert y in multiset(tail);
          if y == x {
            LessAsymmetric(xs[0], x);
          } else {
            assert y in multiset(xs[1..]);
            var j :| 0 <= j < |xs[1..]| && xs[1..][j] == y;
            assert xs[j + 1] == y;
          }
        }
      }
      assert forall j :: 0 < j < |[xs[0]] + tail| ==> ([xs[0]] + tail)[j] in tail;
      [xs[0]] + tail
  }

  /** Python's `sorted(xs)` on strings: the same values, in order. */
  function Sorted(xs: seq<string>): (r: seq<string>)
    ensures Ordered(r)
    ensures multiset(r) == multiset(xs)
    decreases |xs|
  {
    if xs == [] then []
    else
      assert xs == xs[..|xs| - 1] + [xs[|xs| - 1]];
      Insert(xs[|xs| - 1], Sorted(xs[..|xs| - 1]))
  }

  /** A list repeats no value exactly when no value occurs twice in its multiset. */
  lemma {:induction false} DistinctCounts(xs: seq<string>)
    ensures Distinct(xs) <==> forall x :: multiset(xs)[x] <= 1
    decreases |xs|
  {
    if xs != [] {
      var init, last := xs[..|xs| - 1], xs[|xs| - 1];
      assert xs == init + [last];
      DistinctCounts(init);
      if Distinct(xs) {
        assert Distinct(init);
        forall i | 0 <= i < |init| ensures init[i] != last {
          assert xs[i] != xs[|xs| - 1];
        }
        assert last !in init;
      } else {
        var i, j :| 0 <= i < j < |xs| && xs[i] == xs[j];
        if j < |xs| - 1 {
          assert init[i] == init[j];
          assert !Distinct(init);
          var y :| multiset(init)[y] > 1;
          assert multiset(xs)[y] >= multiset(init)[y];
        } else {
          assert init[i] == last;
          assert multiset(xs)[last] == multiset(init)[last] + 1;
        }
      }
    }
  }

  /** Sorting values that are all different gives a strictly increasing list. */
  lemma SortedDistinctIsStrict(xs: seq<string>)
    requires Distinct(xs)
    ensures StrictlySorted(Sorted(xs))
  {
    var r := Sorted(xs);
    DistinctCounts(xs);
    DistinctCounts(r);
    forall i, j | 0 <= i < j < |r| ensures Less(r[i], r[j]) {
      LessTotal(r[i], r[j]);
    }
  }

  lemma HasMember(s: seq<string>)
    requires s != []
    ensures exists y :: y in s
  {
    assert s[0] in s;
  }

  /** A strictly sorted list is determined by its elements, so the option
      list `Sorted(Unique(Users(...)))` is the one strictly sorted listing
      of the users. */
  lemma {:induction false} StrictlySortedUnique(a: seq<string>, b: seq<string>)
    requires StrictlySorted(a) && StrictlySorted(b)
    requires forall y :: y in a <==> y in b
    ensures a == b
    decreases |a|
  {
    if a != [] && b != [] {
      assert a[0] == b[0] by {
        if a[0] != b[0] {
          assert a[0] in a && b[0] in b;
          var i :| 0 <= i < |b| && b[i] == a[0];
          var j :| 0 <= j < |a| && a[j] == b[0];
          assert i > 0 && j > 0;
          LessAsymmetric(a[0], a[j]);
        }
      }
      assert forall y :: y in a[1..] <==> y in b[1..] by {
        forall y ensures y in a[1..] <==> y in b[1..] {
          if y in a[1..] {
            var i :| 0 <= i < |a[1..]| && a[1..][i] == y;
            assert Less(a[0], y);
            assert y in b && y != b[0];
            var k :| 0 <= k < |b| && b[k] == y;
            assert b[1..][k - 1] == y;
          }
          if y in b[1..] {
            var i :| 0 <= i < |b[1..]| && b[1..][i] == y;
            assert Less(b[0], y);
            assert y in a && y != a[0];
            var k :| 0 <= k < |a| && a[k] == y;
            assert a[1..][k - 1] == y;
          }
        }
      }
      StrictlySortedUnique(a[1..], b[1..]);
      assert a == [a[0]] + a[1..] && b == [b[0]] + b[1..];
    } else if a != [] {
      HasMember(a);
    } else if b != [] {
      HasMember(b);
    }
  }

  /** `df["Date"].min()`; None stands for NaT, which an empty column gives. */
  function MinDate(rows: seq<Row>): (m: Option<int>)
    ensures m.None? <==> rows == []
    ensures m.Some? ==> forall r :: r in rows ==> m.value <= r.date
    ensures m.Some? ==> exists r :: r in rows && r.date == m.value
    decreases |rows|
  {
    if rows == [] then None
    else
      assert forall r :: r in rows <==> r == rows[0] || r in rows[1..] by {
        assert rows == [rows[0]] + rows[1..];
      }
      match MinDate(rows[1..])
      case None => Some(rows[0].date)
      case Some(m) => Some(if rows[0].date < m then rows[0].date else m)
  }

  /** `df["Date"].max()`; None stands for NaT, which an empty column gives. */
  function MaxDate(rows: seq<Row>): (m: Option<int>)
    ensures m.None? <==> rows == []
    ensures m.Some? ==> forall r :: r in rows ==> r.date <= m.value
    ensures m.Some? ==> exists r :: r in rows && r.date == m.value
    decreases |rows|
  {
    if rows == [] then None
    else
      assert forall r :: r in rows <==> r == rows[0] || r in rows[1..] by {
        assert rows == [rows[0]] + rows[1..];
      }
      match MaxDate(rows[1..])
      case None => Some(rows[0].date)
      case Some(m) => Some(if rows[0].date > m then rows[0].date else m)
  }

  /** The "User" column. */
  function Users(rows: seq<Row>): (us: seq<string>)
    ensures |us| == |rows| && forall i :: 0 <= i < |rows| ==> us[i] == rows[i].user
  {
    seq(|rows|, i requires 0 <= i < |rows| => rows[i].user)
  }

  /** The lists `xss` laid end to end. */
  function Concatenation<T>(xss: seq<seq<T>>): seq<T>
    decreases |xss|
  {
    if xss == [] then [] else Concatenation(xss[..|xss| - 1]) + xss[|xss| - 1]
  }

  /** The sum of the lengths of the lists `xss`. */
  function TotalLength<T>(xss: seq<seq<T>>): nat
    decreases |xss|
  {
    if xss == [] then 0 else TotalLength(xss[..|xss| - 1]) + |xss[|xss| - 1]|
  }

  lemma {:induction false} ConcatenationAppend<T>(xss: seq<seq<T>>, yss: seq<seq<T>>)
    ensures Concatenation(xss + yss) == Concatenation(xss) + Concatenation(yss)
    ensures TotalLength(xss + yss) == TotalLength(xss) + TotalLength(yss)
    decreases |yss|
  {
    if yss == [] {
      assert xss + yss == xss;
    } else {
      var init := yss[..|yss| - 1];
      assert (xss + yss)[..|xss + yss| - 1] == xss + init;
      ConcatenationAppend(xss, init);
    }
  }

  /** The concatenation is as long as all the lists together. */
  lemma {:induction false} ConcatenationLength<T>(xss: seq<seq<T>>)
    ensures |Concatenation(xss)| == TotalLength(xss)
    decreases |xss|
  {
    if xss != [] {
      ConcatenationLength(xss[..|xss| - 1]);
    }
  }

  /** List `k` sits, unchanged, right after the lists before it. */
  lemma ConcatenationSlice<T>(xss: seq<seq<T>>, k: nat)
    requires k < |xss|
    ensures TotalLength(xss[..k]) + |xss[k]| <= |Concatenation(xss)|
    ensures Concatenation(xss)[TotalLength(xss[..k])..TotalLength(xss[..k]) + |xss[k]|] == xss[k]
  {
    assert xss == xss[..k] + ([xss[k]] + xss[k + 1..]);
    ConcatenationAppend(xss[..k], [xss[k]] + xss[k + 1..]);
    ConcatenationAppend([xss[k]], xss[k + 1..]);
    assert Concatenation([xss[k]]) == xss[k] by {
      assert [xss[k]][..0] == [];
    }
    ConcatenationLength(xss[..k]);
  }

  /** An element is in the concatenation exactly when it is in one of the lists. */
  lemma {:induction false} ConcatenationMembers<T>(xss: seq<seq<T>>, x: T)
    ensures x in Concatenation(xss) <==> exists k :: 0 <= k < |xss| && x in xss[k]
    decreases |xss|
  {
    if xss != [] {
      var init := xss[..|xss| - 1];
      ConcatenationMembers(init, x);
      if exists k :: 0 <= k < |xss| && x in xss[k] {
        var k :| 0 <= k < |xss| && x in xss[k];
        if k < |init| {
          assert x in init[k];
        }
      }
      if exists k :: 0 <= k < |init| && x in init[k] {
        var k :| 0 <= k < |init| && x in init[k];
        assert x in xss[k];
      }
    }
  }

  /** The data frames of a list of fragments that holds no error marker. */
  function FramesOf(objs: seq<Fragment>): (ts: seq<Table>)
    requires ErrorMarker !in objs
    ensures |ts| == |objs| && forall i :: 0 <= i < |objs| ==> objs[i] == Frame(ts[i])
  {
    assert forall i :: 0 <= i < |objs| ==> objs[i] in objs && objs[i].Frame?;
    seq(|objs|, i requires 0 <= i < |objs| => objs[i].table)
  }

  function RowLists(ts: seq<Table>): seq<seq<Row>> {
    seq(|ts|, i requires 0 <= i < |ts| => ts[i].rows)
  }

  function ColumnLists(ts: seq<Table>): seq<seq<string>> {
    seq(|ts|, i requires 0 <= i < |ts| => ts[i].columns)
  }

  /** `pd.concat(objs, ignore_index=True)`: the records of every frame in
      order under a fresh index, with the union of their column labels in
      order of first appearance. An empty list raises ValueError and a
      non-frame (the decoder's error marker) raises TypeError. */
  function Concat(objs: seq<Fragment>): (r: Result<Table>)
    ensures r.Ok? <==> objs != [] && ErrorMarker !in objs
    ensures objs == [] ==> r == Raised(NothingToConcat)
    ensures objs != [] && ErrorMarker in objs ==> r == Raised(ConcatTypeError)
  {
    if objs == [] then Raised(NothingToConcat)
    else if ErrorMarker in objs then Raised(ConcatTypeError)
    else
      var ts := FramesOf(objs);
      Ok(Table(Unique(Concatenation(ColumnLists(ts))), Concatenation(RowLists(ts))))
  }

  /** A successful concat holds as many records as its frames together, each
      frame's records in one block, in order; its columns are those of the frames. */
  lemma ConcatContents(objs: seq<Fragment>, t: Table)
    requires Concat(objs) == Ok(t)
    ensures |t.rows| == TotalLength(RowLists(FramesOf(objs)))
    ensures forall k :: 0 <= k < |objs| ==>
      var before := TotalLength(RowLists(FramesOf(objs))[..k]);
      before + |objs[k].table.rows| <= |t.rows| &&
      t.rows[before..before + |objs[k].table.rows|] == objs[k].table.rows
    ensures t.columns == Unique(Concatenation(ColumnLists(FramesOf(objs))))
    ensures Distinct(t.columns)
    ensures forall c :: c in t.columns <==> exists k :: 0 <= k < |objs| && c in objs[k].table.columns
  {
    var ts := FramesOf(objs);
    ConcatenationLength(RowLists(ts));
    forall k | 0 <= k < |objs|
      ensures var before := TotalLength(RowLists(ts)[..k]);
        before + |objs[k].table.rows| <= |t.rows| &&
        t.rows[before..before + |objs[k].table.rows|] == objs[k].table.rows
    {
      ConcatenationSlice(RowLists(ts), k);
    }
    forall c ensures c in t.columns <==> exists k :: 0 <= k < |objs| && c in objs[k].table.columns {
      ConcatenationMembers(ColumnLists(ts), c);
      if exists k :: 0 <= k < |objs| && c in objs[k].table.columns {
        var k :| 0 <= k < |objs| && c in objs[k].table.columns;
        assert c in ColumnLists(ts)[k];
      }
    }
  }
}
