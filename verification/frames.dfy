/** The tables of the reconciliation pipeline and the (Country, Year) ordering that
    `sort_values(by=['Country', 'Year'])` imposes on them. */
module Frames {
  import opened Wrappers
  import opened Seqs

  /** A row of the competition spreadsheet, restricted to the four columns the pipeline
      selects; the metric is "9.4.1 - Annual CO2 emissions per GDP (kg per international-$)". */
  datatype CompetitionRecord = CompetitionRecord(
    country: string, code: Option<string>, year: Option<int>, emissionsPerGdp: Option<real>)

  /** A row of the supplementary OWID table, restricted to `country`, `year`, `iso_code`
      and `co2_per_gdp`. */
  datatype SupplementaryRecord = SupplementaryRecord(
    country: string, year: Option<int>, isoCode: Option<string>, co2PerGdp: Option<real>)

  /** The common schema both sources are renamed onto: Country, Code, Year and the metric. */
  datatype Row = Row(country: string, code: Option<string>, year: Option<int>, value: Option<real>)

  /** Column selection of the competition table (its columns already carry the common names). */
  function FromCompetition(c: CompetitionRecord): Row
  {
    Row(c.country, c.code, c.year, c.emissionsPerGdp)
  }

  /** Column selection and renaming of the supplementary table:
      country -> Country, iso_code -> Code, year -> Year, co2_per_gdp -> the metric. */
  function FromSupplementary(s: SupplementaryRecord): Row
  {
    Row(s.country, s.isoCode, s.year, s.co2PerGdp)
  }

  /** The competition table in the common schema, row for row. */
  function CompetitionFrame(comp: seq<CompetitionRecord>): (f: seq<Row>)
    ensures |f| == |comp|
    ensures forall i :: 0 <= i < |f| ==>
      f[i].country == comp[i].country && f[i].code == comp[i].code &&
      f[i].year == comp[i].year && f[i].value == comp[i].emissionsPerGdp
  {
    seq(|comp|, i requires 0 <= i < |comp| => FromCompetition(comp[i]))
  }

  /** The supplementary table in the common schema, row for row. */
  function SupplementaryFrame(supp: seq<SupplementaryRecord>): (f: seq<Row>)
    ensures |f| == |supp|
    ensures forall i :: 0 <= i < |f| ==>
      f[i].country == supp[i].country && f[i].code == supp[i].isoCode &&
      f[i].year == supp[i].year && f[i].value == supp[i].co2PerGdp
  {
    seq(|supp|, i requires 0 <= i < |supp| => FromSupplementary(supp[i]))
  }

  /** A calendar date; `ds` values are midnight at the start of the day. */
  datatype Date = Date(year: int, month: int, day: int)

  /** A row of the frame handed to Prophet: the common schema plus `ds`, with the metric
      column renamed to `y`. A missing `ds` is NaT. */
  datatype ProphetRow = ProphetRow(
    country: string, code: Option<string>, year: Option<int>, y: Option<real>, ds: Option<Date>)

  /** Dropping `ds` and renaming `y` back gives the common-schema row a Prophet row was built from. */
  function RowOf(o: ProphetRow): Row
  {
    Row(o.country, o.code, o.year, o.y)
  }

  function RowsOf(out: seq<ProphetRow>): (rows: seq<Row>)
    ensures |rows| == |out|
    ensures forall i :: 0 <= i < |out| ==> rows[i] == RowOf(out[i])
  {
    seq(|out|, i requires 0 <= i < |out| => RowOf(out[i]))
  }

  // ---------------------------------------------------------------------------
  // Ordering

  /** Python's `<=` on `str`: lexicographic by code point, a proper prefix first. */
  predicate StrLe(a: string, b: string)
    decreases |a|
  {
    |a| == 0 || (|b| > 0 && (a[0] < b[0] || (a[0] == b[0] && StrLe(a[1..], b[1..]))))
  }

  lemma {:induction false} StrLeRefl(a: string)
    ensures StrLe(a, a)
    decreases |a|
  {
    if |a| > 0 {
      StrLeRefl(a[1..]);
    }
  }

  lemma {:induction false} StrLeTotal(a: string, b: string)
    ensures StrLe(a, b) || StrLe(b, a)
    decreases |a|
  {
    if |a| > 0 && |b| > 0 && a[0] == b[0] {
      StrLeTotal(a[1..], b[1..]);
    }
  }

  lemma {:induction false} StrLeTrans(a: string, b: string, c: string)
    requires StrLe(a, b) && StrLe(b, c)
    ensures StrLe(a, c)
    decreases |a|
  {
    if |a| > 0 && a[0] == b[0] && b[0] == c[0] {
      StrLeTrans(a[1..], b[1..], c[1..]);
    }
  }

  lemma {:induction false} StrLeAntisym(a: string, b: string)
    requires StrLe(a, b) && StrLe(b, a)
    ensures a == b
    decreases |a|
  {
    if |a| > 0 {
      StrLeAntisym(a[1..], b[1..]);
      assert a == [a[0]] + a[1..] && b == [b[0]] + b[1..];
    }
  }

  /** Ascending order on the Year column with NaN placed last (`na_position='last'`). */
  predicate YearLe(x: Option<int>, y: Option<int>)
  {
    match x
    case None => y.None?
    case Some(a) => y.None? || a <= y.value
  }

  /** The sort key order of `sort_values(by=['Country', 'Year'])`: by Country, then by Year. */
  predicate KeyLe(x: Row, y: Row)
  {
    if x.country == y.country then YearLe(x.year, y.year) else StrLe(x.country, y.country)
  }

  /** Two rows that the sort cannot tell apart. */
  predicate SameKey(x: Row, y: Row)
  {
    x.country == y.country && x.year == y.year
  }

  /** `KeyLe` is a total preorder whose ties are exactly the rows with the same key. */
  lemma KeyLeTotalPreorder(x: Row, y: Row, z: Row)
    ensures KeyLe(x, x)
    ensures KeyLe(x, y) || KeyLe(y, x)
    ensures KeyLe(x, y) && KeyLe(y, z) ==> KeyLe(x, z)
    ensures KeyLe(x, y) && KeyLe(y, x) <==> SameKey(x, y)
  {
    StrLeTotal(x.country, y.country);
    if KeyLe(x, y) && KeyLe(y, z) {
      if x.country != y.country && y.country != z.country {
        StrLeTrans(x.country, y.country, z.country);
        if x.country == z.country {
          StrLeAntisym(x.country, y.country);
        }
      }
    }
    if KeyLe(x, y) && KeyLe(y, x) && x.country != y.country {
      StrLeAntisym(x.country, y.country);
    }
  }

  /** Ascending by (Country, Year) at every pair of positions. */
  ghost predicate SortedByKey(s: seq<Row>)
  {
    Pairwise(s, KeyLe)
  }

  /** The rows of `s` that carry key `k`'s Country and Year. */
  function WithKeyOf(k: Row): Row -> bool
  {
    r => SameKey(r, k)
  }

  /** Inserts `x` before the first row it does not follow. */
  function Insert(x: Row, s: seq<Row>): (r: seq<Row>)
    ensures multiset(r) == multiset(s) + multiset{x}
    ensures SortedByKey(s) ==> SortedByKey(r)
    decreases |s|
  {
    if |s| == 0 then [x]
    else if KeyLe(x, s[0]) then
      InsertFrontSorted(x, s);
      [x] + s
    else
      var t := Insert(x, s[1..]);
      assert s == [s[0]] + s[1..];
      InsertConsSorted(x, s, t);
      [s[0]] + t
  }

  lemma InsertFrontSorted(x: Row, s: seq<Row>)
    requires |s| > 0 && KeyLe(x, s[0])
    ensures SortedByKey(s) ==> SortedByKey([x] + s)
  {
    if SortedByKey(s) {
      var r := [x] + s;
      forall i, j | 0 <= i < j < |r| ensures KeyLe(r[i], r[j]) {
        if i == 0 && j > 1 {
          KeyLeTotalPreorder(x, s[0], s[j - 1]);
        }
      }
    }
  }

  lemma InsertConsSorted(x: Row, s: seq<Row>, t: seq<Row>)
    requires |s| > 0 && !KeyLe(x, s[0])
    requires multiset(t) == multiset(s[1..]) + multiset{x}
    requires SortedByKey(s[1..]) ==> SortedByKey(t)
    ensures SortedByKey(s) ==> SortedByKey([s[0]] + t)
  {
    if SortedByKey(s) {
      assert SortedByKey(s[1..]) by {
        forall i, j | 0 <= i < j < |s[1..]| ensures KeyLe(s[1..][i], s[1..][j]) {
          assert s[1..][i] == s[i + 1] && s[1..][j] == s[j + 1];
        }
      }
      var r := [s[0]] + t;
      forall i, j | 0 <= i < j < |r| ensures KeyLe(r[i], r[j]) {
        if i == 0 {
          var y := t[j - 1];
          assert y in multiset(t);
          if y == x {
            KeyLeTotalPreorder(x, s[0], x);
          } else {
            assert y in multiset(s[1..]);
            var k :| 0 <= k < |s[1..]| && s[1..][k] == y;
            assert s[k + 1] == y;
          }
        } else {
          assert r[i] == t[i - 1] && r[j] == t[j - 1];
        }
      }
    }
  }

  /** `sort_values(by=['Country', 'Year'])`: pandas sorts on several columns with a stable
      lexicographic sort, modelled here as insertion sort. */
  function SortByCountryYear(s: seq<Row>): (r: seq<Row>)
    ensures multiset(r) == multiset(s)
    ensures SortedByKey(r)
    decreases |s|
  {
    if |s| == 0 then []
    else
      assert s == [s[0]] + s[1..];
      Insert(s[0], SortByCountryYear(s[1..]))
  }

  /** Inserting a row adds it in front of the rows with its key and leaves their order alone. */
  lemma {:induction false} InsertStable(x: Row, s: seq<Row>, k: Row)
    ensures Filter(Insert(x, s), WithKeyOf(k)) ==
      (if SameKey(x, k) then [x] + Filter(s, WithKeyOf(k)) else Filter(s, WithKeyOf(k)))
    decreases |s|
  {
    var p := WithKeyOf(k);
    if |s| == 0 {
      assert Filter([x], p) == if p(x) then [x] + Filter([], p) else Filter([], p);
    } else if KeyLe(x, s[0]) {
      assert ([x] + s)[0] == x && ([x] + s)[1..] == s;
    } else {
      var t := Insert(x, s[1..]);
      InsertStable(x, s[1..], k);
      assert ([s[0]] + t)[0] == s[0] && ([s[0]] + t)[1..] == t;
      KeyLeTotalPreorder(x, s[0], x);
      if SameKey(x, k) {
        assert !p(s[0]);
      }
    }
  }

  /** The sort is stable: rows with equal (Country, Year) keep their relative order. */
  lemma {:induction false} SortStable(s: seq<Row>, k: Row)
    ensures Filter(SortByCountryYear(s), WithKeyOf(k)) == Filter(s, WithKeyOf(k))
    decreases |s|
  {
    if |s| > 0 {
      SortStable(s[1..], k);
      InsertStable(s[0], SortByCountryYear(s[1..]), k);
    }
  }
}
