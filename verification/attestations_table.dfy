/** The attestation table: the filter, sort and paginate pipeline that picks
    the rows on screen, the page-navigation clamps, and the helpers that
    turn a record into cell text. */
module AttestationsTable {
  import opened Optional
  import opened AttestationTypes
  import opened Seqs
  import opened Sorting
  import JsText
  import Numerals

  /** `decodedData[column]`: undefined for a column that is not a schema
      field. */
  function Cell(a: Attestation, column: string): (r: Option<Value>)
    ensures FieldNamed(column).None? ==> r.None?
    ensures forall f: Field :: column == FieldName(f) ==> r == Get(a.decodedData, f)
  {
    match FieldNamed(column)
    case Some(f) =>
      assert forall g: Field :: column == FieldName(g) ==> g == f by {
        forall g: Field | column == FieldName(g) ensures g == f {
          SchemaFieldsComplete(g);
        }
      }
      Get(a.decodedData, f)
    case None => None
  }

  /** `String(value)`; an array joins its elements with commas and a plain
      object prints as `[object Object]`. */
  function JsString(v: Option<Value>): (r: string)
    ensures v.Some? && v.value.Str? ==> r == v.value.s
    ensures v.None? ==> r == "undefined"
  {
    match v
    case None => "undefined"
    case Some(Num(n)) => JsText.IntToString(n)
    case Some(NaN) => "NaN"
    case Some(Str(s)) => s
    case Some(Strs(items)) => Join(items, ",")
    case Some(BigNumber(_)) => "[object Object]"
  }

  // ---------------------------------------------------------------- filter

  /** The row's column text contains the filter value, ignoring case. */
  predicate Matches(a: Attestation, column: string, value: string)
  {
    JsText.IncludesIgnoringCase(JsString(Cell(a, column)), value)
  }

  /** The filter step: no filter unless both a column and a value are set. */
  function FilterRows(rows: seq<Attestation>, column: string, value: string): (r: seq<Attestation>)
    ensures |r| <= |rows|
  {
    if column == "" || value == "" then rows
    else Filter(rows, a => Matches(a, column, value))
  }

  /** An empty filter column or value lets every row through. */
  lemma FilterRowsInactive(rows: seq<Attestation>, column: string, value: string)
    requires column == "" || value == ""
    ensures FilterRows(rows, column, value) == rows
  {
  }

  /** A row is kept exactly when it is an input row that matches, and a
      matching row is kept as many times as it occurs. */
  lemma FilterRowsMembers(rows: seq<Attestation>, column: string, value: string, a: Attestation)
    requires column != "" && value != ""
    ensures a in FilterRows(rows, column, value) <==> a in rows && Matches(a, column, value)
    ensures multiset(FilterRows(rows, column, value))[a] == if Matches(a, column, value) then multiset(rows)[a] else 0
  {
    var r := FilterRows(rows, column, value);
    FilterCounts(rows, a => Matches(a, column, value), a);
    if a in r {
      var i :| 0 <= i < |r| && r[i] == a;
    }
    if a in rows && Matches(a, column, value) {
      var i :| 0 <= i < |rows| && rows[i] == a;
    }
  }

  /** The kept rows are in their input order. */
  lemma FilterRowsSubsequence(rows: seq<Attestation>, column: string, value: string)
    ensures IsSubsequence(FilterRows(rows, column, value), rows)
  {
    if column == "" || value == "" {
      FilterIsSubsequence(rows, (a: Attestation) => true);
      FilterKeepsAll(rows, (a: Attestation) => true);
    } else {
      FilterIsSubsequence(rows, a => Matches(a, column, value));
    }
  }

  lemma FilterRowsIdempotent(rows: seq<Attestation>, column: string, value: string)
    ensures FilterRows(FilterRows(rows, column, value), column, value) == FilterRows(rows, column, value)
  {
    if column != "" && value != "" {
      FilterIdempotent(rows, a => Matches(a, column, value));
    }
  }

  // ------------------------------------------------------------------ sort

  /** What the comparator compares a row by. */
  function SortKeyOf(a: Attestation, column: string): SortKey
  {
    if column == "" then Missing
    else match Cell(a, column)
      case Some(Num(n)) => NumKey(n)
      case Some(Str(s)) => StrKey(s)
      case _ => Missing
  }

  /** The sort step. */
  function SortRows(rows: seq<Attestation>, column: string, d: Direction): (r: seq<Attestation>)
    ensures |r| == |rows|
    ensures multiset(r) == multiset(rows)
  {
    SortBy(rows, a => SortKeyOf(a, column), d)
  }

  /** Two cells the relational `<` compares as the model does: numbers,
      strings, or an undefined cell (which compares false either way). */
  predicate Comparable(x: Option<Value>, y: Option<Value>)
  {
    x.None? || y.None? || (x.value.Num? && y.value.Num?) || (x.value.Str? && y.value.Str?)
  }

  /** `x < y` on two comparable cells. */
  predicate JsLess(x: Option<Value>, y: Option<Value>)
    requires Comparable(x, y)
  {
    if x.None? || y.None? then false
    else if x.value.Num? then x.value.n < y.value.n
    else JsText.StrLt(x.value.s, y.value.s)
  }

  /** The table's comparator. */
  function Compare(a: Attestation, b: Attestation, column: string, d: Direction): int
    requires column == "" || Comparable(Cell(a, column), Cell(b, column))
  {
    if column == "" then 0
    else
      var x, y := Cell(a, column), Cell(b, column);
      if JsLess(x, y) then (if d == Asc then -1 else 1)
      else if JsLess(y, x) then (if d == Asc then 1 else -1)
      else 0
  }

  /** A column on which the comparator is consistent: empty, or holding
      cells of one kind in every row. */
  predicate UniformColumn(rows: seq<Attestation>, column: string)
  {
    column == ""
    || (forall i :: 0 <= i < |rows| ==> Cell(rows[i], column).None?)
    || (forall i :: 0 <= i < |rows| ==> Cell(rows[i], column).Some? && Cell(rows[i], column).value.Num?)
    || (forall i :: 0 <= i < |rows| ==> Cell(rows[i], column).Some? && Cell(rows[i], column).value.Str?)
  }

  predicate SameKind(x: Option<Value>, y: Option<Value>)
  {
    (x.None? && y.None?)
    || (x.Some? && y.Some? && x.value.Num? && y.value.Num?)
    || (x.Some? && y.Some? && x.value.Str? && y.value.Str?)
  }

  /** On cells of one kind the comparator is the three-way comparison of
      the sort keys: negative exactly when `a` goes first, positive exactly
      when `b` does, zero exactly when the keys are equal. */
  lemma CompareMatchesKeys(a: Attestation, b: Attestation, column: string, d: Direction)
    requires column == "" || SameKind(Cell(a, column), Cell(b, column))
    ensures column == "" || Comparable(Cell(a, column), Cell(b, column))
    ensures Compare(a, b, column, d) < 0 <==> Precedes(d, SortKeyOf(a, column), SortKeyOf(b, column))
    ensures Compare(a, b, column, d) > 0 <==> Precedes(d, SortKeyOf(b, column), SortKeyOf(a, column))
    ensures Compare(a, b, column, d) == 0 <==> SortKeyOf(a, column) == SortKeyOf(b, column)
  {
    var ka, kb := SortKeyOf(a, column), SortKeyOf(b, column);
    KeyLtIrreflexive(ka);
    KeyLtTotal(ka, kb);
    if KeyLt(ka, kb) {
      PrecedesAsymmetric(Asc, ka, kb);
    }
    if KeyLt(kb, ka) {
      PrecedesAsymmetric(Asc, kb, ka);
    }
  }

  /** Rows of a uniform column have cells of one kind pairwise. */
  lemma UniformSameKind(rows: seq<Attestation>, column: string, a: Attestation, b: Attestation)
    requires UniformColumn(rows, column) && a in rows && b in rows
    ensures column == "" || SameKind(Cell(a, column), Cell(b, column))
  {
    var i :| 0 <= i < |rows| && rows[i] == a;
    var j :| 0 <= j < |rows| && rows[j] == b;
  }

  /** Sorting a uniform column orders the rows as the comparator asks:
      no row is placed after one the comparator puts behind it. */
  lemma SortRowsOrdered(rows: seq<Attestation>, column: string, d: Direction)
    requires UniformColumn(rows, column)
    ensures forall i, j :: 0 <= i < j < |SortRows(rows, column, d)| ==>
      (column == "" || Comparable(Cell(SortRows(rows, column, d)[i], column), Cell(SortRows(rows, column, d)[j], column)))
      && Compare(SortRows(rows, column, d)[i], SortRows(rows, column, d)[j], column, d) <= 0
  {
    var r := SortRows(rows, column, d);
    var key := (a: Attestation) => SortKeyOf(a, column);
    SortBySorted(rows, key, d);
    forall i, j | 0 <= i < j < |r|
      ensures (column == "" || Comparable(Cell(r[i], column), Cell(r[j], column)))
        && Compare(r[i], r[j], column, d) <= 0
    {
      assert r[i] in multiset(rows) && r[j] in multiset(rows);
      UniformSameKind(rows, column, r[i], r[j]);
      CompareMatchesKeys(r[i], r[j], column, d);
      assert !Precedes(d, key(r[j]), key(r[i]));
    }
  }

  /** Rows the comparator ties keep their relative order. */
  lemma SortRowsStable(rows: seq<Attestation>, column: string, d: Direction, k: SortKey)
    ensures Filter(SortRows(rows, column, d), HasKey(a => SortKeyOf(a, column), k))
         == Filter(rows, HasKey(a => SortKeyOf(a, column), k))
  {
    SortByStable(rows, a => SortKeyOf(a, column), d, k);
  }

  /** Without a sort column the order is unchanged. */
  lemma SortRowsNoColumn(rows: seq<Attestation>, d: Direction)
    ensures SortRows(rows, "", d) == rows
  {
    SortBySameKeys(rows, a => SortKeyOf(a, ""), d, Missing);
  }

  /** The sort direction button. */
  function Toggle(d: Direction): (r: Direction)
    ensures r != d
  {
    match d
    case Asc => Desc
    case Desc => Asc
  }

  function DirectionLabel(d: Direction): string
  {
    match d
    case Asc => "Asc ▲"
    case Desc => "Desc ▼"
  }

  lemma ToggleInvolutive(d: Direction)
    ensures Toggle(Toggle(d)) == d
    ensures DirectionLabel(Toggle(d)) != DirectionLabel(d)
  {
  }

  // ------------------------------------------------------------ pagination

  /** The rows of page `page` (counting from 1) with `perPage` rows a page. */
  function Page(rows: seq<Attestation>, page: int, perPage: int): seq<Attestation>
  {
    Slice(rows, (page - 1) * perPage, page * perPage)
  }

  function Min(a: int, b: int): int { if a < b then a else b }

  lemma MulMono(a: int, b: int, n: int)
    requires a <= b && n >= 0
    ensures a * n <= b * n
  {
  }

  /** Page `p` holds the rows at positions `(p-1)·n` up to `p·n`, so at
      most `n` of them. */
  lemma PageContents(rows: seq<Attestation>, page: int, perPage: int)
    requires page >= 1 && perPage >= 1
    ensures Page(rows, page, perPage)
         == rows[Min((page - 1) * perPage, |rows|)..Min(page * perPage, |rows|)]
    ensures |Page(rows, page, perPage)| <= perPage
  {
    MulMono(page - 1, page, perPage);
    MulMono(0, page - 1, perPage);
    assert page * perPage == (page - 1) * perPage + perPage;
  }

  /** `Math.ceil(len / perPage)`. */
  function TotalPages(len: nat, perPage: int): (r: nat)
    requires perPage >= 1
    ensures len == 0 ==> r == 0
    ensures len > 0 ==> (r - 1) * perPage < len <= r * perPage
  {
    var q := (len + perPage - 1) / perPage;
    var m := (len + perPage - 1) % perPage;
    assert len + perPage - 1 == q * perPage + m;
    assert (q - 1) * perPage == q * perPage - perPage;
    q
  }

  /** Pages 1 to `k`, one after the other. */
  function Pages(rows: seq<Attestation>, perPage: int, k: nat): seq<Attestation>
  {
    if k == 0 then [] else Pages(rows, perPage, k - 1) + Page(rows, k, perPage)
  }

  lemma {:induction false} PagesArePrefix(rows: seq<Attestation>, perPage: int, k: nat)
    requires perPage >= 1
    ensures Pages(rows, perPage, k) == rows[..Min(k * perPage, |rows|)]
  {
    if k > 0 {
      PagesArePrefix(rows, perPage, k - 1);
      PageContents(rows, k, perPage);
      MulMono(k - 1, k, perPage);
      var a, b := Min((k - 1) * perPage, |rows|), Min(k * perPage, |rows|);
      assert rows[..a] + rows[a..b] == rows[..b];
    }
  }

  /** Going through every page shows every row once, in order. */
  lemma PagesReassemble(rows: seq<Attestation>, perPage: int)
    requires perPage >= 1
    ensures Pages(rows, perPage, TotalPages(|rows|, perPage)) == rows
  {
    PagesArePrefix(rows, perPage, TotalPages(|rows|, perPage));
  }

  /** The Previous button. */
  function PreviousPage(current: int): int
  {
    if 1 > current - 1 then 1 else current - 1
  }

  /** The Next button. */
  function NextPage(current: int, totalPages: int): int
  {
    if totalPages < current + 1 then totalPages else current + 1
  }

  /** Previous never goes below page 1, Next never beyond the last page,
      and from a page in range both stay in range, one step at most. */
  lemma NavigationStaysInRange(current: int, totalPages: int)
    ensures PreviousPage(current) >= 1
    ensures NextPage(current, totalPages) <= totalPages
    ensures 1 <= current <= totalPages ==>
      1 <= PreviousPage(current) <= current <= NextPage(current, totalPages) <= totalPages
      && current - PreviousPage(current) <= 1 && NextPage(current, totalPages) - current <= 1
  {
  }

  /** With no rows there are no pages and Next goes to page 0, which shows
      nothing whatever the rows are. */
  lemma NextWithoutPages(rows: seq<Attestation>, perPage: int)
    requires perPage >= 1
    ensures NextPage(1, TotalPages(0, perPage)) == 0
    ensures Page(rows, 0, perPage) == []
  {
  }

  // ---------------------------------------------------------- presentation

  /** The table headers. */
  function PrettyLabel(f: Field): string
  {
    match f
    case BatchId => "Batch ID"
    case Timestamp => "Timestamp"
    case Attester => "Attester"
    case Stage => "Stage"
    case Location => "Location"
    case Certifications => "Certifications"
    case Details => "Details"
    case PreviousAttestationId => "Previous Attestation ID"
  }

  function GetPrettyColumnName(column: string): (r: string)
    ensures FieldNamed(column).None? ==> r == column
    ensures r != ""
       || (column == "" && FieldNamed(column).None?)
  {
    match FieldNamed(column)
    case Some(f) => PrettyLabel(f)
    case None => column
  }

  /** Every schema field has its own fixed label, and any other column is
      shown under its own name. */
  lemma PrettyColumnNames(column: string)
    ensures forall f: Field :: GetPrettyColumnName(FieldName(f)) == PrettyLabel(f)
    ensures forall f, g: Field :: f != g ==> PrettyLabel(f) != PrettyLabel(g)
    ensures (forall f: Field :: column != FieldName(f)) ==> GetPrettyColumnName(column) == column
  {
    forall f: Field
      ensures GetPrettyColumnName(FieldName(f)) == PrettyLabel(f)
    {
      SchemaFieldsComplete(f);
    }
  }

  /** The ID cell: the first eight characters, `...`, the last six. */
  function AbbreviateId(id: string): (r: string)
    ensures var head, tail := Min(8, |id|), Min(6, |id|);
      |r| == head + 3 + tail
      && r[..head] == id[..head]
      && r[head..head + 3] == "..."
      && r[head + 3..] == id[|id| - tail..]
  {
    var head := Slice(id, 0, 8);
    var tail := Slice(id, -6, |id|);
    assert head == id[..Min(8, |id|)];
    assert tail == id[|id| - Min(6, |id|)..];
    var r := head + "..." + tail;
    assert r[..|head|] == head;
    assert r[|head|..|head| + 3] == "...";
    assert r[|head| + 3..] == tail;
    r
  }

  /** An id of at least fourteen characters is shown as seventeen. */
  lemma AbbreviateLongId(id: string)
    requires |id| >= 14
    ensures AbbreviateId(id) == id[..8] + "..." + id[|id| - 6..]
  {
    var r := AbbreviateId(id);
    assert r == r[..8] + r[8..11] + r[11..];
  }

  /** The largest time value a JavaScript `Date` holds, in milliseconds. */
  const MaxTimeValue: int := 8_640_000_000_000_000

  /** The `timestamp` cell text: `None` where `format` throws on an
      invalid date. */
  function FormatTimestamp(seconds: Value, formatDate: int -> string): (r: Option<string>)
    ensures r.Some? <==> seconds.Num? && -MaxTimeValue <= seconds.n * 1000 <= MaxTimeValue
    ensures r.Some? ==> r.value == formatDate(seconds.n * 1000)
  {
    if seconds.Num? && -MaxTimeValue <= seconds.n * 1000 <= MaxTimeValue then
      Some(formatDate(seconds.n * 1000))
    else None
  }

  /** `JSON.stringify` of a string. */
  function JsonQuote(s: string): string
  {
    "\"" + JsonEscape(s) + "\""
  }

  function JsonEscape(s: string): string
    decreases |s|
  {
    if |s| == 0 then "" else JsonEscapeChar(s[0]) + JsonEscape(s[1..])
  }

  function JsonEscapeChar(c: char): string
  {
    if c == '"' then "\\\""
    else if c == '\\' then "\\\\"
    else if c == '\U{8}' then "\\b"
    else if c == '\U{C}' then "\\f"
    else if c == '\n' then "\\n"
    else if c == '\r' then "\\r"
    else if c == '\t' then "\\t"
    else if c < ' ' then
      "\\u00" + [Numerals.DigitChar(c as int / 16), Numerals.DigitChar(c as int % 16)]
    else [c]
  }

  /** `JSON.stringify` of an array of strings. */
  function JsonArray(items: seq<string>): (r: string)
    ensures |r| >= 2 && r[0] == '[' && r[|r| - 1] == ']'
  {
    "[" + Join(Map(items, JsonQuote), ",") + "]"
  }

  /** `renderValue` as written: an array is an object, so it is printed as
      JSON and the branch that joins it is never reached. */
  function RenderValue(column: string, v: Option<Value>, formatDate: int -> string): (r: Option<string>)
    ensures column != "timestamp" ==> r.Some?
    ensures v.Some? && v.value.BigNumber? ==> r == Some(v.value.hex)
    ensures v.Some? && v.value.Strs? ==> r == Some(JsonArray(v.value.items))
    ensures v.Some? && v.value.Str? ==> r == Some(v.value.s)
  {
    match v
    case Some(x) =>
      if column == "timestamp" && (x.Num? || x.NaN?) then FormatTimestamp(x, formatDate)
      else if x.BigNumber? then Some(x.hex)
      else if x.Strs? then Some(JsonArray(x.items))
      else Some(JsString(v))
    case None => Some(JsString(v))
  }

  /** `renderValue` with the array test before the object test, so a list
      of certifications reads `a, b`. */
  function RenderValueIntended(column: string, v: Option<Value>, formatDate: int -> string): (r: Option<string>)
    ensures column != "timestamp" ==> r.Some?
    ensures v.Some? && v.value.Strs? ==> r == Some(Join(v.value.items, ", "))
  {
    match v
    case Some(Strs(items)) => Some(Join(items, ", "))
    case Some(x) =>
      if column == "timestamp" && (x.Num? || x.NaN?) then FormatTimestamp(x, formatDate)
      else if x.BigNumber? then Some(x.hex)
      else Some(JsString(v))
    case None => Some(JsString(v))
  }

  /** The intended rendering differs from the written one only on arrays. */
  lemma RenderValueIntendedAgreesOffArrays(column: string, v: Option<Value>, formatDate: int -> string)
    requires !(v.Some? && v.value.Strs?)
    ensures RenderValueIntended(column, v, formatDate) == RenderValue(column, v, formatDate)
  {
  }

  /** Two certifications are shown as JSON text rather than joined. */
  lemma RenderValueShowsArraysAsJson(formatDate: int -> string)
    ensures RenderValue("certifications", Some(Strs(["a", "b"])), formatDate) == Some("[\"a\",\"b\"]")
    ensures RenderValueIntended("certifications", Some(Strs(["a", "b"])), formatDate) == Some("a, b")
  {
    var quoted := Map(["a", "b"], JsonQuote);
    assert JsonEscape("a"[1..]) == "" && JsonEscape("b"[1..]) == "";
    assert quoted[0] == "\"a\"" && quoted[1] == "\"b\"";
    assert quoted[1..] == ["\"b\""];
    assert Join(quoted, ",") == "\"a\"" + "," + "\"b\"";
    var items: seq<string> := ["a", "b"];
    assert items[1..] == ["b"];
    assert Join(items, ", ") == "a" + ", " + "b";
    assert "a" + ", " + "b" == "a, b";
    assert JsonArray(items) == "[" + ("\"a\"" + "," + "\"b\"") + "]";
    assert "[" + ("\"a\"" + "," + "\"b\"") + "]" == "[\"a\",\"b\"]";
  }

  // --------------------------------------------------------------- the view

  /** The table's state. */
  datatype TableState = TableState(
    filterColumn: string,
    filterValue: string,
    sortColumn: string,
    sortDirection: Direction,
    currentPage: int,
    itemsPerPage: int)

  /** The rows shown on screen, after filtering, sorting and pagination. */
  function VisibleRows(rows: seq<Attestation>, s: TableState): seq<Attestation>
  {
    Page(SortRows(FilterRows(rows, s.filterColumn, s.filterValue), s.sortColumn, s.sortDirection),
      s.currentPage, s.itemsPerPage)
  }

  function PageCount(rows: seq<Attestation>, s: TableState): nat
    requires s.itemsPerPage >= 1
  {
    TotalPages(|SortRows(FilterRows(rows, s.filterColumn, s.filterValue), s.sortColumn, s.sortDirection)|,
      s.itemsPerPage)
  }

  /** Every visible row is an input row passing the filter, a page holds at
      most `itemsPerPage` rows, and the pages together show every row that
      passes the filter, once each. */
  lemma VisibleRowsFacts(rows: seq<Attestation>, s: TableState)
    requires s.currentPage >= 1 && s.itemsPerPage >= 1
    ensures |VisibleRows(rows, s)| <= s.itemsPerPage
    ensures forall i :: 0 <= i < |VisibleRows(rows, s)| ==>
      VisibleRows(rows, s)[i] in rows
      && (s.filterColumn == "" || s.filterValue == "" || Matches(VisibleRows(rows, s)[i], s.filterColumn, s.filterValue))
    ensures PageCount(rows, s) == TotalPages(|FilterRows(rows, s.filterColumn, s.filterValue)|, s.itemsPerPage)
    ensures multiset(Pages(SortRows(FilterRows(rows, s.filterColumn, s.filterValue), s.sortColumn, s.sortDirection),
        s.itemsPerPage, PageCount(rows, s)))
      == multiset(FilterRows(rows, s.filterColumn, s.filterValue))
  {
    var filtered := FilterRows(rows, s.filterColumn, s.filterValue);
    var sorted := SortRows(filtered, s.sortColumn, s.sortDirection);
    var view := VisibleRows(rows, s);
    PageContents(sorted, s.currentPage, s.itemsPerPage);
    PagesReassemble(sorted, s.itemsPerPage);
    forall i | 0 <= i < |view|
      ensures view[i] in rows
      ensures s.filterColumn == "" || s.filterValue == "" || Matches(view[i], s.filterColumn, s.filterValue)
    {
      assert view[i] in sorted;
      assert view[i] in multiset(filtered);
      if s.filterColumn != "" && s.filterValue != "" {
        FilterRowsMembers(rows, s.filterColumn, s.filterValue, view[i]);
      }
    }
  }
}
