/**
  The attendance report: find the teacher and attendance columns by
  keyword (the last matching header wins) or by position, clean each
  attendance cell down to a number, read fractions as percentages, and
  list the teachers below 40%, lowest first.
 */
module Attendance {
  import opened Wrappers
  import opened Strings
  import opened Sheets
  import Sorting

  /** A sheet read with the default header row: each label as `str()` shows it, then the rows. */
  datatype Sheet = Sheet(columns: seq<string>, rows: seq<seq<Cell>>)

  const AttendanceKeys: seq<string> := ["посещ", "сред", "процент", "%", "присут", "avg"]
  const TeacherKeys: seq<string> := ["преподават", "учител", "фио", "преподав"]

  /** Teachers below this percentage are listed. */
  const Threshold: real := 40.0

  // ---------------------------------------------------------------------
  // Columns

  /** The last column whose lower-cased label contains one of `keys`. */
  function LastWith(cols: seq<string>, keys: seq<string>): (r: Option<nat>)
    ensures r.Some? ==> r.value < |cols| && ContainsAny(Lower(cols[r.value]), keys)
    ensures r.Some? ==> forall j :: r.value < j < |cols| ==> !ContainsAny(Lower(cols[j]), keys)
    ensures r.None? ==> forall j :: 0 <= j < |cols| ==> !ContainsAny(Lower(cols[j]), keys)
  {
    if cols == [] then None
    else if ContainsAny(Lower(cols[|cols| - 1]), keys) then Some(|cols| - 1)
    else LastWith(cols[..|cols| - 1], keys)
  }

  /** The header loop: both tests run on every column, so each role ends on its last match. */
  method FindColumns(cols: seq<string>) returns (teacher: Option<nat>, attendance: Option<nat>)
    ensures teacher == LastWith(cols, TeacherKeys)
    ensures attendance == LastWith(cols, AttendanceKeys)
  {
    teacher := None;
    attendance := None;
    for i := 0 to |cols|
      invariant teacher == LastWith(cols[..i], TeacherKeys)
      invariant attendance == LastWith(cols[..i], AttendanceKeys)
    {
      assert cols[..i + 1][..i] == cols[..i];
      var low := Lower(cols[i]);
      if ContainsAny(low, TeacherKeys) {
        teacher := Some(i);
      }
      if ContainsAny(low, AttendanceKeys) {
        attendance := Some(i);
      }
    }
    assert cols[..|cols|] == cols;
  }

  datatype Roles = Roles(teacher: nat, attendance: nat)

  /**
    The columns used: a missing teacher column falls back to the first
    column, a missing attendance column to the second (the first when there
    is only one). A sheet without columns has no roles: indexing its empty
    header list fails.
   */
  function ColumnRoles(cols: seq<string>): (r: Option<Roles>)
    ensures r.Some? <==> |cols| > 0
    ensures r.Some? ==> r.value.teacher < |cols| && r.value.attendance < |cols|
    ensures r.Some? && LastWith(cols, TeacherKeys).None? ==> r.value.teacher == 0
    ensures r.Some? && LastWith(cols, AttendanceKeys).None? ==>
      r.value.attendance == (if |cols| > 1 then 1 else 0)
  {
    if |cols| == 0 then None
    else
      var t := LastWith(cols, TeacherKeys);
      var a := LastWith(cols, AttendanceKeys);
      Some(Roles(if t.Some? then t.value else 0,
                 if a.Some? then a.value else if |cols| > 1 then 1 else 0))
  }

  // ---------------------------------------------------------------------
  // Cleaning an attendance cell

  /** The characters the regular expression `[^0-9,\.%-]` leaves in place. */
  predicate KeptByFilter(c: char) {
    IsDigit(c) || c == ',' || c == '.' || c == '%' || c == '-'
  }

  /** `re.sub(r"[^0-9,\.%-]", "", s)`. */
  function KeepNumeric(s: string): (r: string)
    ensures forall i :: 0 <= i < |r| ==> KeptByFilter(r[i])
  {
    if s == [] then [] else (if KeptByFilter(s[0]) then [s[0]] else []) + KeepNumeric(s[1..])
  }

  /** The cleaning chain: NBSP to space, drop all but the numeric characters, drop '%', ',' to '.'. */
  function Clean(s: string): string {
    ReplaceChar(ReplaceChar(KeepNumeric(ReplaceChar(s, '\U{A0}', " ")), '%', ""), ',', ".")
  }

  /** What the chain does to one character. */
  function CleanChar(c: char): string {
    if IsDigit(c) || c == '.' || c == '-' then [c]
    else if c == ',' then "."
    else []
  }

  /** The chain in a single pass over the text. */
  function CleanEach(s: string): (r: string)
    ensures forall i :: 0 <= i < |r| ==> IsDigit(r[i]) || r[i] == '.' || r[i] == '-'
  {
    if s == [] then [] else CleanChar(s[0]) + CleanEach(s[1..])
  }

  lemma {:induction false} ReplaceCharAppend(a: string, b: string, c: char, with: string)
    ensures ReplaceChar(a + b, c, with) == ReplaceChar(a, c, with) + ReplaceChar(b, c, with)
  {
    if a != [] {
      assert (a + b)[0] == a[0];
      assert (a + b)[1..] == a[1..] + b;
      ReplaceCharAppend(a[1..], b, c, with);
      var h := if a[0] == c then with else [a[0]];
      assert ReplaceChar(a + b, c, with) == h + ReplaceChar(a[1..] + b, c, with);
      assert ReplaceChar(a, c, with) == h + ReplaceChar(a[1..], c, with);
    } else {
      assert a + b == b;
    }
  }

  lemma {:induction false} KeepNumericAppend(a: string, b: string)
    ensures KeepNumeric(a + b) == KeepNumeric(a) + KeepNumeric(b)
  {
    if a != [] {
      assert (a + b)[0] == a[0];
      assert (a + b)[1..] == a[1..] + b;
      KeepNumericAppend(a[1..], b);
      var h := if KeptByFilter(a[0]) then [a[0]] else [];
      assert KeepNumeric(a + b) == h + KeepNumeric(a[1..] + b);
      assert KeepNumeric(a) == h + KeepNumeric(a[1..]);
    } else {
      assert a + b == b;
    }
  }

  lemma CleanAppend(a: string, b: string)
    ensures Clean(a + b) == Clean(a) + Clean(b)
  {
    var a1, b1 := ReplaceChar(a, '\U{A0}', " "), ReplaceChar(b, '\U{A0}', " ");
    ReplaceCharAppend(a, b, '\U{A0}', " ");
    var a2, b2 := KeepNumeric(a1), KeepNumeric(b1);
    KeepNumericAppend(a1, b1);
    var a3, b3 := ReplaceChar(a2, '%', ""), ReplaceChar(b2, '%', "");
    ReplaceCharAppend(a2, b2, '%', "");
    ReplaceCharAppend(a3, b3, ',', ".");
  }

  lemma CleanOne(c: char)
    ensures Clean([c]) == CleanChar(c)
  {
    assert [c][1..] == [];
    var c1 := if c == '\U{A0}' then ' ' else c;
    assert ReplaceChar([c], '\U{A0}', " ") == [c1];
    var k := if KeptByFilter(c1) then [c1] else [];
    assert KeepNumeric([c1]) == k by { assert [c1][1..] == []; }
    if KeptByFilter(c1) {
      var d := if c1 == '%' then "" else [c1];
      assert ReplaceChar([c1], '%', "") == d;
      if c1 != '%' {
        assert ReplaceChar([c1], ',', ".") == (if c1 == ',' then "." else [c1]);
      }
    }
  }

  /** The four-stage chain and the single pass agree on every text. */
  lemma {:induction false} CleanIsCleanEach(s: string)
    ensures Clean(s) == CleanEach(s)
  {
    if s != [] {
      CleanIsCleanEach(s[1..]);
      CleanOne(s[0]);
      assert s == [s[0]] + s[1..];
      CleanAppend([s[0]], s[1..]);
    }
  }

  lemma {:induction false} CleanEachAppend(a: string, b: string)
    ensures CleanEach(a + b) == CleanEach(a) + CleanEach(b)
  {
    if a != [] {
      assert (a + b)[0] == a[0];
      assert (a + b)[1..] == a[1..] + b;
      CleanEachAppend(a[1..], b);
      assert CleanEach(a + b) == CleanChar(a[0]) + CleanEach(a[1..] + b);
    } else {
      assert a + b == b;
    }
  }

  lemma {:induction false} CleanEachDigits(s: string)
    requires AllDigits(s)
    ensures CleanEach(s) == s
  {
    if s != [] {
      CleanEachDigits(s[1..]);
      assert s == [s[0]] + s[1..];
    }
  }

  lemma {:induction false} CleanEachDropsText(s: string)
    requires forall i :: 0 <= i < |s| ==> !KeptByFilter(s[i])
    ensures CleanEach(s) == []
  {
    if s != [] {
      CleanEachDropsText(s[1..]);
    }
  }

  /** The number a cell holds after cleaning; `None` is NaN. An empty cell reads as "nan" and cleans to "". */
  function ValueOf(c: Cell): (r: Option<real>)
    ensures c.Missing? ==> r.None?
  {
    assert CleanEach("nan") == [];
    CleanIsCleanEach("nan");
    ParseNumber(Clean(CellStr(c)))
  }

  /**
    A decimal written with a point or a comma, perhaps followed by a
    percent sign, amid letters and spaces ("Итого: 35,5 %"), reads as the
    decimal written with a point.
   */
  lemma ValueOfDecorated(before: string, whole: string, sep: char, frac: string, mark: string, after: string)
    requires AllDigits(whole) && AllDigits(frac) && |whole| > 0
    requires sep == '.' || sep == ','
    requires mark == "" || mark == "%"
    requires forall i :: 0 <= i < |before| ==> !KeptByFilter(before[i])
    requires forall i :: 0 <= i < |after| ==> !KeptByFilter(after[i])
    ensures ValueOf(Text(before + whole + [sep] + frac + mark + after)) == Some(DecimalValue(whole, frac))
  {
    var s := before + whole + [sep] + frac + mark + after;
    CleanDecorated(before, whole, sep, frac, mark, after);
    CleanIsCleanEach(s);
    var w := whole + "." + frac;
    assert Clean(CellStr(Text(s))) == w;
    assert w[0] == whole[0];
    assert IsDigit(whole[0]);
    assert ParseNumber(w) == ParseUnsigned(w);
    ParseUnsignedDecimal(whole, frac);
  }

  lemma CleanDecorated(before: string, whole: string, sep: char, frac: string, mark: string, after: string)
    requires AllDigits(whole) && AllDigits(frac)
    requires sep == '.' || sep == ','
    requires mark == "" || mark == "%"
    requires forall i :: 0 <= i < |before| ==> !KeptByFilter(before[i])
    requires forall i :: 0 <= i < |after| ==> !KeptByFilter(after[i])
    ensures CleanEach(before + whole + [sep] + frac + mark + after) == whole + "." + frac
  {
    CleanEachDropsText(before);
    CleanEachDigits(whole);
    CleanEachDigits(frac);
    CleanEachDropsText(after);
    assert CleanEach([sep]) == ".";
    assert CleanEach(mark) == [];
    var t1 := before + whole;
    CleanEachJoin(before, whole, [], whole);
    var t2 := t1 + [sep];
    CleanEachJoin(t1, [sep], whole, ".");
    var t3 := t2 + frac;
    CleanEachJoin(t2, frac, whole + ".", frac);
    var t4 := t3 + mark;
    CleanEachJoin(t3, mark, whole + "." + frac, []);
    CleanEachJoin(t4, after, whole + "." + frac, []);
  }

  lemma CleanEachJoin(a: string, b: string, x: string, y: string)
    requires CleanEach(a) == x && CleanEach(b) == y
    ensures CleanEach(a + b) == x + y
  {
    CleanEachAppend(a, b);
  }

  /** A value in [0, 1] is a fraction and reads as a percentage; any other value is kept. */
  function Normalise(v: real): (r: real)
    ensures 0.0 <= v <= 1.0 ==> r == v * 100.0
    ensures !(0.0 <= v <= 1.0) ==> r == v
  {
    if 0.0 <= v <= 1.0 then v * 100.0 else v
  }

  /** The threshold seen on the two scales: a fraction is listed below 0.4, anything else below 40. */
  lemma NormaliseBelowThreshold(v: real)
    ensures Normalise(v) < Threshold <==> (0.0 <= v < 0.4) || (v < 0.0) || (1.0 < v < 40.0)
  {
  }

  // ---------------------------------------------------------------------
  // Rows

  /** A listed teacher and their attendance in percent. */
  datatype Entry = Entry(name: string, pct: real)

  function PctOf(e: Entry): real {
    e.pct
  }

  /**
    What one row contributes: skipped when the name cell is empty or the
    attendance is not a number; listed below 40% under its stripped name
    (a name of blanks is kept, as an empty name).
   */
  function RowEntry(row: seq<Cell>, roles: Roles): Option<Entry> {
    var name := At(row, roles.teacher);
    if name.Missing? then None
    else
      match ValueOf(At(row, roles.attendance))
      case None => None
      case Some(v) =>
        if Normalise(v) < Threshold then Some(Entry(Strip(name.text), Normalise(v))) else None
  }

  function Listed(o: Option<Entry>): seq<Entry> {
    if o.Some? then [o.value] else []
  }

  /** The listed teachers, in row order. */
  function LowRows(rows: seq<seq<Cell>>, roles: Roles): seq<Entry> {
    if rows == [] then []
    else LowRows(rows[..|rows| - 1], roles) + Listed(RowEntry(rows[|rows| - 1], roles))
  }

  /** The row loop. */
  method CollectLow(rows: seq<seq<Cell>>, roles: Roles) returns (entries: seq<Entry>)
    ensures entries == LowRows(rows, roles)
  {
    entries := [];
    for i := 0 to |rows|
      invariant entries == LowRows(rows[..i], roles)
    {
      assert rows[..i + 1][..i] == rows[..i];
      var e := RowEntry(rows[i], roles);
      if e.Some? {
        entries := entries + [e.value];
      }
    }
    assert rows[..|rows|] == rows;
  }

  /** A row is listed exactly when its name cell is filled and its value, as a percentage, is below 40. */
  lemma RowEntryIff(row: seq<Cell>, roles: Roles)
    ensures RowEntry(row, roles).Some? <==>
      At(row, roles.teacher).Text?
      && ValueOf(At(row, roles.attendance)).Some?
      && Normalise(ValueOf(At(row, roles.attendance)).value) < Threshold
    ensures RowEntry(row, roles).Some? ==>
      RowEntry(row, roles).value
        == Entry(Strip(At(row, roles.teacher).text), Normalise(ValueOf(At(row, roles.attendance)).value))
  {
  }

  /** Every qualifying row is listed. */
  lemma {:induction false} LowRowsComplete(rows: seq<seq<Cell>>, roles: Roles, k: nat)
    requires k < |rows| && RowEntry(rows[k], roles).Some?
    ensures RowEntry(rows[k], roles).value in LowRows(rows, roles)
  {
    var init := rows[..|rows| - 1];
    if k < |rows| - 1 {
      assert init[k] == rows[k];
      LowRowsComplete(init, roles, k);
    }
  }

  /** Every listed entry comes from some row. */
  lemma {:induction false} LowRowsSound(rows: seq<seq<Cell>>, roles: Roles, e: Entry) returns (k: nat)
    requires e in LowRows(rows, roles)
    ensures k < |rows| && RowEntry(rows[k], roles) == Some(e)
  {
    var init := rows[..|rows| - 1];
    if e in LowRows(init, roles) {
      k := LowRowsSound(init, roles, e);
      assert rows[k] == init[k];
    } else {
      k := |rows| - 1;
    }
  }

  // ---------------------------------------------------------------------
  // The report

  function ItemLine(e: Entry): string {
    "• " + e.name + ": " + FormatOneDecimal(e.pct) + "%"
  }

  function ItemLines(es: seq<Entry>): (r: seq<string>)
    ensures |r| == |es|
    ensures forall i :: 0 <= i < |es| ==> r[i] == ItemLine(es[i])
  {
    seq(|es|, i requires 0 <= i < |es| => ItemLine(es[i]))
  }

  const Title: string := "📊 Отчет по посещаемости преподавателей:"
  const AllClear: string := "✅ Все преподаватели имеют посещаемость ≥ 40%."

  function CountLine(n: nat): string {
    "⚠️ Преподавателей с посещаемостью < 40%: " + NatToString(n)
  }

  function ReportLines(es: seq<Entry>): seq<string> {
    var body := if es != [] then [CountLine(|es|)] + ItemLines(es) else [AllClear];
    [Title] + body
  }

  datatype Outcome =
    | Failed
    | Report(entries: seq<Entry>, lines: seq<string>)

  /**
    `process_attendance_file` on the sheet `read_excel` produced; `None`
    is a file that could not be read. Failures end in "❌ Ошибка обработки файла.".
   */
  function AttendanceOutcome(sheet: Option<Sheet>): Outcome {
    match sheet
    case None => Failed
    case Some(df) =>
      match ColumnRoles(df.columns)
      case None => Failed
      case Some(roles) =>
        var es := Sorting.SortBy(LowRows(df.rows, roles), PctOf);
        Report(es, ReportLines(es))
  }

  method ProcessAttendance(sheet: Option<Sheet>) returns (outcome: Outcome)
    ensures outcome == AttendanceOutcome(sheet)
  {
    if sheet.None? {
      return Failed;
    }
    var df := sheet.value;
    var cols := df.columns;
    var teacher, attendance := FindColumns(cols);
    if |cols| == 0 {
      return Failed;
    }
    var t := if teacher.Some? then teacher.value else 0;
    var a := if attendance.Some? then attendance.value else if |cols| > 1 then 1 else 0;
    var entries := CollectLow(df.rows, Roles(t, a));
    entries := Sorting.SortBy(entries, PctOf);
    outcome := Report(entries, ReportLines(entries));
  }

  // ---------------------------------------------------------------------
  // What the report promises

  /**
    The listed teachers are exactly the qualifying rows' entries, with
    multiplicity, lowest attendance first and ties in row order, each below
    40%; the count line gives their number, and the all-clear line appears
    exactly when none is listed.
   */
  lemma ReportContents(df: Sheet, roles: Roles)
    ensures var es := Sorting.SortBy(LowRows(df.rows, roles), PctOf);
      && multiset(es) == multiset(LowRows(df.rows, roles))
      && Sorting.SortedBy(es, PctOf)
      && (forall k :: Sorting.WithKey(es, PctOf, k) == Sorting.WithKey(LowRows(df.rows, roles), PctOf, k))
      && (forall i :: 0 <= i < |es| ==> es[i].pct < Threshold)
  {
    var raw := LowRows(df.rows, roles);
    var es := Sorting.SortBy(raw, PctOf);
    Sorting.SortByPermutes(raw, PctOf);
    Sorting.SortBySorted(raw, PctOf);
    forall k ensures Sorting.WithKey(es, PctOf, k) == Sorting.WithKey(raw, PctOf, k) {
      Sorting.SortByStable(raw, PctOf, k);
    }
    forall i | 0 <= i < |es| ensures es[i].pct < Threshold {
      assert es[i] in multiset(raw);
      var k := LowRowsSound(df.rows, roles, es[i]);
      RowEntryIff(df.rows[k], roles);
    }
  }

  /** The report's shape: a count line and one line per teacher, or the all-clear line alone. */
  lemma ReportShape(es: seq<Entry>)
    ensures ReportLines(es)[0] == Title
    ensures es == [] ==> ReportLines(es) == [Title, AllClear]
    ensures es != [] ==> ReportLines(es) == [Title, CountLine(|es|)] + ItemLines(es)
    ensures es != [] ==> |ReportLines(es)| == 2 + |es|
    ensures es != [] ==> forall i :: 0 <= i < |es| ==> ReportLines(es)[2 + i] == ItemLine(es[i])
  {
    if es != [] {
      var lines := ReportLines(es);
      var items := ItemLines(es);
      assert lines == [Title, CountLine(|es|)] + items;
    }
  }

  /** A plain decimal "w.f" reads as its value. */
  lemma ValueOfDecimal(whole: string, frac: string)
    requires AllDigits(whole) && AllDigits(frac) && |whole| > 0
    ensures ValueOf(Text(whole + "." + frac)) == Some(DecimalValue(whole, frac))
  {
    var w := whole + "." + frac;
    CleanDecorated("", whole, '.', frac, "", "");
    assert "" + whole + ['.'] + frac + "" + "" == w;
    CleanIsCleanEach(w);
    assert Clean(CellStr(Text(w))) == w;
    assert w[0] == whole[0] && IsDigit(whole[0]);
    assert ParseNumber(w) == ParseUnsigned(w);
    ParseUnsignedDecimal(whole, frac);
  }

  /** A fraction 0.35 is shown as 35%. */
  lemma FractionReadsAsPercent()
    ensures ValueOf(Text("0.35")) == Some(0.35) && Normalise(0.35) == 35.0
  {
    ValueOfDecimal("0", "35");
    assert "0" + "." + "35" == "0.35";
    FractionDigits("0", "35");
  }

  lemma FractionDigits(whole: string, frac: string)
    requires whole == "0" && frac == "35"
    ensures DecimalValue(whole, frac) == 0.35
  {
    assert DigitsValue(whole) == 0 by { assert whole[..0] == ""; }
    assert DigitsValue(frac) == 35 by { assert frac[..1] == "3"; assert "3"[..0] == ""; }
    assert Pow10(|frac|) == 100;
  }

  /** 55.0 is already a percentage. */
  lemma PercentStaysPercent()
    ensures ValueOf(Text("55.0")) == Some(55.0) && Normalise(55.0) == 55.0
  {
    ValueOfDecimal("55", "0");
    assert "55" + "." + "0" == "55.0";
    PercentDigits("55", "0");
  }

  lemma PercentDigits(whole: string, frac: string)
    requires whole == "55" && frac == "0"
    ensures DecimalValue(whole, frac) == 55.0
  {
    assert DigitsValue(frac) == 0 by { assert frac[..0] == ""; }
    assert DigitsValue(whole) == 55 by { assert whole[..1] == "5"; assert "5"[..0] == ""; }
    assert Pow10(|frac|) == 10;
  }
}
