/** The medical-contract sheet: the 'Área' alias, the ten required columns, the three per-rule
    checks (cost centre, unit value, contract date) run over every row, the clean-up of the
    text columns, and the all-or-nothing decision. */
module Contracts {
  import opened Seqs
  import opened Strings
  import opened Cells
  import opened Outcomes

  // ---- Columns -----------------------------------------------------------------------------

  const RequiredColumns: seq<string> := [
    "Especialidade", "Serviço", "Centro de Custo", "Nome do Centro de Custo",
    "Valor Unitário", "Data Contrato", "Contratado", "Meta Mensal",
    "Responsável", "Detalhamento"]

  /** Positions of the checked columns within `RequiredColumns`. */
  const CostCenterIndex: nat := 2
  const UnitValueIndex: nat := 4
  const ContractDateIndex: nat := 5

  /** Positions of the seven columns kept as text. */
  const TextColumnIndices: seq<nat> := [0, 1, 3, 6, 7, 8, 9]

  const AreaAlias: string := "Área"

  /** The header after the first column, when it is labelled 'Área', is renamed. */
  function RenameArea(header: seq<string>): (h: seq<string>)
    requires header != []
    ensures |h| == |header| && h[1..] == header[1..]
    ensures h[0] == if header[0] == AreaAlias then RequiredColumns[0] else header[0]
  {
    if header[0] == AreaAlias then [RequiredColumns[0]] + header[1..] else header
  }

  /** The required columns absent from `header`, in the required order. */
  function MissingColumns(header: seq<string>): seq<string> {
    Filter(RequiredColumns, c => c !in header)
  }

  /** A column is reported missing exactly when it is required and absent. */
  lemma MissingColumnsExact(header: seq<string>)
    ensures forall c :: c in MissingColumns(header) <==> c in RequiredColumns && c !in header
  {
    forall c | c in RequiredColumns && c !in header ensures c in MissingColumns(header) {
      FilterKeeps(RequiredColumns, c => c !in header, c);
    }
  }

  /** Nothing is reported missing exactly when every required column is in the header. */
  lemma NoneMissing(header: seq<string>)
    ensures MissingColumns(header) == [] <==> forall c :: c in RequiredColumns ==> c in header
  {
    MissingColumnsExact(header);
    if MissingColumns(header) != [] {
      assert MissingColumns(header)[0] in MissingColumns(header);
    }
  }

  /** The alias counts as 'Especialidade': a sheet whose first column is 'Área' and which has
      the nine other required columns is not missing anything. */
  lemma AreaAliasAccepted(header: seq<string>)
    requires header != [] && header[0] == AreaAlias
    requires forall k :: 1 <= k < |RequiredColumns| ==> RequiredColumns[k] in header
    ensures MissingColumns(RenameArea(header)) == []
  {
    var h := RenameArea(header);
    forall c | c in RequiredColumns ensures c in h {
      var k :| 0 <= k < |RequiredColumns| && RequiredColumns[k] == c;
      if k == 0 {
        assert h[0] == c;
      } else {
        assert c[0] != AreaAlias[0];
        var p :| 0 <= p < |header| && header[p] == c;
        assert p != 0 && h[p] == header[p];
      }
    }
    FilterNone(RequiredColumns, c => c !in h);
  }

  // ---- Numbers -----------------------------------------------------------------------------

  function Pow10(k: nat): (p: nat)
    ensures p >= 1
  {
    if k == 0 then 1 else 10 * Pow10(k - 1)
  }

  /** Unsigned decimal: digits, optionally a point and more digits, at least one digit. */
  function ParseUnsigned(body: string): (r: Option<real>)
    ensures r.Some? ==> r.value >= 0.0
  {
    match FindFrom(body, ".", 0)
    case None =>
      if body != [] && AllDigits(body) then Some(DigitsValue(body) as real) else None
    case Some(k) =>
      var whole, frac := body[..k], body[k + 1..];
      if (whole != [] || frac != []) && AllDigits(whole) && AllDigits(frac) then
        Some(DecimalValue(whole, frac))
      else None
  }

  /** The value of the decimal `whole.frac`. */
  function DecimalValue(whole: string, frac: string): (v: real)
    requires AllDigits(whole) && AllDigits(frac)
    ensures v >= 0.0
  {
    DigitsValue(whole) as real + DigitsValue(frac) as real / Pow10(|frac|) as real
  }

  /** `pd.to_numeric(..., errors='coerce')` on a text value: surrounding blanks, an optional
      sign and a decimal; anything else becomes missing. */
  function ParseNumber(s: string): Option<real> {
    var t := Strip(s);
    var signed := |t| > 0 && (t[0] == '-' || t[0] == '+');
    var body := if signed then t[1..] else t;
    match ParseUnsigned(body)
    case None => None
    case Some(v) => Some(if signed && t[0] == '-' then -v else v)
  }

  /** Without blanks around it and starting with a digit, a text is read as unsigned. */
  lemma ParseUnsignedText(s: string)
    requires Trimmed(s) && s != [] && IsDigit(s[0])
    ensures ParseNumber(s) == ParseUnsigned(s)
  {
    StripTrimmed(s);
  }

  /** A string of digits reads back as its value. */
  lemma ParseDigits(s: string)
    requires s != [] && AllDigits(s)
    ensures ParseNumber(s) == Some(DigitsValue(s) as real)
  {
    DigitsTrimmed(s);
    assert IsDigit(s[0]);
    ParseUnsignedText(s);
    FindFromAbsent(s, ".", 0);
  }

  /** The decimal rendering of a natural number reads back as that number. */
  lemma ParseNatToString(n: nat)
    ensures ParseNumber(NatToString(n)) == Some(n as real)
  {
    ParseDigits(NatToString(n));
    NatToStringValue(n);
  }

  lemma ParseUnsignedDecimal(whole: string, frac: string)
    requires whole != [] && AllDigits(whole) && AllDigits(frac)
    ensures ParseUnsigned(whole + "." + frac) == Some(DecimalValue(whole, frac))
  {
    var s := whole + "." + frac;
    assert s[|whole|..|whole| + 1] == ".";
    assert forall k :: 0 <= k < |whole| ==> s[k] == whole[k];
    FindFromAt(s, ".", 0, |whole|);
    assert s[..|whole|] == whole && s[|whole| + 1..] == frac;
  }

  /** Digits, a point and more digits read back as the whole part plus the fraction. */
  lemma ParseDecimal(whole: string, frac: string)
    requires whole != [] && AllDigits(whole) && AllDigits(frac)
    ensures ParseNumber(whole + "." + frac) == Some(DecimalValue(whole, frac))
  {
    var s := whole + "." + frac;
    assert s[0] == whole[0] && IsDigit(s[0]);
    assert frac != [] ==> s[|s| - 1] == frac[|frac| - 1];
    assert Trimmed(s);
    ParseUnsignedText(s);
    ParseUnsignedDecimal(whole, frac);
  }

  /** The number a cell coerces to, if any. */
  function ToNumber(c: Cell): Option<real> {
    match c
    case Int(i) => Some(i as real)
    case Real(r) => Some(r)
    case Text(s) => ParseNumber(s)
    case _ => None
  }

  // ---- Cost centre -------------------------------------------------------------------------

  /** Numeric, integral and of eight digits. */
  predicate CostCenterValid(c: Cell) {
    match ToNumber(c)
    case None => false
    case Some(v) => v.Floor as real == v && 10000000.0 <= v <= 99999999.0
  }

  /** The cost-centre cell after coercion: an invalid one is set to missing. */
  function CostCenterCell(c: Cell): (r: Cell)
    ensures r == Empty <==> !CostCenterValid(c)
    ensures r != Empty ==> r.Int? && 10000000 <= r.i <= 99999999 && ToNumber(c) == Some(r.i as real)
  {
    if CostCenterValid(c) then Int(ToNumber(c).value.Floor) else Empty
  }

  /** An integer cell is a valid cost centre exactly when it has eight digits. */
  lemma CostCenterInt(n: int)
    ensures CostCenterValid(Int(n)) <==> 10000000 <= n <= 99999999
  {
  }

  /** A cost centre typed as text is read back as the same number. */
  lemma CostCenterText(n: nat)
    ensures CostCenterValid(Text(NatToString(n))) <==> 10000000 <= n <= 99999999
    ensures 10000000 <= n <= 99999999 ==> CostCenterCell(Text(NatToString(n))) == Int(n)
  {
    ParseNatToString(n);
  }

  /** A number with a fraction is never a cost centre. */
  lemma CostCenterFraction(r: real)
    requires r.Floor as real != r
    ensures !CostCenterValid(Real(r))
  {
  }

  // ---- Unit value --------------------------------------------------------------------------

  /** The unit-value cell after coercion: the number, or missing. */
  function UnitValueCell(c: Cell): (r: Cell)
    ensures r == Empty <==> ToNumber(c).None?
    ensures r != Empty ==> r == Real(ToNumber(c).value)
  {
    match ToNumber(c)
    case None => Empty
    case Some(v) => Real(v)
  }

  // ---- Contract date -----------------------------------------------------------------------

  predicate IsLeap(y: nat) {
    y % 4 == 0 && (y % 100 != 0 || y % 400 == 0)
  }

  function DaysInMonth(y: nat, m: nat): (n: nat)
    requires 1 <= m <= 12
    ensures 28 <= n <= 31
  {
    if m == 2 then (if IsLeap(y) then 29 else 28)
    else if m == 4 || m == 6 || m == 9 || m == 11 then 30
    else 31
  }

  predicate DateLe(a: CalendarDate, b: CalendarDate) {
    a.year < b.year || (a.year == b.year && (a.month < b.month || (a.month == b.month && a.day <= b.day)))
  }

  /** The first and last whole days a pandas `Timestamp` can hold. */
  const TimestampMin: CalendarDate := CalendarDate(1677, 9, 22)
  const TimestampMax: CalendarDate := CalendarDate(2262, 4, 11)

  /** A real calendar day that a `Timestamp` can represent. */
  predicate Representable(d: CalendarDate) {
    1 <= d.month <= 12 && 1 <= d.day <= DaysInMonth(d.year, d.month)
    && DateLe(TimestampMin, d) && DateLe(d, TimestampMax)
  }

  predicate IsNonZeroDigit(c: char) { '1' <= c <= '9' }

  function TwoDigits(a: char, b: char): nat
    requires IsDigit(a) && IsDigit(b)
  {
    DigitValue(a) * 10 + DigitValue(b)
  }

  /** `%d`: one non-zero digit, a blank and one non-zero digit, or two digits from 01 to 31. */
  function DayField(s: string): (r: Option<nat>)
    ensures r.Some? ==> 1 <= r.value <= 31
  {
    if |s| == 1 && IsNonZeroDigit(s[0]) then Some(DigitValue(s[0]))
    else if |s| == 2 && s[0] == ' ' && IsNonZeroDigit(s[1]) then Some(DigitValue(s[1]))
    else if |s| == 2 && IsDigit(s[0]) && IsDigit(s[1]) && 1 <= TwoDigits(s[0], s[1]) <= 31 then
      Some(TwoDigits(s[0], s[1]))
    else None
  }

  /** `%m`: one non-zero digit, or two digits from 01 to 12. */
  function MonthField(s: string): (r: Option<nat>)
    ensures r.Some? ==> 1 <= r.value <= 12
  {
    if |s| == 1 && IsNonZeroDigit(s[0]) then Some(DigitValue(s[0]))
    else if |s| == 2 && IsDigit(s[0]) && IsDigit(s[1]) && 1 <= TwoDigits(s[0], s[1]) <= 12 then
      Some(TwoDigits(s[0], s[1]))
    else None
  }

  /** `%Y`: exactly four digits. */
  function YearField(s: string): Option<nat> {
    if |s| == 4 && AllDigits(s) then Some(DigitsValue(s)) else None
  }

  /** `pd.to_datetime(..., format='%d/%m/%Y', errors='coerce')` on a text value: the whole text
      must match the format, name a real day, and fit a `Timestamp`. */
  function ParseContractDate(s: string): (r: Option<CalendarDate>)
    ensures r.Some? ==> Representable(r.value)
  {
    var parts := Split(s, "/");
    if |parts| != 3 then None
    else
      match (DayField(parts[0]), MonthField(parts[1]), YearField(parts[2]))
      case (Some(d), Some(m), Some(y)) =>
        if Representable(CalendarDate(y, m, d)) then Some(CalendarDate(y, m, d)) else None
      case _ => None
  }

  /** "DD/MM/YYYY" */
  function DateText(d: CalendarDate): string {
    Pad2(d.day) + "/" + Pad2(d.month) + "/" + NatToString(d.year)
  }

  /** A number from 1 to 31 written with two digits is a two-digit field of that value. */
  lemma Pad2Digits(n: nat)
    requires 1 <= n <= 31
    ensures |Pad2(n)| == 2 && IsDigit(Pad2(n)[0]) && IsDigit(Pad2(n)[1])
    ensures TwoDigits(Pad2(n)[0], Pad2(n)[1]) == n
  {
    if n < 10 {
      assert NatToString(n) == [DigitChar(n)];
      assert Pad2(n) == Zeros(1) + [DigitChar(n)];
    } else {
      assert NatToString(n / 10) == [DigitChar(n / 10)];
      assert NatToString(n) == [DigitChar(n / 10), DigitChar(n % 10)];
    }
  }

  /** Four-digit years of the representable range render with exactly four digits. */
  lemma YearText(y: nat)
    requires 1000 <= y <= 9999
    ensures YearField(NatToString(y)) == Some(y)
  {
    NatToStringValue(y);
    var a := y / 10;
    var b := a / 10;
    var c := b / 10;
    assert 100 <= a <= 999 && 10 <= b <= 99 && 1 <= c <= 9;
    assert |NatToString(c)| == 1;
    assert |NatToString(b)| == 2;
    assert |NatToString(a)| == 3;
    assert |NatToString(y)| == 4;
  }

  /** Every representable date, written "DD/MM/YYYY", parses back to itself. */
  lemma ParseDateText(d: CalendarDate)
    requires Representable(d)
    ensures ParseContractDate(DateText(d)) == Some(d)
  {
    var dd, mm, yy := Pad2(d.day), Pad2(d.month), NatToString(d.year);
    Pad2Digits(d.day);
    Pad2Digits(d.month);
    YearText(d.year);
    assert DayField(dd) == Some(d.day);
    assert MonthField(mm) == Some(d.month);
    assert forall k :: 0 <= k < |dd| ==> dd[k] != '/';
    assert forall k :: 0 <= k < |mm| ==> mm[k] != '/';
    assert forall k :: 0 <= k < |yy| ==> yy[k] != '/';
    SplitThree(dd, mm, yy, "/");
  }

  /** 29 February exists only in leap years. */
  lemma LeapDay(y: nat)
    requires 1678 <= y <= 2261
    ensures Representable(CalendarDate(y, 2, 29)) <==> IsLeap(y)
  {
  }

  /** The date cell after coercion: a date cell is kept when representable, a text cell is
      parsed, anything else is missing. */
  function ContractDateCell(c: Cell): (r: Cell)
    ensures r != Empty ==> r.Date? && Representable(r.date)
  {
    match c
    case Date(d) => if Representable(d) then c else Empty
    case Text(s) => (match ParseContractDate(s) case Some(d) => Date(d) case None => Empty)
    case _ => Empty
  }

  // ---- Text columns ------------------------------------------------------------------------

  /** `astype(str)`, then a whole value "nan" becomes empty, then `strip`. */
  function CleanText(c: Cell): (r: Cell)
    ensures r.Text? && Trimmed(r.s)
  {
    var s := Render(c);
    Text(Strip(if s == "nan" then "" else s))
  }

  /** A missing text cell becomes the empty text. */
  lemma CleanTextMissing()
    ensures CleanText(Empty) == Text("")
  {
  }

  /** Any text other than "nan" is only trimmed. */
  lemma CleanTextPlain(s: string)
    requires s != "nan"
    ensures CleanText(Text(s)) == Text(Strip(s))
  {
  }

  /** The "nan" replacement matches whole values and runs before trimming, so a padded "nan"
      survives as the text "nan". */
  lemma PaddedNanSurvives(c: Cell)
    requires c == Text(" nan")
    ensures CleanText(c) == Text("nan")
  {
    var sp, w := " ", "nan";
    assert c.s == sp + w;
    StripSpaceBefore(w, sp);
  }

  // ---- The whole batch ---------------------------------------------------------------------

  /** What each of the ten columns becomes. */
  function ColumnRule(j: nat, c: Cell): Cell {
    if j == CostCenterIndex then CostCenterCell(c)
    else if j == UnitValueIndex then UnitValueCell(c)
    else if j == ContractDateIndex then ContractDateCell(c)
    else CleanText(c)
  }

  predicate RowsFit(rows: seq<seq<Cell>>) {
    forall i :: 0 <= i < |rows| ==> |rows[i]| == |RequiredColumns|
  }

  function CleanRow(r: seq<Cell>): seq<Cell> {
    seq(|r|, j requires 0 <= j < |r| => ColumnRule(j, r[j]))
  }

  /** The batch after every conversion and clean-up. */
  function CleanRows(rows: seq<seq<Cell>>): seq<seq<Cell>> {
    seq(|rows|, i requires 0 <= i < |rows| => CleanRow(rows[i]))
  }

  predicate CostCentersValid(rows: seq<seq<Cell>>)
    requires RowsFit(rows)
  {
    forall i :: 0 <= i < |rows| ==> CostCenterValid(rows[i][CostCenterIndex])
  }

  predicate UnitValuesValid(rows: seq<seq<Cell>>)
    requires RowsFit(rows)
  {
    forall i :: 0 <= i < |rows| ==> ToNumber(rows[i][UnitValueIndex]).Some?
  }

  predicate ContractDatesValid(rows: seq<seq<Cell>>)
    requires RowsFit(rows)
  {
    forall i :: 0 <= i < |rows| ==> ContractDateCell(rows[i][ContractDateIndex]) != Empty
  }

  function Rank(c: ContractCheck): nat {
    match c
    case CostCenterCheck => 0
    case UnitValueCheck => 1
    case ContractDateCheck => 2
  }

  /** The messages of one batch: at most one per rule, in the fixed order of the rules. */
  function ContractErrors(rows: seq<seq<Cell>>): (errors: seq<ContractCheck>)
    requires RowsFit(rows)
    ensures CostCenterCheck in errors <==> !CostCentersValid(rows)
    ensures UnitValueCheck in errors <==> !UnitValuesValid(rows)
    ensures ContractDateCheck in errors <==> !ContractDatesValid(rows)
    ensures forall k, l :: 0 <= k < l < |errors| ==> Rank(errors[k]) < Rank(errors[l])
  {
    (if CostCentersValid(rows) then [] else [CostCenterCheck])
    + (if UnitValuesValid(rows) then [] else [UnitValueCheck])
    + (if ContractDatesValid(rows) then [] else [ContractDateCheck])
  }

  /** What a stored contract row holds: an eight-digit cost centre, a number, a representable
      date, and trimmed text elsewhere. */
  predicate StoredRow(r: seq<Cell>) {
    |r| == |RequiredColumns| && CheckedCells(r) && TextCells(r)
  }

  predicate CheckedCells(r: seq<Cell>)
    requires |r| == |RequiredColumns|
  {
    r[CostCenterIndex].Int? && 10000000 <= r[CostCenterIndex].i <= 99999999
    && r[UnitValueIndex].Real?
    && r[ContractDateIndex].Date? && Representable(r[ContractDateIndex].date)
  }

  predicate TextCells(r: seq<Cell>)
    requires |r| == |RequiredColumns|
  {
    forall k :: 0 <= k < |TextColumnIndices| ==>
      r[TextColumnIndices[k]].Text? && Trimmed(r[TextColumnIndices[k]].s)
  }

  /** A row that passes the three rules cleans into the stored shape. */
  lemma CleanRowStored(r: seq<Cell>)
    requires |r| == |RequiredColumns|
    requires CostCenterValid(r[CostCenterIndex]) && ToNumber(r[UnitValueIndex]).Some?
    requires ContractDateCell(r[ContractDateIndex]) != Empty
    ensures StoredRow(CleanRow(r))
  {
    CleanRowChecked(r);
    CleanRowText(r);
  }

  lemma CleanRowChecked(r: seq<Cell>)
    requires |r| == |RequiredColumns|
    requires CostCenterValid(r[CostCenterIndex]) && ToNumber(r[UnitValueIndex]).Some?
    requires ContractDateCell(r[ContractDateIndex]) != Empty
    ensures CheckedCells(CleanRow(r))
  {
    var c := CleanRow(r);
    assert c[CostCenterIndex] == CostCenterCell(r[CostCenterIndex]);
    assert c[UnitValueIndex] == UnitValueCell(r[UnitValueIndex]);
    assert c[ContractDateIndex] == ContractDateCell(r[ContractDateIndex]);
  }

  lemma CleanRowText(r: seq<Cell>)
    requires |r| == |RequiredColumns|
    ensures TextCells(CleanRow(r))
  {
    var c := CleanRow(r);
    forall k | 0 <= k < |TextColumnIndices|
      ensures c[TextColumnIndices[k]].Text? && Trimmed(c[TextColumnIndices[k]].s)
    {
      var j := TextColumnIndices[k];
      TextColumnsUnchecked(k);
      assert c[j] == ColumnRule(j, r[j]);
    }
  }

  /** The text columns are none of the three checked ones. */
  lemma TextColumnsUnchecked(k: nat)
    requires k < |TextColumnIndices|
    ensures TextColumnIndices[k] < |RequiredColumns|
    ensures TextColumnIndices[k] != CostCenterIndex && TextColumnIndices[k] != UnitValueIndex
      && TextColumnIndices[k] != ContractDateIndex
  {
  }

  /** A batch without messages cleans into rows that all have the stored shape. */
  lemma CleanRowsStored(rows: seq<seq<Cell>>)
    requires RowsFit(rows) && ContractErrors(rows) == []
    ensures |CleanRows(rows)| == |rows|
    ensures forall i :: 0 <= i < |rows| ==> StoredRow(CleanRows(rows)[i])
  {
    assert CostCentersValid(rows) && UnitValuesValid(rows) && ContractDatesValid(rows);
    forall i | 0 <= i < |rows| ensures StoredRow(CleanRows(rows)[i]) {
      CleanRowStored(rows[i]);
    }
  }

  // ---- The column conversions, as the upload runs them --------------------------------------

  /** Column `j` replaced cell by cell with `f`. */
  function MapColumn(rows: seq<seq<Cell>>, j: nat, f: Cell -> Cell): (r: seq<seq<Cell>>)
    requires forall i :: 0 <= i < |rows| ==> j < |rows[i]|
    ensures |r| == |rows|
    ensures forall i :: 0 <= i < |rows| ==> (|r[i]| == |rows[i]| && r[i][j] == f(rows[i][j])
      && forall k :: 0 <= k < |rows[i]| && k != j ==> r[i][k] == rows[i][k])
  {
    seq(|rows|, i requires 0 <= i < |rows| => rows[i][j := f(rows[i][j])])
  }

  /** Converts one column in place, row by row, and tells whether any converted cell is
      missing. */
  method ConvertColumn(rows: seq<seq<Cell>>, j: nat, f: Cell -> Cell) returns (out: seq<seq<Cell>>, anyMissing: bool)
    requires forall i :: 0 <= i < |rows| ==> j < |rows[i]|
    ensures out == MapColumn(rows, j, f)
    ensures anyMissing <==> exists i :: 0 <= i < |rows| && f(rows[i][j]) == Empty
  {
    out := [];
    anyMissing := false;
    var i := 0;
    while i < |rows|
      invariant 0 <= i <= |rows|
      invariant out == MapColumn(rows[..i], j, f)
      invariant anyMissing <==> exists k :: 0 <= k < i && f(rows[k][j]) == Empty
    {
      var cell := f(rows[i][j]);
      out := out + [rows[i][j := cell]];
      if cell == Empty {
        anyMissing := true;
      }
      i := i + 1;
    }
    assert rows[..i] == rows;
  }

  /** The rows seen after the columns in `done` are converted and the others left alone. */
  predicate Converted(out: seq<seq<Cell>>, rows: seq<seq<Cell>>, done: seq<nat>) {
    |out| == |rows| && forall i :: 0 <= i < |rows| ==> (|out[i]| == |rows[i]|
      && forall j :: 0 <= j < |rows[i]| ==> out[i][j] == if j in done then ColumnRule(j, rows[i][j]) else rows[i][j])
  }

  lemma ConvertedStep(out: seq<seq<Cell>>, rows: seq<seq<Cell>>, done: seq<nat>, j: nat)
    requires RowsFit(rows) && Converted(out, rows, done) && j < |RequiredColumns| && j !in done
    ensures Converted(MapColumn(out, j, c => ColumnRule(j, c)), rows, done + [j])
    ensures forall i :: 0 <= i < |rows| ==> out[i][j] == rows[i][j]
  {
  }

  /** Once every column is converted the rows are the clean batch. */
  lemma ConvertedAll(out: seq<seq<Cell>>, rows: seq<seq<Cell>>, done: seq<nat>)
    requires RowsFit(rows) && Converted(out, rows, done)
    requires forall j :: 0 <= j < |RequiredColumns| ==> j in done
    ensures out == CleanRows(rows)
  {
    forall i | 0 <= i < |rows| ensures out[i] == CleanRows(rows)[i] {
      assert |out[i]| == |CleanRow(rows[i])|;
    }
  }

  /** A converted check column has a missing cell exactly when the rule fails on some row. */
  lemma RuleFailures(rows: seq<seq<Cell>>)
    requires RowsFit(rows)
    ensures (exists i :: 0 <= i < |rows| && ColumnRule(CostCenterIndex, rows[i][CostCenterIndex]) == Empty)
      <==> !CostCentersValid(rows)
    ensures (exists i :: 0 <= i < |rows| && ColumnRule(UnitValueIndex, rows[i][UnitValueIndex]) == Empty)
      <==> !UnitValuesValid(rows)
    ensures (exists i :: 0 <= i < |rows| && ColumnRule(ContractDateIndex, rows[i][ContractDateIndex]) == Empty)
      <==> !ContractDatesValid(rows)
  {
  }

  /** Some row's cell in column `j` is missing once converted. */
  predicate RuleFails(rows: seq<seq<Cell>>, j: nat)
    requires RowsFit(rows) && j < |RequiredColumns|
  {
    exists i :: 0 <= i < |rows| && ColumnRule(j, rows[i][j]) == Empty
  }

  lemma ErrorsFromFlags(rows: seq<seq<Cell>>, badCostCenter: bool, badUnitValue: bool, badDate: bool)
    requires RowsFit(rows)
    requires badCostCenter == RuleFails(rows, CostCenterIndex)
    requires badUnitValue == RuleFails(rows, UnitValueIndex)
    requires badDate == RuleFails(rows, ContractDateIndex)
    ensures ContractErrors(rows) == (if badCostCenter then [CostCenterCheck] else [])
      + (if badUnitValue then [UnitValueCheck] else []) + (if badDate then [ContractDateCheck] else [])
  {
    RuleFailures(rows);
  }

  /** Converts column `j` of the partly converted batch and tells whether any converted cell
      is missing. */
  method ConvertNext(out: seq<seq<Cell>>, ghost rows: seq<seq<Cell>>, ghost done: seq<nat>, j: nat)
    returns (next: seq<seq<Cell>>, failed: bool)
    requires RowsFit(rows) && Converted(out, rows, done) && j < |RequiredColumns| && j !in done
    ensures Converted(next, rows, done + [j])
    ensures failed == RuleFails(rows, j)
  {
    ConvertedStep(out, rows, done, j);
    next, failed := ConvertColumn(out, j, c => ColumnRule(j, c));
  }

  /** Runs the three checks over the whole batch, collecting one message per failed rule in
      the order cost centre, unit value, contract date. */
  method CheckColumns(rows: seq<seq<Cell>>) returns (errors: seq<ContractCheck>, out: seq<seq<Cell>>)
    requires RowsFit(rows)
    ensures errors == ContractErrors(rows)
    ensures Converted(out, rows, [CostCenterIndex, UnitValueIndex, ContractDateIndex])
  {
    var badCostCenter, badUnitValue, badDate: bool;
    out, badCostCenter := ConvertNext(rows, rows, [], CostCenterIndex);
    out, badUnitValue := ConvertNext(out, rows, [CostCenterIndex], UnitValueIndex);
    out, badDate := ConvertNext(out, rows, [CostCenterIndex, UnitValueIndex], ContractDateIndex);
    errors := Messages(badCostCenter, badUnitValue, badDate);
    ErrorsFromFlags(rows, badCostCenter, badUnitValue, badDate);
  }

  /** The messages of the failed rules, appended in the order the rules run. */
  method Messages(badCostCenter: bool, badUnitValue: bool, badDate: bool) returns (errors: seq<ContractCheck>)
    ensures errors == (if badCostCenter then [CostCenterCheck] else [])
      + (if badUnitValue then [UnitValueCheck] else []) + (if badDate then [ContractDateCheck] else [])
  {
    errors := Report([], badCostCenter, CostCenterCheck);
    errors := Report(errors, badUnitValue, UnitValueCheck);
    errors := Report(errors, badDate, ContractDateCheck);
  }

  /** Appends the message of a failed rule. */
  method Report(errors: seq<ContractCheck>, failed: bool, check: ContractCheck) returns (r: seq<ContractCheck>)
    ensures r == errors + if failed then [check] else []
  {
    r := errors;
    if failed {
      r := r + [check];
    }
  }

  /** Cleans the seven text columns one after the other. */
  method CleanTextColumns(checked: seq<seq<Cell>>, ghost rows: seq<seq<Cell>>) returns (out: seq<seq<Cell>>)
    requires RowsFit(rows) && Converted(checked, rows, [CostCenterIndex, UnitValueIndex, ContractDateIndex])
    ensures out == CleanRows(rows)
  {
    out := checked;
    ghost var done := [CostCenterIndex, UnitValueIndex, ContractDateIndex];
    for k := 0 to |TextColumnIndices|
      invariant done == [CostCenterIndex, UnitValueIndex, ContractDateIndex] + TextColumnIndices[..k]
      invariant Converted(out, rows, done)
    {
      assert TextColumnIndices[..k + 1] == TextColumnIndices[..k] + [TextColumnIndices[k]];
      var failed;
      out, failed := ConvertNext(out, rows, done, TextColumnIndices[k]);
      done := done + [TextColumnIndices[k]];
    }
    assert TextColumnIndices[..|TextColumnIndices|] == TextColumnIndices;
    ConvertedAll(out, rows, done);
  }

  /** The whole validation step: the messages, and the batch after conversion and clean-up. */
  method ValidateContracts(rows: seq<seq<Cell>>) returns (errors: seq<ContractCheck>, out: seq<seq<Cell>>)
    requires RowsFit(rows)
    ensures errors == ContractErrors(rows)
    ensures out == CleanRows(rows)
  {
    var checked;
    errors, checked := CheckColumns(rows);
    out := CleanTextColumns(checked, rows);
  }

  // ---- The upload --------------------------------------------------------------------------

  /** The first five rows, shown with the validation messages. */
  function Head(rows: seq<seq<Cell>>): (r: seq<seq<Cell>>)
    ensures |r| <= 5 && |r| <= |rows| && r == rows[..|r|]
    ensures |rows| <= 5 ==> r == rows
  {
    if |rows| <= 5 then rows else rows[..5]
  }

  /** What a contract upload reports and, on success, the rows it appends. */
  function ContractsUpload(sheet: Option<Table>): Outcome<seq<seq<Cell>>>
    requires sheet.Some? ==> WellFormed(sheet.value)
  {
    match sheet
    case None => Outcome([], Fail(ReaderFailed))
    case Some(t) =>
      if t.header == [] then Outcome([], Fail(NoColumns))
      else
        var notices := if t.header[0] == AreaAlias then [AreaRenamed] else [];
        RenamedUpload(notices, Table(RenameArea(t.header), t.rows))
  }

  /** The stages after the rename: the required columns, then the three checks. */
  function RenamedUpload(notices: seq<Notice>, t: Table): Outcome<seq<seq<Cell>>>
    requires forall i :: 0 <= i < |t.rows| ==> |t.rows[i]| == |t.header|
  {
    var missing := MissingColumns(t.header);
    if missing != [] then Outcome(notices, Fail(MissingRequiredColumns(missing)))
    else if !Distinct(t.header) then Outcome(notices, Fail(DuplicateColumn(RequiredColumns[0])))
    else
      NoneMissing(t.header);
      SelectFits(t);
      var rows := Select(t, RequiredColumns).rows;
      var errors := ContractErrors(rows);
      if errors != [] then Outcome(notices, Fail(Validation(errors, Head(CleanRows(rows)))))
      else Outcome(notices, Ok(CleanRows(rows)))
  }

  /** The selected rows line up with the required columns. */
  lemma SelectFits(t: Table)
    requires WellFormed(t) && forall n :: n in RequiredColumns ==> n in t.header
    ensures RowsFit(Select(t, RequiredColumns).rows)
  {
  }

  /** All or nothing: an upload stores every row, cleaned, exactly when all of them pass all
      three rules; a batch with any failing row stores none and reports each failed rule. */
  lemma ContractsAllOrNothing(t: Table)
    requires WellFormed(t) && t.header != []
    requires forall c :: c in RequiredColumns ==> c in RenameArea(t.header)
    requires Distinct(RenameArea(t.header))
    ensures var rows := Select(Table(RenameArea(t.header), t.rows), RequiredColumns).rows;
      RowsFit(rows) && |rows| == |t.rows|
      && (ContractsUpload(Some(t)).result.Ok? <==>
        CostCentersValid(rows) && UnitValuesValid(rows) && ContractDatesValid(rows))
      && (ContractsUpload(Some(t)).result.Ok? ==> ContractsUpload(Some(t)).result.value == CleanRows(rows))
      && (ContractsUpload(Some(t)).result.Fail? ==>
        ContractsUpload(Some(t)).result.failure.Validation?
        && ContractsUpload(Some(t)).result.failure.checks == ContractErrors(rows))
  {
    var renamed := Table(RenameArea(t.header), t.rows);
    NoneMissing(renamed.header);
    var notices := UploadRenamed(t);
    RenamedChecked(notices, renamed);
    Verdict(ContractsUpload(Some(t)).result, Select(renamed, RequiredColumns).rows);
  }

  /** A sheet with columns goes on, renamed, to the later stages. */
  lemma UploadRenamed(t: Table) returns (notices: seq<Notice>)
    requires WellFormed(t) && t.header != []
    ensures notices == if t.header[0] == AreaAlias then [AreaRenamed] else []
    ensures ContractsUpload(Some(t)) == RenamedUpload(notices, Table(RenameArea(t.header), t.rows))
  {
    notices := if t.header[0] == AreaAlias then [AreaRenamed] else [];
  }

  /** The result decided by the three rules stores the clean batch exactly when every rule
      holds on every row, and otherwise lists the failed rules. */
  lemma Verdict(r: Result<seq<seq<Cell>>>, rows: seq<seq<Cell>>)
    requires RowsFit(rows)
    requires r == if ContractErrors(rows) != [] then Fail(Validation(ContractErrors(rows), Head(CleanRows(rows))))
      else Ok(CleanRows(rows))
    ensures r.Ok? <==> CostCentersValid(rows) && UnitValuesValid(rows) && ContractDatesValid(rows)
    ensures r.Ok? ==> r.value == CleanRows(rows)
    ensures r.Fail? ==> r.failure.Validation? && r.failure.checks == ContractErrors(rows)
  {
  }

  /** Past the column checks, the upload's result is decided by the three rules alone. */
  lemma RenamedChecked(notices: seq<Notice>, t: Table)
    requires WellFormed(t) && MissingColumns(t.header) == []
    requires forall n :: n in RequiredColumns ==> n in t.header
    ensures var rows := Select(t, RequiredColumns).rows;
      RowsFit(rows) && RenamedUpload(notices, t).result ==
        if ContractErrors(rows) != [] then Fail(Validation(ContractErrors(rows), Head(CleanRows(rows))))
        else Ok(CleanRows(rows))
  {
    SelectFits(t);
  }

  /** A sheet that lacks a required column stores nothing, and the message lists exactly the
      absent columns in the required order. */
  lemma ContractsMissingColumns(t: Table)
    requires WellFormed(t) && t.header != []
    requires exists c :: c in RequiredColumns && c !in RenameArea(t.header)
    ensures ContractsUpload(Some(t)).result == Fail(MissingRequiredColumns(MissingColumns(RenameArea(t.header))))
  {
    var h := RenameArea(t.header);
    var notices := UploadRenamed(t);
    MissingColumnsExact(h);
    var c :| c in RequiredColumns && c !in h;
    assert c in MissingColumns(h);
  }
}
