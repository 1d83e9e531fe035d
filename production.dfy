/** The production (SIRESP) sheet: file-format dispatch on the name's suffix, the consultation
    type and production period read from cells A3 and F3, the four count columns, the removal
    of empty and "total" rows, and the stamping of the period onto every kept row. */
module Production {
  import opened Seqs
  import opened Strings
  import opened Cells
  import opened Outcomes

  // ---- File format -------------------------------------------------------------------------

  /** Position of the last `c` in `s` (`str.rfind`). */
  function LastIndexOf(s: string, c: char): (r: Option<nat>)
    ensures r.Some? ==> r.value < |s| && s[r.value] == c
    ensures r.Some? ==> forall k :: r.value < k < |s| ==> s[k] != c
    ensures r.None? ==> forall k :: 0 <= k < |s| ==> s[k] != c
  {
    if s == [] then None
    else if s[|s| - 1] == c then Some(|s| - 1)
    else LastIndexOf(s[..|s| - 1], c)
  }

  /** Some character of `p[lo..hi]` is not a dot. */
  predicate HasNonDot(p: string, lo: nat, hi: nat)
    requires lo <= hi <= |p|
  {
    exists k :: lo <= k < hi && p[k] != '.'
  }

  /** `os.path.splitext(p)[1]` on a POSIX system: from the last dot to the end, provided that
      dot lies in the last path component and is not one of the component's leading dots;
      otherwise empty. */
  function Suffix(p: string): (ext: string)
    ensures ext == [] || (ext[0] == '.' && |ext| <= |p| && ext == p[|p| - |ext|..])
    ensures forall k :: 0 < k < |ext| ==> ext[k] != '.' && ext[k] != '/'
  {
    match LastIndexOf(p, '.')
    case None => ""
    case Some(dot) =>
      var start := match LastIndexOf(p, '/') case None => 0 case Some(slash) => slash + 1;
      if start <= dot && HasNonDot(p, start, dot) then p[dot..] else ""
  }

  /** A name with a stem and a dotted suffix keeps exactly that suffix. */
  lemma SuffixOf(stem: string, tail: string)
    requires HasNonDot(stem, 0, |stem|)
    requires forall k :: 0 <= k < |stem| ==> stem[k] != '/'
    requires forall k :: 0 <= k < |tail| ==> tail[k] != '.' && tail[k] != '/'
    ensures Suffix(stem + "." + tail) == "." + tail
  {
    var p := stem + "." + tail;
    assert LastIndexOf(p, '.') == Some(|stem|) by {
      var r := LastIndexOf(p, '.');
      assert p[|stem|] == '.';
      assert forall k :: |stem| < k < |p| ==> p[k] == tail[k - |stem| - 1];
    }
    assert LastIndexOf(p, '/') == None by {
      assert forall k :: 0 <= k < |p| ==> p[k] != '/' by {
        forall k | 0 <= k < |p| ensures p[k] != '/' {
          if k < |stem| { assert p[k] == stem[k]; }
          else if k > |stem| { assert p[k] == tail[k - |stem| - 1]; }
        }
      }
    }
    var w :| 0 <= w < |stem| && stem[w] != '.';
    assert p[w] == stem[w];
    assert HasNonDot(p, 0, |stem|);
    assert p[|stem|..] == "." + tail;
  }

  /** A name made only of a dot and a suffix (a hidden file such as ".csv") has no suffix. */
  lemma SuffixOfDotName(tail: string)
    requires forall k :: 0 <= k < |tail| ==> tail[k] != '.' && tail[k] != '/'
    ensures Suffix("." + tail) == ""
  {
    var p := "." + tail;
    var r := LastIndexOf(p, '.');
    assert p[0] == '.';
  }

  /** A name without a dot has no suffix. */
  lemma SuffixWithoutDot(p: string)
    requires forall k :: 0 <= k < |p| ==> p[k] != '.'
    ensures Suffix(p) == ""
  {
  }

  /** `os.path.splitext(name)[1].lower()` */
  function Extension(name: string): string {
    Lower(Suffix(name))
  }

  datatype Format = Xlsx | Xls | Csv | OtherFormat

  /** The branch the upload takes on the extension. */
  function FormatOf(name: string): (f: Format)
    ensures f == Xlsx <==> Extension(name) == ".xlsx"
    ensures f == Xls <==> Extension(name) == ".xls"
    ensures f == Csv <==> Extension(name) == ".csv"
  {
    var ext := Extension(name);
    if ext == ".xlsx" then Xlsx
    else if ext == ".xls" then Xls
    else if ext == ".csv" then Csv
    else OtherFormat
  }

  /** The extension test ignores letter case: "Producao.XLSX" is a workbook. */
  lemma UpperCaseSuffix(stem: string)
    requires HasNonDot(stem, 0, |stem|)
    requires forall k :: 0 <= k < |stem| ==> stem[k] != '/'
    ensures FormatOf(stem + ".XLSX") == Xlsx
    ensures FormatOf(stem + ".Csv") == Csv
  {
    UpperXlsx(stem);
    MixedCsv(stem);
  }

  lemma UpperXlsx(stem: string)
    requires HasNonDot(stem, 0, |stem|)
    requires forall k :: 0 <= k < |stem| ==> stem[k] != '/'
    ensures Extension(stem + ".XLSX") == ".xlsx"
  {
    SuffixOf(stem, "XLSX");
    assert stem + ".XLSX" == stem + "." + "XLSX";
    assert Lower(".XLSX") == ".xlsx";
  }

  lemma MixedCsv(stem: string)
    requires HasNonDot(stem, 0, |stem|)
    requires forall k :: 0 <= k < |stem| ==> stem[k] != '/'
    ensures Extension(stem + ".Csv") == ".csv"
  {
    SuffixOf(stem, "Csv");
    assert stem + ".Csv" == stem + "." + "Csv";
    assert Lower(".Csv") == ".csv";
  }

  /** Only the last suffix counts: "producao.xlsx.bak" is not a workbook. */
  lemma LastSuffixOnly(stem: string)
    requires HasNonDot(stem, 0, |stem|)
    requires forall k :: 0 <= k < |stem| ==> stem[k] != '/'
    ensures FormatOf(stem + ".xlsx.bak") == OtherFormat
  {
    var s := stem + ".xlsx";
    var name := stem + ".xlsx.bak";
    assert name == s + "." + "bak";
    StemExtended(stem, ".xlsx");
    BakChars();
    SuffixOf(s, "bak");
    LowerBak();
    assert Extension(name) == ".bak";
  }

  lemma BakChars()
    ensures forall k :: 0 <= k < |"bak"| ==> "bak"[k] != '.' && "bak"[k] != '/'
  {
  }

  lemma LowerBak()
    ensures Lower(".bak") == ".bak"
  {
  }

  /** A stem with a non-dot character and no slash keeps both properties when extended by a
      slash-free tail. */
  lemma StemExtended(stem: string, tail: string)
    requires HasNonDot(stem, 0, |stem|)
    requires forall k :: 0 <= k < |stem| ==> stem[k] != '/'
    requires forall k :: 0 <= k < |tail| ==> tail[k] != '/'
    ensures HasNonDot(stem + tail, 0, |stem + tail|)
    ensures forall k :: 0 <= k < |stem + tail| ==> (stem + tail)[k] != '/'
  {
    var s := stem + tail;
    var w :| 0 <= w < |stem| && stem[w] != '.';
    assert s[w] == stem[w];
    forall k | 0 <= k < |s| ensures s[k] != '/' {
      if k < |stem| { assert s[k] == stem[k]; } else { assert s[k] == tail[k - |stem|]; }
    }
  }

  // ---- Cells A3 and F3 ---------------------------------------------------------------------

  const NotAvailable: string := "N/A"

  /** The type, month and year written onto every row of one upload. */
  datatype Stamp = Stamp(tipo: Cell, mes: string, ano: string)

  /** The stamp of .xls and .csv uploads, and the starting point of .xlsx ones. */
  const DefaultStamp: Stamp := Stamp(Text(NotAvailable), NotAvailable, NotAvailable)

  /** How cell F3 ("<mês> de <ano>") is read. */
  datatype PeriodRead = Period(mes: string, ano: string) | Unrecognized | Unpack(pieces: nat)

  /** F3 must be truthy and contain "de"; its text is cut at every "de", each piece trimmed,
      and the two pieces unpacked into month (capitalised) and year. Any other number of
      pieces makes the unpacking raise. */
  function ReadPeriod(f3: Cell): (r: PeriodRead)
    ensures r.Unpack? ==> r.pieces > 2
    ensures r.Unrecognized? <==> !Truthy(f3) || !Contains(Render(f3), "de")
  {
    if Truthy(f3) && Contains(Render(f3), "de") then
      var parts := Split(Render(f3), "de");
      SplitPieces(Render(f3), "de");
      if |parts| == 2 then Period(Capitalize(Strip(parts[0])), Strip(parts[1]))
      else Unpack(|parts|)
    else Unrecognized
  }

  /** A period is read exactly when the text holds one "de": the month comes from the text
      before it and the year from the text after it. */
  lemma ReadPeriodOneSeparator(f3: Cell)
    requires ReadPeriod(f3).Period?
    ensures exists before, after :: (Render(f3) == before + "de" + after
      && !Contains(before, "de") && !Contains(after, "de")
      && ReadPeriod(f3) == Period(Capitalize(Strip(before)), Strip(after)))
  {
    var s := Render(f3);
    var parts := Split(s, "de");
    SplitPieces(s, "de");
    JoinSplit(s, "de");
    assert parts[1..] == [parts[1]];
    assert Join(parts, "de") == parts[0] + "de" + parts[1];
  }

  /** A month without the letter 'd' followed by "de" and a year gives that month,
      capitalised and trimmed, and that year, trimmed. */
  lemma ReadMonthOfYear(month: string, year: string)
    requires forall k :: 0 <= k < |month| ==> month[k] != 'd'
    requires forall k :: 0 <= k < |year| ==> year[k] != 'd'
    ensures ReadPeriod(Text(month + "de" + year)) == Period(Capitalize(Strip(month)), Strip(year))
  {
    var s := month + "de" + year;
    SplitTwo(month, "de", year);
    var f3 := Text(s);
    assert Render(f3) == s && Truthy(f3);
    assert ReadPeriod(f3) == Period(Capitalize(Strip(month)), Strip(year));
  }

  /** The expected layout "<mês> de <ano>": a month and a year without the letter 'd' and
      without blanks at their ends give the month capitalised and the year as written. */
  lemma ReadMonthDeYear(month: string, year: string)
    requires month != [] && year != [] && Trimmed(month) && Trimmed(year)
    requires forall k :: 0 <= k < |month| ==> month[k] != 'd'
    requires forall k :: 0 <= k < |year| ==> year[k] != 'd'
    ensures ReadPeriod(Text(month + " de " + year)) == Period(Capitalize(month), year)
  {
    var sp := " ";
    var m, y := month + sp, sp + year;
    assert month + " de " + year == m + "de" + y;
    assert forall k :: 0 <= k < |m| ==> m[k] != 'd';
    assert forall k :: 0 <= k < |y| ==> y[k] != 'd';
    ReadMonthOfYear(m, y);
    StripSpaceAfter(month, sp);
    StripSpaceBefore(year, sp);
  }

  /** A text with two occurrences of "de" splits into three pieces, and unpacking them into
      month and year fails. */
  lemma ReadTwoSeparators(f3: Cell, a: string, b: string, c: string)
    requires forall k :: 0 <= k < |a| ==> a[k] != 'd'
    requires forall k :: 0 <= k < |b| ==> b[k] != 'd'
    requires forall k :: 0 <= k < |c| ==> c[k] != 'd'
    requires f3 == Text(a + "de" + b + "de" + c)
    ensures ReadPeriod(f3) == Unpack(3)
  {
    SplitThree(a, b, c, "de");
    assert Render(f3) == a + "de" + b + "de" + c && Truthy(f3);
  }

  lemma CapitalizeJune(s: string)
    requires s == "junho"
    ensures Capitalize(s) == "Junho"
  {
    assert Lower("unho") == "unho";
  }

  /** "junho de 2025" gives ("Junho", "2025"). */
  lemma JuneExample(f3: Cell)
    requires f3 == Text("junho de 2025")
    ensures ReadPeriod(f3) == Period("Junho", "2025")
  {
    var m, y := "junho", "2025";
    assert f3.s == m + " de " + y;
    ReadMonthDeYear(m, y);
    CapitalizeJune(m);
  }

  /** The lower-case "dezembro" starts with "de": the F3 text splits into three pieces and
      the unpacking fails. */
  lemma DecemberExample(f3: Cell)
    requires f3 == Text("dezembro de 2025")
    ensures ReadPeriod(f3) == Unpack(3)
  {
    var a, b, c := "", "zembro ", " 2025";
    assert f3.s == a + "de" + b + "de" + c;
    ReadTwoSeparators(f3, a, b, c);
  }

  /** The consultation type, month and year of a workbook (cells A3 and F3), with the
      warnings they cause; an F3 that splits badly fails the upload. */
  function TitleStamp(a3: Cell, f3: Cell): (o: Outcome<Stamp>)
    ensures o.result.Ok? ==> o.result.value.tipo.Text?
    ensures o.result.Ok? && Truthy(a3) ==> o.result.value.tipo == Text(Render(a3))
    ensures o.result.Ok? && !Truthy(a3) ==> o.result.value.tipo == Text(NotAvailable)
    ensures ReadPeriod(f3).Period? ==> (o.result.Ok? && o.result.value.mes == ReadPeriod(f3).mes
      && o.result.value.ano == ReadPeriod(f3).ano)
    ensures ReadPeriod(f3).Unrecognized? ==> (o.result.Ok? && o.result.value.mes == NotAvailable
      && o.result.value.ano == NotAvailable && PeriodUnrecognized(f3) in o.notices)
    ensures !Truthy(a3) <==> TypeCellEmpty in o.notices
    ensures o.result.Fail? <==> ReadPeriod(f3).Unpack?
  {
    var tipo := if Truthy(a3) then Text(Render(a3)) else Text(NotAvailable);
    var notices := if Truthy(a3) then [] else [TypeCellEmpty];
    match ReadPeriod(f3)
    case Period(m, a) => Outcome(notices, Ok(Stamp(tipo, m, a)))
    case Unrecognized => Outcome(notices + [PeriodUnrecognized(f3)], Ok(Stamp(tipo, NotAvailable, NotAvailable)))
    case Unpack(n) => Outcome(notices, Fail(PeriodUnpack(n)))
  }

  // ---- The four columns --------------------------------------------------------------------

  /** One sheet row after the first four columns are named. */
  datatype SheetRow = SheetRow(especialidade: Cell, oferta: Cell, agendados: Cell, realizados: Cell)

  const ProductionColumns: seq<string> := ["Especialidade", "Oferta", "Agendados", "Realizados"]

  /** `df.iloc[:, :4]` followed by naming the columns: positional, and failing when the sheet
      has fewer than four columns. */
  function SheetBody(t: Table): (r: Result<seq<SheetRow>>)
    requires WellFormed(t)
    ensures r.Ok? <==> |t.header| >= 4
    ensures r.Fail? ==> r.failure == ColumnCountMismatch
    ensures r.Ok? ==> |r.value| == |t.rows| && forall i :: 0 <= i < |t.rows| ==>
      r.value[i] == SheetRow(t.rows[i][0], t.rows[i][1], t.rows[i][2], t.rows[i][3])
  {
    if |t.header| < 4 then Fail(ColumnCountMismatch)
    else Ok(seq(|t.rows|, i requires 0 <= i < |t.rows| =>
      SheetRow(t.rows[i][0], t.rows[i][1], t.rows[i][2], t.rows[i][3])))
  }

  /** A CSV sheet must carry the four columns by name; they are taken in the fixed order
      whatever their position. A missing one fails with the list of all four. */
  function CsvBody(t: Table): (r: Result<seq<SheetRow>>)
    requires WellFormed(t)
    ensures r.Ok? <==> forall c :: c in ProductionColumns ==> c in t.header
    ensures r.Fail? ==> r.failure == MissingCsvColumns(ProductionColumns)
    ensures r.Ok? ==> |r.value| == |t.rows| && forall i :: 0 <= i < |t.rows| ==>
      r.value[i].especialidade == t.rows[i][IndexOf(t.header, "Especialidade")]
      && r.value[i].oferta == t.rows[i][IndexOf(t.header, "Oferta")]
      && r.value[i].agendados == t.rows[i][IndexOf(t.header, "Agendados")]
      && r.value[i].realizados == t.rows[i][IndexOf(t.header, "Realizados")]
  {
    if forall c :: c in ProductionColumns ==> c in t.header then
      var s := Select(t, ProductionColumns);
      Ok(seq(|s.rows|, i requires 0 <= i < |s.rows| =>
        SheetRow(s.rows[i][0], s.rows[i][1], s.rows[i][2], s.rows[i][3])))
    else Fail(MissingCsvColumns(ProductionColumns))
  }

  // ---- Row filter and stamp ----------------------------------------------------------------

  /** `df['Oferta'].notna()` */
  predicate OfertaPresent(r: SheetRow) {
    r.oferta != Empty
  }

  /** `df['Oferta'].astype(str).str.lower() != 'total'`: lower-cased but not trimmed. */
  predicate NotTotal(r: SheetRow) {
    Lower(Render(r.oferta)) != "total"
  }

  /** The two masks, applied one after the other. */
  function KeepRows(rows: seq<SheetRow>): seq<SheetRow> {
    Filter(Filter(rows, OfertaPresent), NotTotal)
  }

  /** A row is kept exactly when its Oferta is present and does not read "total". */
  lemma KeepRowsMembers(rows: seq<SheetRow>)
    ensures forall r :: r in KeepRows(rows) <==> r in rows && OfertaPresent(r) && NotTotal(r)
  {
    forall r | r in rows && OfertaPresent(r) && NotTotal(r) ensures r in KeepRows(rows) {
      FilterKeeps(rows, OfertaPresent, r);
      FilterKeeps(Filter(rows, OfertaPresent), NotTotal, r);
    }
  }

  /** Filtering works row by row and keeps the order: the kept rows of a concatenation are
      the kept rows of each part, one after the other. */
  lemma KeepRowsAppend(a: seq<SheetRow>, b: seq<SheetRow>)
    ensures KeepRows(a + b) == KeepRows(a) + KeepRows(b)
  {
    FilterAppend(a, b, OfertaPresent);
    FilterAppend(Filter(a, OfertaPresent), Filter(b, OfertaPresent), NotTotal);
  }

  /** One row on its own survives exactly when both masks let it through. */
  lemma KeepRowsSingle(r: SheetRow)
    ensures KeepRows([r]) == if OfertaPresent(r) && NotTotal(r) then [r] else []
  {
    assert [r][1..] == [];
  }

  /** "TOTAL" in any letter case is dropped, but the comparison is not trimmed: " Total"
      survives. */
  lemma TotalRowExamples(e: Cell, a: Cell, d: Cell)
    ensures !NotTotal(SheetRow(e, Text("TOTAL"), a, d))
    ensures NotTotal(SheetRow(e, Text(" Total"), a, d))
  {
    assert Lower("TOTAL") == "total";
    assert |Lower(" Total")| == 6;
  }

  /** A production row as stored: the four columns and the upload's stamp. */
  datatype ProductionRow = ProductionRow(row: SheetRow, stamp: Stamp)

  function Stamped(rows: seq<SheetRow>, stamp: Stamp): (r: seq<ProductionRow>)
    ensures |r| == |rows|
    ensures forall i :: 0 <= i < |r| ==> r[i].row == rows[i] && r[i].stamp == stamp
  {
    seq(|rows|, i requires 0 <= i < |rows| => ProductionRow(rows[i], stamp))
  }

  // ---- The whole upload --------------------------------------------------------------------

  /** Cells A3 and F3 of the active worksheet, as the workbook reader returns them. */
  datatype TitleCells = TitleCells(a3: Cell, f3: Cell)

  /** An uploaded production file: its name and what each reader returns for it (`None` when
      that reader raises): the workbook reader's A3/F3 cells, the sheet reader's table (after
      skipping six rows), and the CSV reader's table. */
  datatype ProductionFile = ProductionFile(
    name: string, titles: Option<TitleCells>, sheet: Option<Table>, csv: Option<Table>)

  predicate ReadersWellFormed(f: ProductionFile) {
    (f.sheet.Some? ==> WellFormed(f.sheet.value)) && (f.csv.Some? ==> WellFormed(f.csv.value))
  }

  function SheetStage(sheet: Option<Table>): Result<seq<SheetRow>>
    requires sheet.Some? ==> WellFormed(sheet.value)
  {
    match sheet
    case None => Fail(ReaderFailed)
    case Some(t) => SheetBody(t)
  }

  function CsvStage(csv: Option<Table>): Result<seq<SheetRow>>
    requires csv.Some? ==> WellFormed(csv.value)
  {
    match csv
    case None => Fail(ReaderFailed)
    case Some(t) => CsvBody(t)
  }

  /** The common tail: filter the body, stamp it, or report the first failure. */
  function Finish(notices: seq<Notice>, stamp: Result<Stamp>, body: Result<seq<SheetRow>>): Outcome<seq<ProductionRow>> {
    if stamp.Fail? then Outcome(notices, Fail(stamp.failure))
    else if body.Fail? then Outcome(notices, Fail(body.failure))
    else Outcome(notices, Ok(Stamped(KeepRows(body.value), stamp.value)))
  }

  /** What a production upload reports and, on success, the rows it appends. */
  function SirespUpload(f: ProductionFile): Outcome<seq<ProductionRow>>
    requires ReadersWellFormed(f)
  {
    match FormatOf(f.name)
    case OtherFormat => Outcome([], Fail(UnsupportedFormat))
    case Csv => Finish([CsvMetadataNotApplicable], Ok(DefaultStamp), CsvStage(f.csv))
    case Xls => Finish([XlsMetadataUnsupported], Ok(DefaultStamp), SheetStage(f.sheet))
    case Xlsx =>
      match f.titles
      case None => Outcome([], Fail(ReaderFailed))
      case Some(w) =>
        var t := TitleStamp(w.a3, w.f3);
        Finish(t.notices, t.result, SheetStage(f.sheet))
  }

  /** Any suffix other than .xlsx, .xls and .csv (after lower-casing) is refused before any
      reader runs. */
  lemma UnsupportedRefused(f: ProductionFile)
    requires ReadersWellFormed(f)
    requires Extension(f.name) != ".xlsx" && Extension(f.name) != ".xls" && Extension(f.name) != ".csv"
    ensures SirespUpload(f) == Outcome([], Fail(UnsupportedFormat))
  {
  }

  /** The common tail succeeds only when the stamp and the body do, and then stores the
      kept body rows, each under the stamp. */
  lemma FinishOk(notices: seq<Notice>, stamp: Result<Stamp>, body: Result<seq<SheetRow>>)
    requires Finish(notices, stamp, body).result.Ok?
    ensures stamp.Ok? && body.Ok?
    ensures Finish(notices, stamp, body).result.value == Stamped(KeepRows(body.value), stamp.value)
    ensures Finish(notices, stamp, body).notices == notices
  {
  }

  /** Stamped kept rows carry the stamp and pass both masks. */
  lemma StampedKept(body: seq<SheetRow>, stamp: Stamp)
    ensures forall r :: r in Stamped(KeepRows(body), stamp) ==>
      r.stamp == stamp && OfertaPresent(r.row) && NotTotal(r.row)
  {
    var rows := Stamped(KeepRows(body), stamp);
    KeepRowsMembers(body);
    forall r | r in rows ensures r.stamp == stamp && OfertaPresent(r.row) && NotTotal(r.row) {
      var i :| 0 <= i < |rows| && rows[i] == r;
      assert r.row == KeepRows(body)[i];
    }
  }

  /** The rows a successful upload stores, with the stamp they carry. */
  lemma SirespStored(f: ProductionFile) returns (stamp: Stamp, body: seq<SheetRow>)
    requires ReadersWellFormed(f) && SirespUpload(f).result.Ok?
    ensures SirespUpload(f).result.value == Stamped(KeepRows(body), stamp)
    ensures FormatOf(f.name) != Xlsx ==> stamp == DefaultStamp
    ensures FormatOf(f.name) == Xlsx ==> (f.titles.Some? &&
      TitleStamp(f.titles.value.a3, f.titles.value.f3) == Outcome(SirespUpload(f).notices, Ok(stamp)))
  {
    match FormatOf(f.name)
    case Csv =>
      FinishOk([CsvMetadataNotApplicable], Ok(DefaultStamp), CsvStage(f.csv));
      stamp, body := DefaultStamp, CsvStage(f.csv).value;
    case Xls =>
      FinishOk([XlsMetadataUnsupported], Ok(DefaultStamp), SheetStage(f.sheet));
      stamp, body := DefaultStamp, SheetStage(f.sheet).value;
    case Xlsx =>
      var w := f.titles.value;
      var t := TitleStamp(w.a3, w.f3);
      FinishOk(t.notices, t.result, SheetStage(f.sheet));
      stamp, body := t.result.value, SheetStage(f.sheet).value;
  }

  /** Every row of one upload carries the same stamp, and every stored row has a present
      Oferta that does not read "total". */
  lemma SirespRowsKept(f: ProductionFile)
    requires ReadersWellFormed(f) && SirespUpload(f).result.Ok?
    ensures forall r, q :: r in SirespUpload(f).result.value && q in SirespUpload(f).result.value ==>
      r.stamp == q.stamp
    ensures forall r :: r in SirespUpload(f).result.value ==> OfertaPresent(r.row) && NotTotal(r.row)
  {
    var stamp, body := SirespStored(f);
    StampedKept(body, stamp);
  }

  /** Workbooks in the older .xls format never get a type, month or year. */
  lemma XlsStampsNotAvailable(f: ProductionFile)
    requires ReadersWellFormed(f) && FormatOf(f.name) == Xls && SirespUpload(f).result.Ok?
    ensures forall r :: r in SirespUpload(f).result.value ==> r.stamp == DefaultStamp
    ensures SirespUpload(f).notices == [XlsMetadataUnsupported]
  {
    var stamp, body := SirespStored(f);
    StampedKept(body, stamp);
  }

  /** A .xlsx upload whose F3 reads as a period stamps that period on every row; an empty
      A3 leaves the type "N/A" with a warning. */
  lemma XlsxStampsPeriod(f: ProductionFile, m: string, a: string)
    requires ReadersWellFormed(f) && FormatOf(f.name) == Xlsx && f.titles.Some?
    requires ReadPeriod(f.titles.value.f3) == Period(m, a) && SirespUpload(f).result.Ok?
    ensures forall r :: r in SirespUpload(f).result.value ==> r.stamp.mes == m && r.stamp.ano == a
    ensures !Truthy(f.titles.value.a3) ==> (TypeCellEmpty in SirespUpload(f).notices
      && forall r :: r in SirespUpload(f).result.value ==> r.stamp.tipo == Text(NotAvailable))
  {
    var stamp, body := SirespStored(f);
    StampedKept(body, stamp);
    var w := f.titles.value;
    assert stamp.mes == m && stamp.ano == a;
    assert !Truthy(w.a3) ==> stamp.tipo == Text(NotAvailable);
  }

  /** A .xlsx upload whose F3 is empty or has no "de" still stores its kept rows, every one
      with month and year "N/A", and warns that the period was not recognised. */
  lemma XlsxUnrecognizedNotAvailable(f: ProductionFile)
    requires ReadersWellFormed(f) && FormatOf(f.name) == Xlsx && f.titles.Some?
    requires ReadPeriod(f.titles.value.f3).Unrecognized?
    ensures SirespUpload(f).result.Ok? <==> SheetStage(f.sheet).Ok?
    ensures PeriodUnrecognized(f.titles.value.f3) in SirespUpload(f).notices
    ensures SirespUpload(f).result.Ok? ==> forall r :: r in SirespUpload(f).result.value ==>
      r.stamp.mes == NotAvailable && r.stamp.ano == NotAvailable
  {
    var w := f.titles.value;
    var t := TitleStamp(w.a3, w.f3);
    if SirespUpload(f).result.Ok? {
      var stamp, body := SirespStored(f);
      StampedKept(body, stamp);
      assert stamp.mes == NotAvailable && stamp.ano == NotAvailable;
    }
  }

  /** An F3 that splits into more than two pieces fails a .xlsx upload whatever the sheet. */
  lemma XlsxUnpackFails(f: ProductionFile)
    requires ReadersWellFormed(f) && FormatOf(f.name) == Xlsx && f.titles.Some?
    requires ReadPeriod(f.titles.value.f3).Unpack?
    ensures SirespUpload(f).result == Fail(PeriodUnpack(ReadPeriod(f.titles.value.f3).pieces))
  {
  }

  // ---- The insertion page of the newer dashboard --------------------------------------------

  /** The page's own reading of A3 and F3: the type is A3's value as it is (missing stays
      missing), F3 must be text (anything else has no `split`) and must split at "de" into
      exactly two pieces, with no fallback to "N/A". */
  function PageStamp(a3: Cell, f3: Cell): (r: Result<Stamp>)
    ensures r.Ok? <==> f3.Text? && |Split(f3.s, "de")| == 2
    ensures r.Ok? ==> r.value.tipo == a3
    ensures r.Fail? && f3.Text? ==> r.failure == PeriodUnpack(|Split(f3.s, "de")|)
    ensures r.Fail? && !f3.Text? ==> r.failure == PeriodNotText
  {
    match f3
    case Text(s) =>
      var parts := Split(s, "de");
      if |parts| == 2 then Ok(Stamp(a3, Capitalize(Strip(parts[0])), Strip(parts[1])))
      else Fail(PeriodUnpack(|parts|))
    case _ => Fail(PeriodNotText)
  }

  /** Where both readings of F3 succeed they agree on month and year, and a text A3 gives the
      same type. */
  lemma PageStampAgrees(a3: Cell, f3: Cell)
    requires f3.Text? && ReadPeriod(f3).Period?
    ensures PageStamp(a3, f3).Ok?
    ensures PageStamp(a3, f3).value.mes == TitleStamp(a3, f3).result.value.mes
    ensures PageStamp(a3, f3).value.ano == TitleStamp(a3, f3).result.value.ano
    ensures a3.Text? && a3.s != [] ==> PageStamp(a3, f3).value == TitleStamp(a3, f3).result.value
  {
    TitlePeriod(a3, f3);
    PagePeriod(a3, f3);
  }

  /** On a period reading, the title stamp is the type of A3 with that month and year. */
  lemma TitlePeriod(a3: Cell, f3: Cell)
    requires ReadPeriod(f3).Period?
    ensures TitleStamp(a3, f3).result == Ok(Stamp(if Truthy(a3) then Text(Render(a3)) else Text(NotAvailable),
      ReadPeriod(f3).mes, ReadPeriod(f3).ano))
  {
  }

  /** On a period reading of a text F3, the page's stamp has the same month and year. */
  lemma PagePeriod(a3: Cell, f3: Cell)
    requires f3.Text? && ReadPeriod(f3).Period?
    ensures PageStamp(a3, f3) == Ok(Stamp(a3, ReadPeriod(f3).mes, ReadPeriod(f3).ano))
  {
    SplitPieces(f3.s, "de");
  }

  /** An F3 text without "de" is one piece: the page fails where the upload module falls back
      to "N/A". */
  lemma PageNoSeparatorFails(a3: Cell, f3: Cell)
    requires f3.Text? && !Contains(f3.s, "de")
    ensures PageStamp(a3, f3) == Fail(PeriodUnpack(1))
    ensures TitleStamp(a3, f3).result.Ok? && TitleStamp(a3, f3).result.value.mes == NotAvailable
  {
    SplitPieces(f3.s, "de");
  }

  /** An uploaded workbook on the insertion page: what the workbook reader returns for A3 and
      F3 and what the sheet reader returns (`None` when a reader raises). */
  datatype PageFile = PageFile(titles: Option<TitleCells>, sheet: Option<Table>)

  /** The rows the insertion page appends, or why it stored nothing. */
  function PageUpload(f: PageFile): Result<seq<ProductionRow>>
    requires f.sheet.Some? ==> WellFormed(f.sheet.value)
  {
    match f.titles
    case None => Fail(ReaderFailed)
    case Some(w) => Finish([], PageStamp(w.a3, w.f3), SheetStage(f.sheet)).result
  }

  /** The page stores the same four columns and the same kept rows as the upload module;
      only the stamp can differ. */
  lemma PageUploadKeeps(f: PageFile)
    requires f.sheet.Some? ==> WellFormed(f.sheet.value)
    requires PageUpload(f).Ok?
    ensures f.titles.Some? && f.sheet.Some? && SheetBody(f.sheet.value).Ok?
    ensures PageUpload(f).value == Stamped(KeepRows(SheetBody(f.sheet.value).value),
      PageStamp(f.titles.value.a3, f.titles.value.f3).value)
    ensures forall r :: r in PageUpload(f).value ==> OfertaPresent(r.row) && NotTotal(r.row)
  {
    var w := f.titles.value;
    FinishOk([], PageStamp(w.a3, w.f3), SheetStage(f.sheet));
    StampedKept(SheetBody(f.sheet.value).value, PageStamp(w.a3, w.f3).value);
  }
}
