/** The three upload handlers of the upload module and the insertion page of the newer
    dashboard, written as the step-by-step procedures they are: each works through its stages,
    gives up at the first failure with nothing written, and otherwise writes its table once.
    Each is proved to report what the corresponding specification function says and to change
    only the table it writes. */
module Uploads {
  import opened Seqs
  import opened Cells
  import opened Outcomes
  import opened Production
  import opened Contracts
  import opened Cdr
  import opened Storage

  /** The production upload: dispatch on the suffix, read A3/F3 for .xlsx, read the body,
      filter it, stamp it, append it. */
  method ProcessSirespUpload(store: Store, f: ProductionFile) returns (o: Outcome<seq<ProductionRow>>)
    requires ReadersWellFormed(f)
    modifies store
    ensures o == SirespUpload(f)
    ensures store.producao == old(store.producao) + (if o.result.Ok? then o.result.value else [])
    ensures store.contratos == old(store.contratos) && store.cdr == old(store.cdr)
  {
    var format := FormatOf(f.name);
    var notices: seq<Notice> := [];
    var stamp := DefaultStamp;
    var body: Result<seq<SheetRow>>;
    if format == Xlsx || format == Xls {
      if format == Xlsx {
        if f.titles.None? {
          return Outcome([], Fail(ReaderFailed));
        }
        var title := TitleStamp(f.titles.value.a3, f.titles.value.f3);
        notices := title.notices;
        if title.result.Fail? {
          return Outcome(notices, Fail(title.result.failure));
        }
        stamp := title.result.value;
      } else {
        notices := [XlsMetadataUnsupported];
      }
      body := SheetStage(f.sheet);
    } else if format == Csv {
      notices := [CsvMetadataNotApplicable];
      body := CsvStage(f.csv);
    } else {
      return Outcome([], Fail(UnsupportedFormat));
    }
    if body.Fail? {
      return Outcome(notices, Fail(body.failure));
    }
    var kept := Filter(body.value, OfertaPresent);
    kept := Filter(kept, NotTotal);
    var rows := Stamped(kept, stamp);
    store.AppendProducao(rows);
    o := Outcome(notices, Ok(rows));
  }

  /** The contract upload: rename the alias in place, check the required columns, select
      them, run the three checks and the text clean-up, and append only a batch without
      errors. */
  method ProcessContratosUpload(store: Store, sheet: Option<Table>) returns (o: Outcome<seq<seq<Cell>>>)
    requires sheet.Some? ==> WellFormed(sheet.value)
    modifies store
    ensures o == ContractsUpload(sheet)
    ensures store.contratos == old(store.contratos) + (if o.result.Ok? then o.result.value else [])
    ensures store.producao == old(store.producao) && store.cdr == old(store.cdr)
  {
    if sheet.None? {
      return Outcome([], Fail(ReaderFailed));
    }
    var t := sheet.value;
    if t.header == [] {
      return Outcome([], Fail(NoColumns));
    }
    var notices: seq<Notice> := [];
    var header := t.header;
    if header[0] == AreaAlias {
      header := header[0 := RequiredColumns[0]];
      notices := [AreaRenamed];
    }
    assert header == RenameArea(t.header);
    ghost var renamedNotices := UploadRenamed(t);
    o := CheckRenamed(notices, Table(header, t.rows));
    if o.result.Ok? {
      store.AppendContratos(o.result.value);
    }
  }

  /** The stages after the rename: the required columns, then the checks and the text
      clean-up. */
  method CheckRenamed(notices: seq<Notice>, t: Table) returns (o: Outcome<seq<seq<Cell>>>)
    requires forall i :: 0 <= i < |t.rows| ==> |t.rows[i]| == |t.header|
    ensures o == RenamedUpload(notices, t)
  {
    var missing := MissingColumns(t.header);
    if missing != [] {
      return Outcome(notices, Fail(MissingRequiredColumns(missing)));
    }
    if !Distinct(t.header) {
      return Outcome(notices, Fail(DuplicateColumn(RequiredColumns[0])));
    }
    NoneMissing(t.header);
    RenamedChecked(notices, t);
    var selected := Select(t, RequiredColumns).rows;
    var errors, cleaned := ValidateContracts(selected);
    if errors != [] {
      return Outcome(notices, Fail(Validation(errors, Head(cleaned))));
    }
    o := Outcome(notices, Ok(cleaned));
  }

  /** The two CSV readings: the second runs only after the first fails to decode or parse. */
  method ReadWithFallback(f: CdrFile) returns (read: Outcome<Table>)
    ensures read == ReadCdr(f)
  {
    match f.utf8Comma {
      case Parsed(first) =>
        read := Outcome([], Ok(first));
      case Crashed =>
        read := Outcome([], Fail(ReaderFailed));
      case Rejected =>
        var notices := [Utf8ReadFailed];
        match f.latin1Semicolon {
          case Parsed(second) =>
            read := Outcome(notices, Ok(second));
          case Rejected =>
            read := Outcome(notices, Fail(CsvUnreadable));
          case Crashed =>
            read := Outcome(notices, Fail(ReaderFailed));
        }
    }
  }

  /** The CDR upload: check the suffix, read with the fallback, require 'Município', drop the
      listed columns one by one, truncate at 'Observação Status', replace the table. */
  method ProcessCdrUpload(store: Store, f: CdrFile) returns (o: Outcome<Table>)
    requires ReadWellFormed(f.utf8Comma) && ReadWellFormed(f.latin1Semicolon)
    modifies store
    ensures o == CdrUpload(f)
    ensures o.result.Ok? ==> store.cdr == o.result.value
    ensures o.result.Fail? ==> store.cdr == old(store.cdr)
    ensures store.producao == old(store.producao) && store.contratos == old(store.contratos)
  {
    if Production.Extension(f.name) != ".csv" {
      return Outcome([], Fail(UnsupportedFormat));
    }
    var read := ReadWithFallback(f);
    if read.result.Fail? {
      return read;
    }
    assert CdrUpload(f) == CleanCdr(read.notices, read.result.value);
    o := CleanRead(read.notices, read.result.value);
    if o.result.Ok? {
      store.ReplaceCdr(o.result.value);
    }
  }

  /** The stages after reading: 'Município' must be there, the listed columns go, and the
      sentinel column and everything after it are cut off. */
  method CleanRead(notices: seq<Notice>, t: Table) returns (o: Outcome<Table>)
    requires WellFormed(t)
    ensures o == CleanCdr(notices, t)
  {
    if Municipio !in t.header {
      return Outcome(notices, Fail(MunicipioMissing));
    }
    var dropped, absent := DropColumns(t, Denylist);
    var all := notices + absent;
    if Sentinel !in dropped.header {
      all := all + [SentinelAbsent];
    }
    o := Outcome(all, Ok(Truncate(dropped)));
  }

  /** The insertion page of the newer dashboard: A3/F3 without fallback, the sheet body,
      the same filter, the stamp, the append. */
  method InsertProducao(store: Store, f: PageFile) returns (r: Result<seq<ProductionRow>>)
    requires f.sheet.Some? ==> WellFormed(f.sheet.value)
    modifies store
    ensures r == PageUpload(f)
    ensures store.producao == old(store.producao) + (if r.Ok? then r.value else [])
    ensures store.contratos == old(store.contratos) && store.cdr == old(store.cdr)
  {
    if f.titles.None? {
      return Fail(ReaderFailed);
    }
    var stamp := PageStamp(f.titles.value.a3, f.titles.value.f3);
    if stamp.Fail? {
      return Fail(stamp.failure);
    }
    var body := SheetStage(f.sheet);
    if body.Fail? {
      return Fail(body.failure);
    }
    var kept := Filter(body.value, OfertaPresent);
    kept := Filter(kept, NotTotal);
    var rows := Stamped(kept, stamp.value);
    store.AppendProducao(rows);
    r := Ok(rows);
  }
}
