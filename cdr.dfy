/** The CDR sheet: a CSV read first as UTF-8 with commas and then as Latin-1 with semicolons,
    the required 'Município' column, the seven columns dropped by name, and the truncation at
    'Observação Status'. */
module Cdr {
  import opened Seqs
  import opened Cells
  import opened Outcomes
  import Production

  /** What one CSV reading gives: a table, a decoding or parsing error (the kind the upload
      retries or reports), or any other failure (caught by the handler around the upload). */
  datatype CsvRead = Parsed(table: Table) | Rejected | Crashed

  predicate ReadWellFormed(r: CsvRead) {
    r.Parsed? ==> WellFormed(r.table)
  }

  /** An uploaded CDR file: its name and what each of the two readings gives. */
  datatype CdrFile = CdrFile(name: string, utf8Comma: CsvRead, latin1Semicolon: CsvRead)

  const Municipio: string := "Município"
  const Sentinel: string := "Observação Status"
  const Denylist: seq<string> := [
    "Profissional", "Turno", "Data Agenda", "Horário", "Filipeta", "Ret. Filipeta",
    "Aceita Teleconsulta"]

  /** The fallback between the two readings, with the warning of the first failure. */
  function ReadCdr(f: CdrFile): (o: Outcome<Table>)
    ensures f.utf8Comma.Parsed? ==> o.result == Ok(f.utf8Comma.table)
    ensures f.utf8Comma.Rejected? && f.latin1Semicolon.Parsed? ==> o.result == Ok(f.latin1Semicolon.table)
    ensures o.result.Ok? <==> f.utf8Comma.Parsed? || (f.utf8Comma.Rejected? && f.latin1Semicolon.Parsed?)
    ensures o.notices == if f.utf8Comma.Rejected? then [Utf8ReadFailed] else []
  {
    match f.utf8Comma
    case Parsed(t) => Outcome([], Ok(t))
    case Crashed => Outcome([], Fail(ReaderFailed))
    case Rejected =>
      match f.latin1Semicolon
      case Parsed(t) => Outcome([Utf8ReadFailed], Ok(t))
      case Rejected => Outcome([Utf8ReadFailed], Fail(CsvUnreadable))
      case Crashed => Outcome([Utf8ReadFailed], Fail(ReaderFailed))
  }

  // ---- Dropping the listed columns ---------------------------------------------------------

  /** One name after the other: drop the column when present, otherwise warn. */
  function DropListed(t: Table, names: seq<string>): (r: (Table, seq<Notice>))
    requires WellFormed(t)
    ensures WellFormed(r.0)
    decreases |names|
  {
    if names == [] then (t, [])
    else
      var step := if names[0] in t.header then (DropColumn(t, names[0]), [])
        else (t, [DenylistedColumnAbsent(names[0])]);
      var rest := DropListed(step.0, names[1..]);
      (rest.0, step.1 + rest.1)
  }

  /** The warnings for the names of `names` absent from `header`, in list order. */
  function AbsentNotices(header: seq<string>, names: seq<string>): seq<Notice> {
    if names == [] then []
    else
      (if names[0] in header then [] else [DenylistedColumnAbsent(names[0])])
      + AbsentNotices(header, names[1..])
  }

  /** Dropping the listed columns leaves exactly the other columns, in their order, with
      their cells; one warning is given for each listed name that was not there. */
  lemma {:induction false} DropListedSpec(t: Table, names: seq<string>)
    requires WellFormed(t) && Distinct(names)
    ensures DropListed(t, names).0.header == Minus(t.header, names)
    ensures Keeps(DropListed(t, names).0, t)
    ensures DropListed(t, names).1 == AbsentNotices(t.header, names)
    decreases |names|
  {
    if names == [] {
      MinusNone(t.header, []);
      KeepsSelf(t);
    } else {
      var c, rest := names[0], names[1..];
      assert Distinct(rest) by {
        forall a, b | 0 <= a < b < |rest| ensures rest[a] != rest[b] {
          assert rest[a] == names[a + 1] && rest[b] == names[b + 1];
        }
      }
      assert c !in rest by {
        forall k | 0 <= k < |rest| ensures rest[k] != c {
          assert rest[k] == names[k + 1];
        }
      }
      var t1 := if c in t.header then DropColumn(t, c) else t;
      DropListedSpec(t1, rest);
      MinusTwice(t.header, [c], rest);
      assert [c] + rest == names;
      if c in t.header {
        DropColumnKeeps(t, c);
        KeepsTransitive(DropListed(t1, rest).0, t1, t);
      } else {
        MinusNone(t.header, [c]);
      }
      AbsentAfterDrop(t.header, t1.header, c, rest);
    }
  }

  /** The absence warnings for the names still to come do not change when a column that is
      not among them is dropped. */
  lemma {:induction false} AbsentAfterDrop(h: seq<string>, h1: seq<string>, c: string, rest: seq<string>)
    requires c !in rest
    requires forall x :: x != c ==> (x in h1 <==> x in h)
    ensures AbsentNotices(h1, rest) == AbsentNotices(h, rest)
  {
    if rest != [] {
      assert rest[0] != c;
      AbsentAfterDrop(h, h1, c, rest[1..]);
    }
  }

  /** Drops the named columns one at a time, warning about each one that is absent. */
  method DropColumns(t: Table, names: seq<string>) returns (r: Table, notices: seq<Notice>)
    requires WellFormed(t)
    ensures r == DropListed(t, names).0 && notices == DropListed(t, names).1
  {
    r := t;
    notices := [];
    assert names[0..] == names;
    for k := 0 to |names|
      invariant WellFormed(r)
      invariant DropListed(t, names).0 == DropListed(r, names[k..]).0
      invariant DropListed(t, names).1 == notices + DropListed(r, names[k..]).1
    {
      var col := names[k];
      DropListedStep(r, names, k);
      if col in r.header {
        r := DropColumn(r, col);
      } else {
        notices := notices + [DenylistedColumnAbsent(col)];
      }
    }
    assert names[|names|..] == [];
  }

  /** One step of `DropListed`: the name at position `k` is dropped or warned about, and the
      rest of the list follows. */
  lemma DropListedStep(r: Table, names: seq<string>, k: nat)
    requires WellFormed(r) && k < |names|
    ensures names[k] in r.header ==>
      DropListed(r, names[k..]) == DropListed(DropColumn(r, names[k]), names[k + 1..])
    ensures names[k] !in r.header ==>
      DropListed(r, names[k..]) == (DropListed(r, names[k + 1..]).0,
        [DenylistedColumnAbsent(names[k])] + DropListed(r, names[k + 1..]).1)
  {
    assert names[k..][0] == names[k] && names[k..][1..] == names[k + 1..];
    if names[k] in r.header {
      var rest := DropListed(DropColumn(r, names[k]), names[k + 1..]);
      assert [] + rest.1 == rest.1;
    }
  }

  // ---- Truncation --------------------------------------------------------------------------

  /** Every column from 'Observação Status' to the end is removed. */
  function Truncate(t: Table): (r: Table)
    requires WellFormed(t)
    ensures WellFormed(r) && Keeps(r, t)
    ensures Sentinel in t.header ==> r.header == t.header[..IndexOf(t.header, Sentinel)]
    ensures Sentinel !in t.header ==> r == t
    ensures Sentinel !in r.header
  {
    if Sentinel in t.header then
      var k := IndexOf(t.header, Sentinel);
      TakeColumnsKeeps(t, k);
      TakeColumns(t, k)
    else
      KeepsSelf(t);
      t
  }

  // ---- The upload --------------------------------------------------------------------------

  /** What a CDR upload reports and, on success, the table that replaces the stored one. It
      stores nothing exactly when the name does not end in ".csv" (in any case), neither
      reading gives a table, or the table read has no 'Município' column. */
  function CdrUpload(f: CdrFile): (o: Outcome<Table>)
    requires ReadWellFormed(f.utf8Comma) && ReadWellFormed(f.latin1Semicolon)
    ensures o.result.Fail? <==>
      (Production.Extension(f.name) != ".csv" || ReadCdr(f).result.Fail?
       || Municipio !in ReadCdr(f).result.value.header)
    ensures o.result.Fail? && Production.Extension(f.name) == ".csv" && ReadCdr(f).result.Fail?
      ==> o.result == ReadCdr(f).result
  {
    if Production.Extension(f.name) != ".csv" then Outcome([], Fail(UnsupportedFormat))
    else
      var read := ReadCdr(f);
      match read.result
      case Fail(e) => Outcome(read.notices, Fail(e))
      case Ok(t) => CleanCdr(read.notices, t)
  }

  /** The stages after reading: 'Município', the listed columns, the truncation. */
  function CleanCdr(notices: seq<Notice>, t: Table): Outcome<Table>
    requires WellFormed(t)
  {
    if Municipio !in t.header then Outcome(notices, Fail(MunicipioMissing))
    else
      var dropped := DropListed(t, Denylist);
      var tail := if Sentinel in dropped.0.header then [] else [SentinelAbsent];
      Outcome(notices + dropped.1 + tail, Ok(Truncate(dropped.0)))
  }

  /** Dropping distinct names and truncating: the surviving columns keep their order and
      their cells, and none of the dropped names is left. */
  lemma Cleaned(t: Table, names: seq<string>)
    requires WellFormed(t) && Distinct(names)
    ensures var m := Minus(t.header, names);
      var r := Truncate(DropListed(t, names).0);
      Keeps(r, t)
      && (Sentinel in m ==> r.header == m[..IndexOf(m, Sentinel)])
      && (Sentinel !in m ==> r.header == m)
      && forall c :: c in names ==> c !in r.header
  {
    var d := DropListed(t, names).0;
    DropListedSpec(t, names);
    KeepsTransitive(Truncate(d), d, t);
  }

  lemma DenylistDistinct()
    ensures Distinct(Denylist)
  {
  }

  /** The stored CDR table: the read table without the seven listed columns and without
      'Observação Status' and what follows it; the surviving columns keep their order and
      their cells. */
  lemma CdrStored(f: CdrFile)
    requires ReadWellFormed(f.utf8Comma) && ReadWellFormed(f.latin1Semicolon)
    requires CdrUpload(f).result.Ok?
    ensures var t := ReadCdr(f).result.value;
      var m := Minus(t.header, Denylist);
      var r := CdrUpload(f).result.value;
      Municipio in t.header && Keeps(r, t)
      && (Sentinel in m ==> r.header == m[..IndexOf(m, Sentinel)])
      && (Sentinel !in m ==> r.header == m)
      && forall c :: c in Denylist ==> c !in r.header
  {
    DenylistDistinct();
    Cleaned(ReadCdr(f).result.value, Denylist);
  }

  /** The warnings of a successful upload: the retry warning when the first reading failed,
      one warning per listed column that was absent, in list order, and one more when the
      remaining columns have no 'Observação Status'. */
  lemma CdrWarnings(f: CdrFile)
    requires ReadWellFormed(f.utf8Comma) && ReadWellFormed(f.latin1Semicolon)
    requires CdrUpload(f).result.Ok?
    ensures var t := ReadCdr(f).result.value;
      CdrUpload(f).notices
      == (if f.utf8Comma.Rejected? then [Utf8ReadFailed] else [])
         + AbsentNotices(t.header, Denylist)
         + (if Sentinel in Minus(t.header, Denylist) then [] else [SentinelAbsent])
  {
    DenylistDistinct();
    DropListedSpec(ReadCdr(f).result.value, Denylist);
  }

  /** A column placed after 'Observação Status' does not survive the cleaning. */
  lemma CutAfterSentinel(t: Table, names: seq<string>, col: string)
    requires WellFormed(t) && Distinct(names) && col !in names
    requires Sentinel in t.header && Sentinel !in names && col in t.header
    requires IndexOf(t.header, Sentinel) < IndexOf(t.header, col)
    ensures col !in Truncate(DropListed(t, names).0).header
  {
    Cleaned(t, names);
    var m := Minus(t.header, names);
    assert Sentinel in m && col in m;
    MinusKeepsOrder(t.header, names, Sentinel, col);
  }

  /** The 'Município' check looks at the table as read: a file whose 'Município' column comes
      after 'Observação Status' passes the check and is stored without it. */
  lemma MunicipioCanBeCut(f: CdrFile)
    requires ReadWellFormed(f.utf8Comma) && ReadWellFormed(f.latin1Semicolon)
    requires Production.Extension(f.name) == ".csv" && ReadCdr(f).result.Ok?
    requires var h := ReadCdr(f).result.value.header;
      Sentinel in h && Municipio in h && IndexOf(h, Sentinel) < IndexOf(h, Municipio)
    ensures CdrUpload(f).result.Ok? && Municipio !in CdrUpload(f).result.value.header
  {
    DenylistDistinct();
    CutAfterSentinel(ReadCdr(f).result.value, Denylist, Municipio);
  }

  /** Removing labels keeps the order of the rest. */
  lemma {:induction false} MinusKeepsOrder(h: seq<string>, drop: seq<string>, a: string, b: string)
    requires Distinct(h) && a in h && b in h && IndexOf(h, a) < IndexOf(h, b)
    requires a in Minus(h, drop) && b in Minus(h, drop)
    ensures forall q :: 0 <= q < IndexOf(Minus(h, drop), a) ==> Minus(h, drop)[q] != b
  {
    if h[0] == a {
      var m := Minus(h, drop);
      assert m[0] == a;
    } else {
      assert h[0] != b;
      var tail := h[1..];
      assert Distinct(tail) by {
        forall x, y | 0 <= x < y < |tail| ensures tail[x] != tail[y] {
          assert tail[x] == h[x + 1] && tail[y] == h[y + 1];
        }
      }
      assert a in Minus(tail, drop) && b in Minus(tail, drop);
      MinusKeepsOrder(tail, drop, a, b);
      var m := Minus(h, drop);
      var head := if h[0] in drop then [] else [h[0]];
      assert m == head + Minus(tail, drop);
      forall q | 0 <= q < IndexOf(m, a) ensures m[q] != b {
        if head != [] && q > 0 {
          assert m[q] == Minus(tail, drop)[q - 1];
          assert IndexOf(m, a) == 1 + IndexOf(Minus(tail, drop), a);
        } else if head == [] {
          assert m == Minus(tail, drop);
        }
      }
    }
  }
}
